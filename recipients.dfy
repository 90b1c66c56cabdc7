/**
 * The recipient list endpoint: plans are narrowed by optional case-insensitive
 * filters, then folded into one entry per distinct recipient address, the first
 * plan with an address supplying its entry.
 */
module Recipients {
  import opened Values

  /** The plan columns the endpoint reads. `templateVarsText` is the stored JSON as the
      database matches text against it. */
  datatype PlanRow = PlanRow(name: string, recipientEmail: Option<string>, recipientName: Option<string>,
                             templateVarsText: Option<string>)

  datatype Entry = Entry(email: Option<string>, name: string, plan: string)

  /** The entry a plan contributes: its address, its recipient name or "", its name. */
  function EntryOf(p: PlanRow): Entry {
    Entry(p.recipientEmail, if p.recipientName.Some? then p.recipientName.value else "", p.name)
  }

  // ---------------------------------------------------------------------------
  // Filters.

  /** `field__icontains=needle`: case-insensitive containment; a NULL column never matches. */
  predicate IContains(field: Option<string>, needle: string) {
    field.Some? && Contains(Lower(field.value), Lower(needle))
  }

  /** The plan passes every filter that is given (a missing or empty filter is not applied). */
  predicate PassesFilters(p: PlanRow, email: Option<string>, name: Option<string>, tag: Option<string>) {
    (email.None? || email.value == "" || IContains(p.recipientEmail, email.value)) &&
    (name.None? || name.value == "" || IContains(p.recipientName, name.value)) &&
    (tag.None? || tag.value == "" || IContains(p.templateVarsText, tag.value))
  }

  /** The three filterable columns: `recipient_email`, `recipient_name` and `template_vars`. */
  datatype Column = EmailColumn | NameColumn | TagColumn

  function ColumnOf(p: PlanRow, c: Column): Option<string> {
    match c
    case EmailColumn => p.recipientEmail
    case NameColumn => p.recipientName
    case TagColumn => p.templateVarsText
  }

  /** `qs.filter(...)` for one filter: the plans that match, in order. */
  function FilterBy(ps: seq<PlanRow>, c: Column, needle: Option<string>): (r: seq<PlanRow>)
    ensures |r| <= |ps|
    ensures forall q :: q in r ==> q in ps
    ensures forall q :: q in r ==> needle.None? || needle.value == "" || IContains(ColumnOf(q, c), needle.value)
    ensures forall q :: q in ps && (needle.None? || needle.value == "" || IContains(ColumnOf(q, c), needle.value)) ==> q in r
  {
    if needle.None? || needle.value == "" then ps
    else if ps == [] then []
    else (if IContains(ColumnOf(ps[0], c), needle.value) then [ps[0]] else []) + FilterBy(ps[1..], c, needle)
  }

  /** The queryset after the three optional filters, applied in the source's order. */
  function Filtered(ps: seq<PlanRow>, email: Option<string>, name: Option<string>, tag: Option<string>): seq<PlanRow> {
    var byEmail := FilterBy(ps, EmailColumn, email);
    var byName := FilterBy(byEmail, NameColumn, name);
    FilterBy(byName, TagColumn, tag)
  }

  // ---------------------------------------------------------------------------
  // De-duplication.

  predicate HasEmail(d: seq<Entry>, e: Option<string>) {
    exists j :: 0 <= j < |d| && d[j].email == e
  }

  /** The entries after folding ps in order: a plan adds an entry only when its address is new. */
  function Dedup(ps: seq<PlanRow>): seq<Entry> {
    if ps == [] then []
    else
      var d := Dedup(ps[..|ps| - 1]);
      var p := ps[|ps| - 1];
      if HasEmail(d, p.recipientEmail) then d else d + [EntryOf(p)]
  }

  /** The `recipients` dict for entries d: address -> entry, in insertion order. */
  function Keyed(d: seq<Entry>): (r: seq<(Option<string>, Entry)>)
    ensures |r| == |d| && forall j :: 0 <= j < |d| ==> r[j] == (d[j].email, d[j])
  {
    if d == [] then [] else Keyed(d[..|d| - 1]) + [(d[|d| - 1].email, d[|d| - 1])]
  }

  /** `list(recipients.values())`. */
  function EntriesOf(m: seq<(Option<string>, Entry)>): (r: seq<Entry>)
    ensures |r| == |m| && forall j :: 0 <= j < |m| ==> r[j] == m[j].1
  {
    if m == [] then [] else [m[0].1] + EntriesOf(m[1..])
  }

  /** The dict for d has a key exactly for the addresses in d, and recording a new entry
      appends it. */
  lemma KeyedStep(d: seq<Entry>, x: Entry)
    ensures HasKey(Keyed(d), x.email) <==> HasEmail(d, x.email)
    ensures Keyed(d + [x]) == Keyed(d) + [(x.email, x)]
  {
    if HasEmail(d, x.email) {
      var j :| 0 <= j < |d| && d[j].email == x.email;
      assert Keyed(d)[j].0 == x.email;
    }
    assert (d + [x])[..|d|] == d;
  }

  /** One turn of the fold: adding plan i to the dict of the plans before it gives the dict
      of the plans up to it. */
  lemma FoldStep(qs: seq<PlanRow>, i: nat)
    requires i < |qs|
    ensures var recipients, plan := Keyed(Dedup(qs[..i])), qs[i];
            (if HasKey(recipients, plan.recipientEmail) then recipients
             else Set(recipients, plan.recipientEmail, EntryOf(plan))) == Keyed(Dedup(qs[..i + 1]))
  {
    var plan := qs[i];
    var d := Dedup(qs[..i]);
    assert qs[..i + 1][..i] == qs[..i] && qs[..i + 1][i] == plan;
    KeyedStep(d, EntryOf(plan));
    if !HasKey(Keyed(d), plan.recipientEmail) {
      SetAppends(Keyed(d), plan.recipientEmail, EntryOf(plan));
    }
  }

  lemma EntriesOfKeyed(d: seq<Entry>)
    ensures EntriesOf(Keyed(d)) == d
  {
  }

  /** The queryset narrowed by each filter that is given. */
  method ApplyFilters(plans: seq<PlanRow>, email: Option<string>, name: Option<string>, tag: Option<string>)
    returns (qs: seq<PlanRow>)
    ensures qs == Filtered(plans, email, name, tag)
  {
    qs := plans;
    if email.Some? && email.value != "" {
      qs := FilterBy(qs, EmailColumn, email);
    }
    if name.Some? && name.value != "" {
      qs := FilterBy(qs, NameColumn, name);
    }
    if tag.Some? && tag.value != "" {
      qs := FilterBy(qs, TagColumn, tag);
    }
  }

  /** `RecipientListView.get`: the filtered plans folded into a dict keyed by address. */
  method RecipientList(plans: seq<PlanRow>, email: Option<string>, name: Option<string>, tag: Option<string>)
    returns (list: seq<Entry>, count: nat)
    ensures list == Dedup(Filtered(plans, email, name, tag))
    ensures count == |list|
  {
    var qs := ApplyFilters(plans, email, name, tag);
    var recipients: seq<(Option<string>, Entry)> := [];
    var i := 0;
    while i < |qs|
      invariant 0 <= i <= |qs|
      invariant recipients == Keyed(Dedup(qs[..i]))
    {
      var plan := qs[i];
      FoldStep(qs, i);
      if !HasKey(recipients, plan.recipientEmail) {
        recipients := Set(recipients, plan.recipientEmail, EntryOf(plan));
      }
      i := i + 1;
    }
    assert qs[..i] == qs;
    list := EntriesOf(recipients);
    EntriesOfKeyed(Dedup(qs));
    count := |list|;
  }

  // ---------------------------------------------------------------------------
  // Properties.

  /** No address appears twice. */
  lemma {:induction false} DedupDistinct(ps: seq<PlanRow>)
    ensures forall i, j :: 0 <= i < j < |Dedup(ps)| ==> Dedup(ps)[i].email != Dedup(ps)[j].email
  {
    if ps != [] { DedupDistinct(ps[..|ps| - 1]); }
  }

  /** No plan before position i has the address of plan i. */
  predicate FirstWithEmail(ps: seq<PlanRow>, i: nat)
    requires i < |ps|
  {
    forall k :: 0 <= k < i ==> ps[k].recipientEmail != ps[i].recipientEmail
  }

  /** Every plan's address is listed. */
  lemma {:induction false} DedupCovers(ps: seq<PlanRow>)
    ensures forall i :: 0 <= i < |ps| ==> HasEmail(Dedup(ps), ps[i].recipientEmail)
  {
    if ps != [] {
      var init := ps[..|ps| - 1];
      DedupCovers(init);
      var d := Dedup(init);
      forall i | 0 <= i < |ps| ensures HasEmail(Dedup(ps), ps[i].recipientEmail) {
        if i < |ps| - 1 {
          assert ps[i] == init[i];
          var j :| 0 <= j < |d| && d[j].email == ps[i].recipientEmail;
          assert Dedup(ps)[j] == d[j];
        } else if !HasEmail(d, ps[i].recipientEmail) {
          assert Dedup(ps)[|d|] == EntryOf(ps[i]);
        }
      }
    }
  }

  /** Every listed entry is the entry of the first plan carrying its address. */
  lemma {:induction false} DedupFirstOccurrence(ps: seq<PlanRow>, j: nat)
    requires j < |Dedup(ps)|
    ensures exists i :: 0 <= i < |ps| && Dedup(ps)[j] == EntryOf(ps[i]) && FirstWithEmail(ps, i)
  {
    var init := ps[..|ps| - 1];
    var d := Dedup(init);
    if j < |d| {
      DedupFirstOccurrence(init, j);
      var i :| 0 <= i < |init| && d[j] == EntryOf(init[i]) && FirstWithEmail(init, i);
      assert ps[i] == init[i];
      assert forall k :: 0 <= k < i ==> ps[k] == init[k];
      assert FirstWithEmail(ps, i);
    } else {
      var i := |ps| - 1;
      DedupCovers(init);
      forall k | 0 <= k < i ensures ps[k].recipientEmail != ps[i].recipientEmail {
        assert ps[k] == init[k];
      }
      assert FirstWithEmail(ps, i);
    }
  }

  lemma FilteredPlansPass(ps: seq<PlanRow>, email: Option<string>, name: Option<string>, tag: Option<string>)
    ensures forall q :: q in Filtered(ps, email, name, tag) ==> q in ps && PassesFilters(q, email, name, tag)
  {
    var byEmail := FilterBy(ps, EmailColumn, email);
    var byName := FilterBy(byEmail, NameColumn, name);
    assert forall q :: q in byName ==> q in byEmail;
  }

  /** Each entry of the answer belongs to a plan that passes every given filter; the count is
      the number of distinct addresses among those plans. */
  lemma RecipientListSound(plans: seq<PlanRow>, email: Option<string>, name: Option<string>, tag: Option<string>)
    ensures var d := Dedup(Filtered(plans, email, name, tag));
            forall j :: 0 <= j < |d| ==>
              exists q :: q in plans && PassesFilters(q, email, name, tag) && d[j] == EntryOf(q)
  {
    var f := Filtered(plans, email, name, tag);
    FilteredPlansPass(plans, email, name, tag);
    var d := Dedup(f);
    forall j | 0 <= j < |d| ensures exists q :: q in plans && PassesFilters(q, email, name, tag) && d[j] == EntryOf(q) {
      DedupFirstOccurrence(f, j);
      var i :| 0 <= i < |f| && d[j] == EntryOf(f[i]) && FirstWithEmail(f, i);
      assert f[i] in f;
    }
  }

  /** Conversely, every plan that passes the filters has its address in the answer. */
  lemma RecipientListComplete(plans: seq<PlanRow>, email: Option<string>, name: Option<string>, tag: Option<string>, q: PlanRow)
    requires q in plans && PassesFilters(q, email, name, tag)
    ensures HasEmail(Dedup(Filtered(plans, email, name, tag)), q.recipientEmail)
  {
    var f := Filtered(plans, email, name, tag);
    assert q in f;
    var i :| 0 <= i < |f| && f[i] == q;
    DedupCovers(f);
  }
}
