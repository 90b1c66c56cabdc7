/**
 * The node editor's template-variable text: `{{ name }}` placeholders found in an
 * email body, the `key: value` line format the variables are edited in, and the
 * merge that adds a blank variable for every placeholder not yet defined.
 */
module TemplateVars {
  import opened Values

  // ---------------------------------------------------------------------------
  // Placeholders: the regular expression `{{\s*([a-zA-Z0-9_]+)\s*}}`, global.

  predicate IsNameChar(c: char) { 'a' <= c <= 'z' || 'A' <= c <= 'Z' || '0' <= c <= '9' || c == '_' }

  predicate IsName(n: string) { n != [] && forall i :: 0 <= i < |n| ==> IsNameChar(n[i]) }

  /** The end of the run of spaces starting at i. */
  function SkipSpaces(s: string, i: nat): (j: nat)
    requires i <= |s|
    ensures i <= j <= |s| && (j == |s| || !IsSpace(s[j]))
    ensures forall k :: i <= k < j ==> IsSpace(s[k])
    decreases |s| - i
  {
    if i < |s| && IsSpace(s[i]) then SkipSpaces(s, i + 1) else i
  }

  /** The end of the run of name characters starting at i. */
  function SkipName(s: string, i: nat): (j: nat)
    requires i <= |s|
    ensures i <= j <= |s| && (j == |s| || !IsNameChar(s[j]))
    ensures forall k :: i <= k < j ==> IsNameChar(s[k])
    decreases |s| - i
  {
    if i < |s| && IsNameChar(s[i]) then SkipName(s, i + 1) else i
  }

  /** The pattern anchored at p: the captured name and the end of the match. Spaces,
      name characters and `}` are disjoint, so the greedy runs are the only way to match. */
  function MatchAt(s: string, p: nat): (r: Option<(string, nat)>)
    requires p <= |s|
    ensures r.Some? ==> p + 5 <= r.value.1 <= |s| && IsName(r.value.0)
  {
    if p + 2 <= |s| && s[p] == '{' && s[p + 1] == '{' then
      var a := SkipSpaces(s, p + 2);
      var b := SkipName(s, a);
      var c := SkipSpaces(s, b);
      if a < b && c + 2 <= |s| && s[c] == '}' && s[c + 1] == '}' then Some((s[a..b], c + 2)) else None
    else None
  }

  /** `regex.exec(text)` from `lastIndex` p: the leftmost match at or after p. */
  function NextMatch(s: string, p: nat): (r: Option<(string, nat)>)
    requires p <= |s|
    ensures r.Some? ==> p + 5 <= r.value.1 <= |s| && IsName(r.value.0)
    decreases |s| - p
  {
    match MatchAt(s, p)
    case Some(m) => Some(m)
    case None => if p < |s| then NextMatch(s, p + 1) else None
  }

  /** The captured names of all successive matches from p, repetitions included. */
  function Matches(s: string, p: nat): seq<string>
    requires p <= |s|
    decreases |s| - p
  {
    match NextMatch(s, p)
    case None => []
    case Some((n, e)) => [n] + Matches(s, e)
  }

  /** Adding xs in order to an insertion-ordered set seen. */
  function AddNew(seen: seq<string>, xs: seq<string>): seq<string>
    decreases |xs|
  {
    if xs == [] then seen else AddNew(if xs[0] in seen then seen else seen + [xs[0]], xs[1..])
  }

  /** `extractPlaceholders(text)`. */
  function Placeholders(text: string): (r: seq<string>)
    ensures Distinct(r) && forall n :: n in r ==> IsName(n)
  {
    if text == "" then []
    else
      AddNewMembers([], Matches(text, 0));
      MatchesAreNames(text, 0);
      AddNew([], Matches(text, 0))
  }

  /** `extractPlaceholders`, looping over `regex.exec` and adding to a `Set`. */
  method ExtractPlaceholders(text: string) returns (r: seq<string>)
    ensures r == Placeholders(text)
  {
    if text == "" {
      return [];
    }
    var found: seq<string> := [];
    var last := 0;
    while true
      invariant last <= |text|
      invariant AddNew(found, Matches(text, last)) == AddNew([], Matches(text, 0))
      decreases |text| - last
    {
      var m := NextMatch(text, last);
      if m.None? {
        break;
      }
      if m.value.0 !in found {
        found := found + [m.value.0];
      }
      last := m.value.1;
    }
    r := found;
  }

  predicate Distinct(xs: seq<string>) { forall i, j :: 0 <= i < j < |xs| ==> xs[i] != xs[j] }

  lemma {:induction false} AddNewMembers(seen: seq<string>, xs: seq<string>)
    ensures forall x :: x in AddNew(seen, xs) <==> x in seen || x in xs
    ensures Distinct(seen) ==> Distinct(AddNew(seen, xs))
    ensures seen <= AddNew(seen, xs)
    decreases |xs|
  {
    if xs != [] {
      var seen' := if xs[0] in seen then seen else seen + [xs[0]];
      AddNewMembers(seen', xs[1..]);
      assert forall x :: x in xs <==> x == xs[0] || x in xs[1..];
    }
  }

  /** In AddNew(seen, xs), an element that was not in seen comes after every element that
      occurs earlier in xs than its own first occurrence. */
  lemma {:induction false} AddNewOrder(seen: seq<string>, xs: seq<string>, i: nat, j: nat)
    requires Distinct(seen)
    requires i < j < |AddNew(seen, xs)| && |seen| <= j
    ensures AddNew(seen, xs)[i] in seen ||
            exists a :: 0 <= a < |xs| && xs[a] == AddNew(seen, xs)[i] && AddNew(seen, xs)[j] !in xs[..a]
    decreases |xs|
  {
    var r := AddNew(seen, xs);
    if xs != [] {
      var seen' := if xs[0] in seen then seen else seen + [xs[0]];
      assert r == AddNew(seen', xs[1..]);
      AddNewMembers(seen', xs[1..]);
      if j < |seen'| {
        assert r[i] == seen[i];
      } else {
        AddNewOrder(seen', xs[1..], i, j);
        if r[i] in seen' && r[i] !in seen {
          assert r[i] == xs[0] && xs[..0] == [];
        } else if r[i] !in seen' {
          var a :| 0 <= a < |xs[1..]| && xs[1..][a] == r[i] && r[j] !in xs[1..][..a];
          LaterIsNotInPrefix(seen', r, j, xs[0]);
          WitnessShift(xs, a, r[i], r[j]);
        }
      }
    }
  }

  /** In a distinct sequence extending p, an entry past p is none of p's. */
  lemma LaterIsNotInPrefix(p: seq<string>, r: seq<string>, j: nat, x: string)
    requires Distinct(r) && p <= r && |p| <= j < |r| && x in p
    ensures r[j] != x
  {
    var k :| 0 <= k < |p| && p[k] == x;
    assert r[k] == x;
  }

  /** A witness in the tail of xs is one position later in xs. */
  lemma WitnessShift(xs: seq<string>, a: nat, x: string, y: string)
    requires xs != [] && a < |xs[1..]| && xs[1..][a] == x && y !in xs[1..][..a] && y != xs[0]
    ensures xs[a + 1] == x && y !in xs[..a + 1]
  {
    assert xs[..a + 1] == [xs[0]] + xs[1..][..a];
  }

  lemma {:induction false} MatchesAreNames(s: string, p: nat)
    requires p <= |s|
    ensures forall n :: n in Matches(s, p) ==> IsName(n)
    decreases |s| - p
  {
    match NextMatch(s, p)
    case None =>
    case Some((n, e)) => MatchesAreNames(s, e);
  }

  /** Every placeholder written in the text is reported exactly once, in order of first
      occurrence, and nothing else is. */
  lemma PlaceholdersSpec(text: string)
    ensures var r := Placeholders(text);
            Distinct(r) &&
            (forall n :: n in r ==> IsName(n)) &&
            (text != "" ==> forall n :: n in r <==> n in Matches(text, 0)) &&
            (text != "" ==> forall i, j :: 0 <= i < j < |r| ==>
               exists a :: 0 <= a < |Matches(text, 0)| && Matches(text, 0)[a] == r[i] && r[j] !in Matches(text, 0)[..a])
  {
    if text != "" {
      var xs := Matches(text, 0);
      AddNewMembers([], xs);
      MatchesAreNames(text, 0);
      forall i, j | 0 <= i < j < |AddNew([], xs)|
        ensures exists a :: 0 <= a < |xs| && xs[a] == AddNew([], xs)[i] && AddNew([], xs)[j] !in xs[..a]
      {
        AddNewOrder([], xs, i, j);
      }
    }
  }

  /** A run of name characters n at i, followed by a non-name character, is skipped whole. */
  lemma SkipNameOver(s: string, i: nat, n: string)
    requires IsName(n) && i + |n| < |s| && s[i..i + |n|] == n && !IsNameChar(s[i + |n|])
    ensures SkipName(s, i) == i + |n|
  {
  }

  /** A name written as `{{name}}` or `{{ name }}` is found back. */
  lemma WrappedNameIsFound(n: string)
    requires IsName(n)
    ensures Placeholders("{{" + n + "}}") == [n]
    ensures Placeholders("{{ " + n + " }}") == [n]
  {
    TightNameIsFound(n);
    SpacedNameIsFound(n);
  }

  lemma TightNameIsFound(n: string)
    requires IsName(n)
    ensures Placeholders("{{" + n + "}}") == [n]
  {
    var s := "{{" + n + "}}";
    assert SkipSpaces(s, 2) == 2;
    SkipNameOver(s, 2, n);
    assert SkipSpaces(s, 2 + |n|) == 2 + |n|;
    assert s[2..2 + |n|] == n;
    assert MatchAt(s, 0) == Some((n, |s|));
    assert Matches(s, |s|) == [];
    assert Matches(s, 0) == [n];
    assert AddNew([], [n]) == AddNew([n], []);
  }

  lemma SpacedNameIsFound(n: string)
    requires IsName(n)
    ensures Placeholders("{{ " + n + " }}") == [n]
  {
    var t := "{{ " + n + " }}";
    assert |t| == |n| + 6 && t[0] == '{' && t[1] == '{' && t[2] == ' ';
    assert t[3 + |n|] == ' ' && t[4 + |n|] == '}' && t[5 + |n|] == '}';
    assert t[3] == n[0];
    assert SkipSpaces(t, 2) == 3;
    SkipNameOver(t, 3, n);
    assert SkipSpaces(t, 3 + |n|) == 4 + |n|;
    assert t[3..3 + |n|] == n;
    assert MatchAt(t, 0) == Some((n, |t|));
    assert Matches(t, |t|) == [];
    assert Matches(t, 0) == [n];
    assert AddNew([], [n]) == AddNew([n], []);
  }

  lemma EmptyTextHasNoPlaceholders()
    ensures Placeholders("") == []
  {
  }

  // ---------------------------------------------------------------------------
  // `key: value` lines.

  /** One line: blank lines and empty keys give nothing; the line splits at its first
      ':', else at its first '=', else it is a key with the empty value. */
  function LineEntry(line: string): (r: Option<(string, string)>)
    ensures r.Some? ==> r.value.0 != "" && IsTrimmed(r.value.0) && IsTrimmed(r.value.1)
  {
    var t := Trim(line);
    if t == "" then None
    else
      var kv: (string, string) :=
        match IndexOf(t, ':')
        case Some(i) => (Trim(t[..i]), Trim(t[i + 1..]))
        case None =>
          match IndexOf(t, '=')
          case Some(i) => (Trim(t[..i]), Trim(t[i + 1..]))
          case None => (t, "");
      if kv.0 == "" then None else Some(kv)
  }

  /** The key whose assignment goes through `Object.prototype`'s setter: assigning it a
      string changes nothing and creates no own key. */
  const ProtoKey: string := "__proto__"

  /** The object `obj` after the loop over lines: `obj[key] = val` for each entry. */
  function LinesToFields(lines: seq<string>): seq<(string, string)> {
    if lines == [] then []
    else
      var fs := LinesToFields(lines[..|lines| - 1]);
      match LineEntry(lines[|lines| - 1])
      case None => fs
      case Some((k, v)) => if k == ProtoKey then fs else Set(fs, k, v)
  }

  function StrFields(fs: seq<(string, string)>): (r: seq<(string, Value)>)
    ensures |r| == |fs| && forall i :: 0 <= i < |fs| ==> r[i] == (fs[i].0, Str(fs[i].1))
  {
    if fs == [] then [] else [(fs[0].0, Str(fs[0].1))] + StrFields(fs[1..])
  }

  /** A decoded value `typeof` reports as "object" that is not null: an array or an object. */
  predicate IsObject(v: Value) { v.List? || v.Dict? }

  /** `parseTemplateVars(text)`; decode stands for `JSON.parse`, None when it throws. */
  function ParsedVars(text: string, decode: string -> Option<Value>): (r: Value)
    ensures IsObject(r)
  {
    if Trim(text) == "" then Dict([])
    else match decode(text)
      case Some(v) => if IsObject(v) then v else Dict(StrFields(LinesToFields(Split(text, '\n'))))
      case None => Dict(StrFields(LinesToFields(Split(text, '\n'))))
  }

  /** `parseTemplateVars`, assigning into `obj` line by line. */
  method ParseTemplateVars(text: string, decode: string -> Option<Value>) returns (r: Value)
    ensures r == ParsedVars(text, decode)
  {
    if text == "" || Trim(text) == "" {
      return Dict([]);
    }
    var parsed := decode(text);
    if parsed.Some? && IsObject(parsed.value) {
      return parsed.value;
    }
    var obj := ReadLines(Split(text, '\n'));
    r := Dict(StrFields(obj));
  }

  /** The `for (const line of lines)` loop of `parseTemplateVars`. */
  method ReadLines(lines: seq<string>) returns (obj: seq<(string, string)>)
    ensures obj == LinesToFields(lines)
  {
    obj := [];
    var i := 0;
    while i < |lines|
      invariant 0 <= i <= |lines|
      invariant obj == LinesToFields(lines[..i])
    {
      assert lines[..i + 1][..i] == lines[..i];
      var entry := LineEntry(lines[i]);
      if entry.Some? && entry.value.0 != ProtoKey {
        obj := Set(obj, entry.value.0, entry.value.1);
      }
      i := i + 1;
    }
    assert lines[..i] == lines;
  }

  /** The value the last line with key k gives it. */
  function LastValue(lines: seq<string>, k: string): Option<string> {
    if lines == [] then None
    else match LineEntry(lines[|lines| - 1])
      case Some((k', v)) => if k' == k && k != ProtoKey then Some(v) else LastValue(lines[..|lines| - 1], k)
      case None => LastValue(lines[..|lines| - 1], k)
  }

  /** Keys come out unique. */
  lemma {:induction false} LinesToFieldsUnique(lines: seq<string>)
    ensures KeysUnique(LinesToFields(lines))
  {
    if lines != [] {
      var init := lines[..|lines| - 1];
      LinesToFieldsUnique(init);
      var e := LineEntry(lines[|lines| - 1]);
      if e.Some? && e.value.0 != ProtoKey { SetKeys(LinesToFields(init), e.value.0, e.value.1); }
    }
  }

  /** A key repeated on a later line takes that line's value. */
  lemma {:induction false} LinesToFieldsFind(lines: seq<string>, k: string)
    ensures Find(LinesToFields(lines), k) == LastValue(lines, k)
  {
    if lines != [] {
      var init := lines[..|lines| - 1];
      LinesToFieldsFind(init, k);
      var e := LineEntry(lines[|lines| - 1]);
      if e.Some? && e.value.0 != ProtoKey { SetFind(LinesToFields(init), e.value.0, e.value.1, k); }
    }
  }

  /** Keys are non-empty, trimmed and never `__proto__`, values trimmed. */
  lemma {:induction false} LinesToFieldsClean(lines: seq<string>)
    ensures forall f :: f in LinesToFields(lines) ==> f.0 != "" && f.0 != ProtoKey && IsTrimmed(f.0) && IsTrimmed(f.1)
  {
    if lines != [] {
      var init := lines[..|lines| - 1];
      LinesToFieldsClean(init);
      var e := LineEntry(lines[|lines| - 1]);
      if e.Some? && e.value.0 != ProtoKey { SetEntries(LinesToFields(init), e.value.0, e.value.1); }
    }
  }

  /** Every entry of `d[k] = v` is an entry of d or the pair (k, v). */
  lemma {:induction false} SetEntries<K, V>(fs: seq<(K, V)>, k: K, v: V)
    ensures forall e :: e in Set(fs, k, v) ==> e in fs || e == (k, v)
  {
    if fs != [] && fs[0].0 != k {
      SetEntries(fs[1..], k, v);
      assert forall e :: e in fs[1..] ==> e in fs;
    }
  }

  /** A line whose trimmed text has its first ':' after k splits there. */
  lemma LineEntryAtColon(line: string, k: string, rest: string)
    requires Trim(line) == k + [':'] + rest && ':' !in k
    ensures LineEntry(line) == if Trim(k) == "" then None else Some((Trim(k), Trim(rest)))
  {
    var t := Trim(line);
    IndexOfAfter(k, ':', rest);
    assert t[..|k|] == k && t[|k| + 1..] == rest;
  }

  /** One leading space is trimmed off a trimmed text. */
  lemma TrimLeadingSpace(v: string)
    requires v != [] && IsTrimmed(v)
    ensures Trim(" " + v) == v
  {
    assert TrimStart(" " + v) == TrimStart(v) by { assert (" " + v)[1..] == v; }
    TrimOfTrimmed(v);
  }

  /** A line with neither separator is a key with the empty value. */
  lemma WordIsKey(line: string)
    requires Trim(line) != "" && ':' !in Trim(line) && '=' !in Trim(line)
    ensures LineEntry(line) == Some((Trim(line), ""))
  {
  }

  /** A line with an empty key is dropped. */
  lemma EmptyKeyIsDropped(line: string, rest: string)
    requires Trim(line) == [':'] + rest
    ensures LineEntry(line) == None
  {
    assert Trim(line) == [] + [':'] + rest;
    LineEntryAtColon(line, [], rest);
  }

  // ---------------------------------------------------------------------------
  // Formatting.

  function PadLeft(s: string, n: nat): (r: string)
    ensures |r| >= n && |r| >= |s|
    decreases n - |s|
  {
    if |s| >= n then s else PadLeft("0" + s, n)
  }

  /** JavaScript's text of the number units / 10^scale, without trailing zeros (the
      exponent notation of very large and very small numbers is not modelled). */
  function DecText(units: int, scale: nat): string
    decreases scale
  {
    if scale == 0 then IntText(units)
    else if units % 10 == 0 then DecText(units / 10, scale - 1)
    else
      var d := PadLeft(DigitsText(if units < 0 then -units else units), scale + 1);
      (if units < 0 then "-" else "") + d[..|d| - scale] + "." + d[|d| - scale..]
  }

  /** `String(v)`, as a template literal prints a value, for the values where it does not
      throw (`TextThrows` below says which do). */
  function JsText(v: Value): string
    decreases v
  {
    match v
    case Null => "null"
    case Bool(b) => if b then "true" else "false"
    case Int(i) => IntText(i)
    case Dec(u, sc) => DecText(u, sc)
    case Str(s) => s
    case List(xs) => Join(seq(|xs|, i requires 0 <= i < |xs| => if xs[i].Null? then "" else JsText(xs[i])), ",")
    case Dict(_) => "[object Object]"
  }

  /** Whether `String(v)` throws a TypeError: an object with its own `toString` key (JSON
      holds no function, so that key is never callable, and the inherited `valueOf` gives
      back the object itself, not a primitive), on its own or as an element of an array,
      which `join` prints element by element. */
  predicate TextThrows(v: Value)
    decreases v
  {
    match v
    case Dict(fs) => HasKey(fs, "toString")
    case List(xs) => exists i :: 0 <= i < |xs| && TextThrows(xs[i])
    case _ => false
  }

  /** Whether writing the `k: v` lines of the fields throws at some value. */
  predicate FieldsThrow(fs: seq<(string, Value)>) {
    exists i :: 0 <= i < |fs| && TextThrows(fs[i].1)
  }

  function LineOf(f: (string, Value)): string { f.0 + ": " + JsText(f.1) }

  function FieldLines(fs: seq<(string, Value)>): (r: seq<string>)
    ensures |r| == |fs| && forall i :: 0 <= i < |fs| ==> r[i] == LineOf(fs[i])
  {
    if fs == [] then [] else [LineOf(fs[0])] + FieldLines(fs[1..])
  }

  /** The `k: v` lines of the fields, joined by newlines. */
  function FormatFields(fs: seq<(string, Value)>): string {
    Join(FieldLines(fs), "\n")
  }

  /** `formatTemplateVarsAsLines(obj)`: "" for anything that is not an object; None when
      printing one of an object's values throws; otherwise an object's text starts with
      its first key. */
  function FormatTemplateVars(obj: Value): (r: Option<string>)
    ensures r.None? <==> IsObject(obj) && FieldsThrow(OwnFields(obj))
    ensures !IsObject(obj) || OwnFields(obj) == [] ==> r == Some("")
    ensures r.Some? && IsObject(obj) && OwnFields(obj) != [] ==> OwnFields(obj)[0].0 <= r.value
  {
    if !IsObject(obj) then Some("")
    else
      var fs := OwnFields(obj);
      if FieldsThrow(fs) then None
      else if fs == [] then Some(FormatFields(fs))
      else
        JoinStartsWith(FieldLines(fs), "\n");
        assert FieldLines(fs)[0] == fs[0].0 + (": " + JsText(fs[0].1));
        Some(FormatFields(fs))
  }

  /** Fields the line format can carry: non-empty trimmed keys with no ':' and no
      newline, distinct, with trimmed single-line values. */
  predicate CleanFields(fs: seq<(string, string)>) {
    KeysUnique(fs) &&
    forall i :: 0 <= i < |fs| ==>
      fs[i].0 != "" && fs[i].0 != ProtoKey && IsTrimmed(fs[i].0) && ':' !in fs[i].0 && '\n' !in fs[i].0 &&
      IsTrimmed(fs[i].1) && '\n' !in fs[i].1
  }

  /** The trimmed text of the line written for a clean field. */
  lemma TrimLine(k: string, v: string)
    requires k != "" && IsTrimmed(k) && IsTrimmed(v)
    ensures Trim(LineOf((k, Str(v)))) == if v == [] then k + ":" else k + ": " + v
  {
    var l := LineOf((k, Str(v)));
    if v == [] {
      assert l == (k + ":") + " ";
      assert TrimStart(l) == l;
      assert TrimEnd(l) == TrimEnd(k + ":");
      assert TrimEnd(k + ":") == k + ":";
    } else {
      assert l[0] == k[0] && l[|l| - 1] == v[|v| - 1];
      TrimOfTrimmed(l);
    }
  }

  /** The line written for a clean field reads back as that field; the key may hold '=',
      since a line splits at its first ':' even when an '=' comes before it. */
  lemma LineEntryOfLine(k: string, v: string)
    requires k != "" && IsTrimmed(k) && ':' !in k && IsTrimmed(v)
    ensures LineEntry(LineOf((k, Str(v)))) == Some((k, v))
  {
    TrimLine(k, v);
    var rest := if v == [] then "" else " " + v;
    assert Trim(LineOf((k, Str(v)))) == k + [':'] + rest;
    LineEntryAtColon(LineOf((k, Str(v))), k, rest);
    TrimOfTrimmed(k);
    if v != [] {
      TrimLeadingSpace(v);
    }
  }

  /** Dropping the last of clean fields leaves clean fields without its key. */
  lemma CleanInit(fs: seq<(string, string)>)
    requires CleanFields(fs) && fs != []
    ensures CleanFields(fs[..|fs| - 1]) && !HasKey(fs[..|fs| - 1], fs[|fs| - 1].0)
  {
  }

  lemma FieldLinesInit(fs: seq<(string, string)>)
    requires fs != []
    ensures var ls := FieldLines(StrFields(fs));
            ls[..|ls| - 1] == FieldLines(StrFields(fs[..|fs| - 1])) &&
            ls[|ls| - 1] == LineOf((fs[|fs| - 1].0, Str(fs[|fs| - 1].1)))
  {
  }

  lemma LinesToFieldsSnoc(ls: seq<string>, k: string, v: string)
    requires ls != [] && LineEntry(ls[|ls| - 1]) == Some((k, v)) && k != ProtoKey
    ensures LinesToFields(ls) == Set(LinesToFields(ls[..|ls| - 1]), k, v)
  {
  }

  /** Reading back the lines written for clean fields gives the same fields. */
  lemma {:induction false} LinesRoundTrip(fs: seq<(string, string)>)
    requires CleanFields(fs)
    ensures LinesToFields(FieldLines(StrFields(fs))) == fs
  {
    if fs != [] {
      var init := fs[..|fs| - 1];
      var last := fs[|fs| - 1];
      CleanInit(fs);
      LinesRoundTrip(init);
      FieldLinesInit(fs);
      LineEntryOfLine(last.0, last.1);
      var ls := FieldLines(StrFields(fs));
      LinesToFieldsSnoc(ls, last.0, last.1);
      SetAppends(init, last.0, last.1);
      assert init + [last] == fs;
    }
  }

  lemma {:induction false} FieldLinesAvoidNewline(fs: seq<(string, string)>)
    requires CleanFields(fs)
    ensures forall i :: 0 <= i < |FieldLines(StrFields(fs))| ==> '\n' !in FieldLines(StrFields(fs))[i]
  {
    var ls := FieldLines(StrFields(fs));
    forall i | 0 <= i < |ls| ensures '\n' !in ls[i] {
      assert ls[i] == fs[i].0 + ": " + fs[i].1;
    }
  }

  /** The editor's text for clean string-valued variables parses back to the same object,
      unless that text happens to be JSON for an object or array. */
  lemma {:induction false} ParseFormatRoundTrip(fs: seq<(string, string)>, decode: string -> Option<Value>)
    requires CleanFields(fs)
    requires !(decode(FormatFields(StrFields(fs))).Some? && IsObject(decode(FormatFields(StrFields(fs))).value))
    ensures ParsedVars(FormatFields(StrFields(fs)), decode) == Dict(StrFields(fs))
  {
    if fs == [] {
      assert FormatFields(StrFields(fs)) == "";
    } else {
      FormattedLinesRoundTrip(fs);
      FormattedTextNotBlank(fs);
    }
  }

  /** Splitting the editor's text at newlines gives back the fields' lines. */
  lemma FormattedLinesRoundTrip(fs: seq<(string, string)>)
    requires CleanFields(fs) && fs != []
    ensures LinesToFields(Split(FormatFields(StrFields(fs)), '\n')) == fs
  {
    FieldLinesAvoidNewline(fs);
    SplitJoin(FieldLines(StrFields(fs)), '\n');
    LinesRoundTrip(fs);
  }

  /** The editor's text for at least one field is not blank: it starts with a key. */
  lemma FormattedTextNotBlank(fs: seq<(string, string)>)
    requires CleanFields(fs) && fs != []
    ensures Trim(FormatFields(StrFields(fs))) != ""
  {
    var text := FormatFields(StrFields(fs));
    var ls := FieldLines(StrFields(fs));
    assert ls[0] == fs[0].0 + ": " + fs[0].1;
    JoinStartsWith(ls, "\n");
    assert text[0] == fs[0].0[0];
  }

  /** A join of several parts starts with the first part. */
  lemma JoinStartsWith(parts: seq<string>, sep: string)
    requires parts != []
    ensures parts[0] <= Join(parts, sep)
  {
  }

  // ---------------------------------------------------------------------------
  // Placeholder autofill.

  /** The names an ordinary object answers to through `Object.prototype`. */
  const PrototypeNames: set<string> := {
    "constructor", "hasOwnProperty", "isPrototypeOf", "propertyIsEnumerable",
    "toLocaleString", "toString", "valueOf", "__proto__",
    "__defineGetter__", "__defineSetter__", "__lookupGetter__", "__lookupSetter__" }

  /** `ph in obj` on a plain object: its own keys and the inherited ones. */
  predicate InObject(fs: seq<(string, Value)>, ph: string) { HasKey(fs, ph) || ph in PrototypeNames }

  /** The merge as written: a placeholder is added only when `ph in merged` is false. */
  function FilledAsWritten(merged: seq<(string, Value)>, placeholders: seq<string>): seq<(string, Value)>
    decreases |placeholders|
  {
    if placeholders == [] then merged
    else
      var ph := placeholders[0];
      FilledAsWritten(if InObject(merged, ph) then merged else merged + [(ph, Str(""))], placeholders[1..])
  }

  /** The merge with an own-key test. */
  function Filled(merged: seq<(string, Value)>, placeholders: seq<string>): seq<(string, Value)>
    decreases |placeholders|
  {
    if placeholders == [] then merged
    else
      var ph := placeholders[0];
      Filled(if HasKey(merged, ph) then merged else merged + [(ph, Str(""))], placeholders[1..])
  }

  /** The `placeholders.forEach` loop with its `changed` flag, as written. */
  method AutofillAsWritten(current: seq<(string, Value)>, placeholders: seq<string>)
    returns (merged: seq<(string, Value)>, changed: bool)
    ensures merged == FilledAsWritten(current, placeholders)
    ensures changed <==> |merged| > |current|
  {
    merged, changed := current, false;
    for i := 0 to |placeholders|
      invariant FilledAsWritten(merged, placeholders[i..]) == FilledAsWritten(current, placeholders)
      invariant |current| <= |merged| && (changed <==> |merged| > |current|)
    {
      var ph := placeholders[i];
      assert placeholders[i..][1..] == placeholders[i + 1..];
      if !InObject(merged, ph) {
        merged := merged + [(ph, Str(""))];
        changed := true;
      }
    }
    assert placeholders[|placeholders|..] == [];
  }

  /** The same loop with `Object.hasOwn(merged, ph)` in place of `ph in merged`. */
  method Autofill(current: seq<(string, Value)>, placeholders: seq<string>)
    returns (merged: seq<(string, Value)>, changed: bool)
    ensures merged == Filled(current, placeholders)
    ensures changed <==> |merged| > |current|
  {
    merged, changed := current, false;
    for i := 0 to |placeholders|
      invariant Filled(merged, placeholders[i..]) == Filled(current, placeholders)
      invariant |current| <= |merged| && (changed <==> |merged| > |current|)
    {
      var ph := placeholders[i];
      assert placeholders[i..][1..] == placeholders[i + 1..];
      if !HasKey(merged, ph) {
        merged := merged + [(ph, Str(""))];
        changed := true;
      }
    }
    assert placeholders[|placeholders|..] == [];
  }

  /** A body using `{{ constructor }}` gets no `constructor` variable from the merge as
      written, while the own-key merge adds it. */
  lemma InheritedNameIsNotFilled()
    ensures FilledAsWritten([], ["constructor"]) == []
    ensures Filled([], ["constructor"]) == [("constructor", Str(""))]
  {
    assert ["constructor"][1..] == [];
  }

  /** The own-key merge keeps every existing key, value and position, appends each missing
      placeholder once with "", and grows exactly when some placeholder was missing. */
  lemma {:induction false} FilledSpec(current: seq<(string, Value)>, placeholders: seq<string>)
    ensures var m := Filled(current, placeholders);
            current <= m &&
            (forall ph :: ph in placeholders ==> HasKey(m, ph)) &&
            (forall j :: |current| <= j < |m| ==>
               m[j].1 == Str("") && m[j].0 in placeholders && !HasKey(current, m[j].0)) &&
            (forall j, k :: |current| <= j < k < |m| ==> m[j].0 != m[k].0) &&
            (|m| > |current| <==> exists ph :: ph in placeholders && !HasKey(current, ph))
    decreases |placeholders|
  {
    if placeholders != [] {
      var ph := placeholders[0];
      var next := if HasKey(current, ph) then current else current + [(ph, Str(""))];
      FilledSpec(next, placeholders[1..]);
      var m := Filled(current, placeholders);
      assert m == Filled(next, placeholders[1..]);
      assert forall x :: x in placeholders <==> x == ph || x in placeholders[1..];
      assert HasKey(next, ph) by {
        if !HasKey(current, ph) { assert next[|current|].0 == ph; }
      }
      HasKeyGrows(current, next);
      HasKeyGrows(next, m);
      forall j | |current| <= j < |m|
        ensures m[j].1 == Str("") && m[j].0 in placeholders && !HasKey(current, m[j].0)
      {
        if j < |next| {
          assert m[j] == next[j] == (ph, Str(""));
        } else {
          NewKeyNotInPrefix(current, next, m[j].0);
        }
      }
      forall j, k | |current| <= j < k < |m| ensures m[j].0 != m[k].0 {
        if j < |next| {
          assert m[j] == next[j] && m[j].0 == ph;
          assert !HasKey(next, m[k].0);
        }
      }
    }
  }

  /** Keys of a prefix are keys of the whole. */
  lemma HasKeyGrows(a: seq<(string, Value)>, b: seq<(string, Value)>)
    requires a <= b
    ensures forall k :: HasKey(a, k) ==> HasKey(b, k)
  {
    forall k | HasKey(a, k) ensures HasKey(b, k) {
      var i :| 0 <= i < |a| && a[i].0 == k;
      assert b[i].0 == k;
    }
  }

  lemma NewKeyNotInPrefix(a: seq<(string, Value)>, b: seq<(string, Value)>, k: string)
    requires a <= b && !HasKey(b, k)
    ensures !HasKey(a, k)
  {
    HasKeyGrows(a, b);
  }

  /** The placeholders that are not inherited names, in order. */
  function NonInherited(phs: seq<string>): (r: seq<string>)
    ensures forall x :: x in r <==> x in phs && x !in PrototypeNames
    ensures |r| <= |phs|
  {
    if phs == [] then []
    else (if phs[0] in PrototypeNames then [] else [phs[0]]) + NonInherited(phs[1..])
  }

  /** The merge as written is the own-key merge of the placeholders that are not inherited
      names: an inherited name always counts as present. */
  lemma {:induction false} FilledAsWrittenSkipsInherited(merged: seq<(string, Value)>, phs: seq<string>)
    ensures FilledAsWritten(merged, phs) == Filled(merged, NonInherited(phs))
    decreases |phs|
  {
    if phs != [] {
      var ph := phs[0];
      var next := if InObject(merged, ph) then merged else merged + [(ph, Str(""))];
      FilledAsWrittenSkipsInherited(next, phs[1..]);
      if ph in PrototypeNames {
        assert NonInherited(phs) == NonInherited(phs[1..]);
        FilledAsWrittenSkipsInherited(merged, phs[1..]);
      } else {
        var rest := NonInherited(phs[1..]);
        assert NonInherited(phs) == [ph] + rest;
        assert ([ph] + rest)[0] == ph && ([ph] + rest)[1..] == rest;
      }
    }
  }

  /** The merge as written keeps every existing key, value and position; afterwards every
      placeholder answers to `in`; it appends, each once and with "", exactly the
      placeholders that were neither own keys nor inherited names, and it grows exactly
      when there was one. */
  lemma FilledAsWrittenSpec(current: seq<(string, Value)>, phs: seq<string>)
    ensures var m := FilledAsWritten(current, phs);
            current <= m &&
            (forall ph :: ph in phs ==> InObject(m, ph)) &&
            (forall j :: |current| <= j < |m| ==>
               m[j].1 == Str("") && m[j].0 in phs && !InObject(current, m[j].0)) &&
            (forall j, k :: |current| <= j < k < |m| ==> m[j].0 != m[k].0) &&
            (|m| > |current| <==> exists ph :: ph in phs && !InObject(current, ph))
  {
    FilledAsWrittenSkipsInherited(current, phs);
    FilledSpec(current, NonInherited(phs));
    var m := FilledAsWritten(current, phs);
    if exists ph :: ph in phs && !InObject(current, ph) {
      var ph :| ph in phs && !InObject(current, ph);
      assert ph in NonInherited(phs) && !HasKey(current, ph);
    }
  }

  // ---------------------------------------------------------------------------
  // The editor's two uses of the merge.

  /** The variables the editor starts from: the node's `template_vars` when it is an
      object, else the JSON its text decodes to when that is an object, else none. */
  function StartingFields(data: Value, decode: string -> Option<Value>): (r: seq<(string, Value)>)
    ensures Get(data, "template_vars").Dict? ==> r == Get(data, "template_vars").fields
    ensures !JsTruthy(Get(data, "template_vars")) ==> r == []
  {
    var tv := JsOr(Get(data, "template_vars"), Dict([]));
    if IsObject(tv) then OwnFields(tv)
    else match decode(JsText(tv))
      case Some(v) => if IsObject(v) then OwnFields(v) else []
      case None => []
  }

  /** The body text the editor reads its placeholders from. */
  function BodyText(data: Value): string { JsText(JsOr(Get(data, "body"), Str(""))) }

  /** The placeholders the merge adds carry "", so the merged fields throw when printed
      exactly when the fields merged into do. */
  lemma FilledAsWrittenThrows(current: seq<(string, Value)>, phs: seq<string>)
    ensures FieldsThrow(FilledAsWritten(current, phs)) <==> FieldsThrow(current)
  {
    FilledAsWrittenSpec(current, phs);
    var m := FilledAsWritten(current, phs);
    if FieldsThrow(m) {
      var i :| 0 <= i < |m| && TextThrows(m[i].1);
      assert i < |current|;
      assert current[i] == m[i];
    }
    if FieldsThrow(current) {
      var i :| 0 <= i < |current| && TextThrows(current[i].1);
      assert m[i] == current[i];
    }
  }

  /** Opening a node whose id differs from the last one shown: the text shown in the
      variables area (the starting variables merged with the body's placeholders as
      written) and the object passed up as `template_vars`, which is that text parsed back.
      None when the editor crashes: `(data.body || "").toString()` throws, or printing a
      value of the starting variables throws outside any `try`. */
  function EditorOpened(data: Value, decode: string -> Option<Value>): (r: Option<(string, Value)>)
    ensures r.None? <==> TextThrows(JsOr(Get(data, "body"), Str(""))) || FieldsThrow(StartingFields(data, decode))
    ensures r.Some? ==> r.value.0 == FormatFields(FilledAsWritten(StartingFields(data, decode), Placeholders(BodyText(data))))
    ensures r.Some? ==> r.value.1 == ParsedVars(r.value.0, decode) && IsObject(r.value.1)
  {
    if TextThrows(JsOr(Get(data, "body"), Str(""))) || FieldsThrow(StartingFields(data, decode)) then None
    else
      var raw := FormatFields(FilledAsWritten(StartingFields(data, decode), Placeholders(BodyText(data))));
      Some((raw, ParsedVars(raw, decode)))
  }

  /** Editing the body: when some placeholder is missing from the parsed variables, the
      new variables text and the merged object; otherwise no update. Printing a value that
      throws is caught by the handler's `try`, so it gives no update either. */
  method BodyEdited(body: string, templateRaw: string, decode: string -> Option<Value>)
    returns (update: Option<(string, seq<(string, Value)>)>)
    ensures var current := OwnFields(ParsedVars(templateRaw, decode));
            (update.None? <==> (forall ph :: ph in Placeholders(body) ==> InObject(current, ph)) ||
                               FieldsThrow(current)) &&
            (update.Some? ==> update.value.1 == FilledAsWritten(current, Placeholders(body)) &&
                              update.value.0 == FormatFields(update.value.1))
  {
    var placeholders := ExtractPlaceholders(body);
    if |placeholders| == 0 {
      return None;
    }
    var currentParsed := ParseTemplateVars(templateRaw, decode);
    var merged, changed := AutofillAsWritten(OwnFields(currentParsed), placeholders);
    FilledAsWrittenSpec(OwnFields(currentParsed), placeholders);
    if !changed {
      return None;
    }
    FilledAsWrittenThrows(OwnFields(currentParsed), placeholders);
    if FieldsThrow(merged) {
      return None;
    }
    update := Some((FormatFields(merged), merged));
  }

  /** Appending a placeholder with the empty value to clean fields keeps them clean. */
  lemma AddBlankKeepsClean(fs: seq<(string, string)>, ph: string)
    requires CleanFields(fs) && IsName(ph) && ph != ProtoKey && !HasKey(fs, ph)
    ensures CleanFields(fs + [(ph, "")])
    ensures StrFields(fs) + [(ph, Str(""))] == StrFields(fs + [(ph, "")])
  {
    assert ':' !in ph && '\n' !in ph by {
      forall i | 0 <= i < |ph| ensures ph[i] != ':' && ph[i] != '\n' { assert IsNameChar(ph[i]); }
    }
    assert IsTrimmed(ph) by { assert IsNameChar(ph[0]) && IsNameChar(ph[|ph| - 1]); }
    var r := fs + [(ph, "")];
    forall i, j | 0 <= i < j < |r| ensures r[i].0 != r[j].0 {
      if j == |fs| {
        assert r[i] == fs[i];
      }
    }
  }

  lemma StrFieldsHasKey(fs: seq<(string, string)>, k: string)
    ensures HasKey(StrFields(fs), k) <==> HasKey(fs, k)
  {
    if HasKey(fs, k) { var i :| 0 <= i < |fs| && fs[i].0 == k; assert StrFields(fs)[i].0 == k; }
    if HasKey(StrFields(fs), k) { var i :| 0 <= i < |fs| && StrFields(fs)[i].0 == k; assert fs[i].0 == k; }
  }

  /** Filling clean string fields with placeholder names gives clean string fields. */
  lemma {:induction false} FilledClean(fs: seq<(string, string)>, placeholders: seq<string>)
    requires CleanFields(fs)
    requires forall i :: 0 <= i < |placeholders| ==> IsName(placeholders[i]) && placeholders[i] != ProtoKey
    ensures exists fs' :: CleanFields(fs') && Filled(StrFields(fs), placeholders) == StrFields(fs')
    decreases |placeholders|
  {
    if placeholders == [] {
      assert CleanFields(fs) && Filled(StrFields(fs), placeholders) == StrFields(fs);
    } else {
      var ph := placeholders[0];
      StrFieldsHasKey(fs, ph);
      var fs' := if HasKey(fs, ph) then fs else fs + [(ph, "")];
      if !HasKey(fs, ph) {
        assert IsName(placeholders[0]) && placeholders[0] != ProtoKey;
        AddBlankKeepsClean(fs, ph);
      }
      assert Filled(StrFields(fs), placeholders) == Filled(StrFields(fs'), placeholders[1..]);
      assert forall i :: 0 <= i < |placeholders[1..]| ==> placeholders[1..][i] == placeholders[i + 1];
      FilledClean(fs', placeholders[1..]);
    }
  }

  /** String values never throw when printed. */
  lemma StrFieldsNeverThrow(fs: seq<(string, string)>)
    ensures !FieldsThrow(StrFields(fs))
  {
    forall i | 0 <= i < |StrFields(fs)| ensures !TextThrows(StrFields(fs)[i].1) {
      assert StrFields(fs)[i].1 == Str(fs[i].1);
    }
  }

  /** Opening a node whose variables are clean strings passes up exactly the variables
      shown: the starting ones, then each placeholder that is neither one of them nor an
      inherited name, with "" (unless the text happens to be JSON for an object). */
  lemma {:induction false} EditorOpenedPassesShownVars(data: Value, decode: string -> Option<Value>, fs: seq<(string, string)>)
    requires StartingFields(data, decode) == StrFields(fs) && CleanFields(fs)
    requires var raw := FormatFields(FilledAsWritten(StrFields(fs), Placeholders(BodyText(data))));
             !(decode(raw).Some? && IsObject(decode(raw).value))
    ensures EditorOpened(data, decode).Some? <==> !TextThrows(JsOr(Get(data, "body"), Str("")))
    ensures EditorOpened(data, decode).Some? ==>
            EditorOpened(data, decode).value.1 == Dict(Filled(StrFields(fs), NonInherited(Placeholders(BodyText(data)))))
    ensures EditorOpened(data, decode).Some? ==>
            EditorOpened(data, decode).value.1 == Dict(FilledAsWritten(StrFields(fs), Placeholders(BodyText(data))))
  {
    StrFieldsNeverThrow(fs);
    if !TextThrows(JsOr(Get(data, "body"), Str(""))) {
      var raw := FormatFields(FilledAsWritten(StrFields(fs), Placeholders(BodyText(data))));
      assert EditorOpened(data, decode) == Some((raw, ParsedVars(raw, decode)));
      ShownVarsParseBack(data, decode, fs);
    }
  }

  /** The parsing half of the lemma above, on the text shown. */
  lemma ShownVarsParseBack(data: Value, decode: string -> Option<Value>, fs: seq<(string, string)>)
    requires CleanFields(fs)
    requires var raw := FormatFields(FilledAsWritten(StrFields(fs), Placeholders(BodyText(data))));
             !(decode(raw).Some? && IsObject(decode(raw).value))
    ensures var raw := FormatFields(FilledAsWritten(StrFields(fs), Placeholders(BodyText(data))));
            ParsedVars(raw, decode) == Dict(Filled(StrFields(fs), NonInherited(Placeholders(BodyText(data))))) &&
            ParsedVars(raw, decode) == Dict(FilledAsWritten(StrFields(fs), Placeholders(BodyText(data))))
  {
    var phs := NonInherited(Placeholders(BodyText(data)));
    FilledAsWrittenSkipsInherited(StrFields(fs), Placeholders(BodyText(data)));
    assert forall i :: 0 <= i < |phs| ==> IsName(phs[i]) && phs[i] != ProtoKey by {
      forall i | 0 <= i < |phs| ensures IsName(phs[i]) && phs[i] != ProtoKey { assert phs[i] in phs; }
    }
    FilledClean(fs, phs);
    var fs' :| CleanFields(fs') && Filled(StrFields(fs), phs) == StrFields(fs');
    ParseFormatRoundTrip(fs', decode);
  }
}
