/**
 * Properties of content resolution for one send.
 */
module SendMailProperties {
  import opened Values
  import opened SendMail

  // ---------------------------------------------------------------------------
  // `{**top_vars, **node_vars}`: the node wins, the plan's keys keep their places.

  /** `d[k] = v` never moves an existing key. */
  lemma {:induction false} SetKeepsPositions<K, V>(fs: seq<(K, V)>, k: K, v: V, i: nat)
    requires i < |fs|
    ensures i < |Set(fs, k, v)| && Set(fs, k, v)[i].0 == fs[i].0
  {
    if fs[0].0 != k && i > 0 {
      SetKeepsPositions(fs[1..], k, v, i - 1);
    }
  }

  lemma {:induction false} SetAllKeepsPositions(acc: seq<(string, Value)>, fs: seq<(string, Value)>, i: nat)
    requires i < |acc|
    ensures i < |SetAll(acc, fs)| && SetAll(acc, fs)[i].0 == acc[i].0
    decreases |fs|
  {
    if fs != [] {
      SetKeepsPositions(acc, fs[0].0, fs[0].1, i);
      SetAllKeepsPositions(Set(acc, fs[0].0, fs[0].1), fs[1..], i);
    }
  }

  lemma {:induction false} SetAllFind(acc: seq<(string, Value)>, fs: seq<(string, Value)>, k: string)
    requires KeysUnique(fs)
    ensures Find(SetAll(acc, fs), k) == if HasKey(fs, k) then Find(fs, k) else Find(acc, k)
    ensures KeysUnique(acc) ==> KeysUnique(SetAll(acc, fs))
    decreases |fs|
  {
    if fs != [] {
      var acc' := Set(acc, fs[0].0, fs[0].1);
      assert KeysUnique(fs[1..]);
      SetAllFind(acc', fs[1..], k);
      SetFind(acc, fs[0].0, fs[0].1, k);
      SetKeys(acc, fs[0].0, fs[0].1);
      if fs[0].0 == k {
        assert !HasKey(fs[1..], k);
      } else {
        HasKeyTail(fs, k);
      }
    }
  }

  lemma {:induction false} SetAllCopies(acc: seq<(string, Value)>, fs: seq<(string, Value)>)
    requires KeysUnique(acc + fs)
    ensures SetAll(acc, fs) == acc + fs
    decreases |fs|
  {
    if fs != [] {
      forall i | 0 <= i < |acc| ensures acc[i].0 != fs[0].0 {
        assert (acc + fs)[i] == acc[i] && (acc + fs)[|acc|] == fs[0];
      }
      SetAppends(acc, fs[0].0, fs[0].1);
      assert (acc + [fs[0]]) + fs[1..] == acc + fs;
      SetAllCopies(acc + [fs[0]], fs[1..]);
    }
  }

  /** The merged variables: a key set by the node takes the node's value, every other key
      keeps the plan's; the plan's keys come first in their own order, and no key repeats. */
  lemma MergeNodeWins(top: seq<(string, Value)>, node: seq<(string, Value)>, k: string)
    requires KeysUnique(top) && KeysUnique(node)
    ensures Find(MergeVars(top, node), k) == if HasKey(node, k) then Find(node, k) else Find(top, k)
    ensures KeysUnique(MergeVars(top, node))
    ensures |MergeVars(top, node)| >= |top| && forall i :: 0 <= i < |top| ==> MergeVars(top, node)[i].0 == top[i].0
  {
    assert [] + top == top;
    SetAllCopies([], top);
    assert MergeVars(top, node) == SetAll(top, node);
    SetAllFind(top, node, k);
    if |top| > 0 { SetAllKeepsPositions(top, node, |top| - 1); }
    forall i | 0 <= i < |top| ensures i < |MergeVars(top, node)| && MergeVars(top, node)[i].0 == top[i].0 {
      SetAllKeepsPositions(top, node, i);
    }
  }

  // ---------------------------------------------------------------------------
  // Recipient precedence.

  /** The recipient precedence, fact by fact: a truthy node `recipient_email` wins whatever
      `recipient` holds; a falsy one defers to a truthy `recipient`; the plan's field is used
      when the node offers neither or its data is falsy; truthy data that is not a dict
      raises. The recipient found is truthy exactly when one of the three candidates is. */
  lemma RecipientPrecedence(nodeData: Value, planRecipient: Value)
    ensures nodeData.Dict? && Truthy(Get(nodeData, "recipient_email")) ==>
            Recipient(nodeData, planRecipient) == Some(Get(nodeData, "recipient_email"))
    ensures nodeData.Dict? && !Truthy(Get(nodeData, "recipient_email")) && Truthy(Get(nodeData, "recipient")) ==>
            Recipient(nodeData, planRecipient) == Some(Get(nodeData, "recipient"))
    ensures nodeData.Dict? && !Truthy(Get(nodeData, "recipient_email")) && !Truthy(Get(nodeData, "recipient")) ==>
            Recipient(nodeData, planRecipient) == Some(planRecipient)
    ensures !Truthy(nodeData) ==> Recipient(nodeData, planRecipient) == Some(planRecipient)
    ensures Truthy(nodeData) && !nodeData.Dict? ==> Recipient(nodeData, planRecipient).None?
    ensures Recipient(nodeData, planRecipient).Some? ==>
            (Truthy(Recipient(nodeData, planRecipient).value) <==>
             Truthy(planRecipient) ||
             (nodeData.Dict? && (Truthy(Get(nodeData, "recipient_email")) || Truthy(Get(nodeData, "recipient")))))
  {
  }

  // ---------------------------------------------------------------------------
  // Subject, body and the message handed to the transport.

  /** A node's subject and body override the plan's only when the node data and the field are
      truthy; otherwise the plan's subject or content is used, and "" when that is falsy too. */
  lemma NodeOverridesOnlyWhenTruthy(nodeData: Value, mp: Plan)
    ensures Truthy(nodeData) && Truthy(Get(nodeData, "subject")) ==> RawSubject(nodeData, mp) == Get(nodeData, "subject")
    ensures !(Truthy(nodeData) && Truthy(Get(nodeData, "subject"))) ==>
            RawSubject(nodeData, mp) == (if Truthy(mp.subject) then mp.subject else Str(""))
    ensures Truthy(nodeData) && Truthy(Get(nodeData, "body")) ==> RawBody(nodeData, mp) == Get(nodeData, "body")
    ensures !(Truthy(nodeData) && Truthy(Get(nodeData, "body"))) ==>
            RawBody(nodeData, mp) == (if Truthy(mp.content) then mp.content else Str(""))
  {
  }

  /** What a sent message carries: the addresses split from the resolved (truthy) recipient,
      the raw subject and body of the resolved node, and the plan's variables overridden by
      the node's. */
  lemma SentMessageContents(disableEnv: Option<string>, plan: Option<Plan>, nodeId: Value,
                            decode: string -> Option<Value>, delivery: Delivery, retries: nat)
    ensures var o := SendMailTask(disableEnv, plan, nodeId, decode, delivery, retries);
            o.Sent? ==>
              plan.Some? &&
              var mp := plan.value;
              var nodeData := NodeData(ResolveNode(mp.flow, nodeId, decode));
              var rcp := Recipient(nodeData, mp.recipientEmail);
              var top := TopVars(mp.templateVars, decode);
              rcp.Some? && Truthy(rcp.value) && top.Some? &&
              o.message.to == Recipients(rcp.value) &&
              o.message.subject == RawSubject(nodeData, mp) &&
              o.message.body == RawBody(nodeData, mp) &&
              o.message.vars == MergeVars(top.value, NodeVars(nodeData))
  {
  }

  // ---------------------------------------------------------------------------
  // Address splitting.

  lemma {:induction false} KeepTrimmedOfClean(parts: seq<string>)
    requires forall i :: 0 <= i < |parts| ==> parts[i] != "" && IsTrimmed(parts[i])
    ensures KeepTrimmed(parts) == parts
  {
    if parts != [] {
      TrimOfTrimmed(parts[0]);
      KeepTrimmedOfClean(parts[1..]);
    }
  }

  /** Joining clean addresses with commas and splitting again gives the same addresses. */
  lemma {:induction false} SplitAddressesRoundTrip(addrs: seq<string>)
    requires |addrs| >= 1
    requires forall i :: 0 <= i < |addrs| ==> addrs[i] != "" && IsTrimmed(addrs[i]) && ',' !in addrs[i] && '\n' !in addrs[i]
    ensures SplitAddresses(Join(addrs, ",")) == addrs
  {
    var j := Join(addrs, ",");
    JoinAvoids(addrs, ",", '\n');
    assert NewlinesToCommas(j) == j;
    SplitJoin(addrs, ',');
    KeepTrimmedOfClean(addrs);
  }

  /** A recipient made only of separators and spaces splits to no address at all. */
  lemma SeparatorsOnlySplitToNothing()
    ensures SplitAddresses(" ,\n ") == []
  {
    var s := NewlinesToCommas(" ,\n ");
    assert s == " ,, ";
    assert IndexOf(s, ',') == Some(1);
    assert s[..1] == " " && s[2..] == ", ";
    assert IndexOf(", ", ',') == Some(0);
    assert ", "[..0] == "" && ", "[1..] == " ";
    assert IndexOf(" ", ',') == None;
    assert Split(s, ',') == [" ", "", " "];
    assert Trim(" ") == "" && Trim("") == "";
  }

  // ---------------------------------------------------------------------------
  // Retry backoff.

  /** The countdown doubles from 60 seconds and is capped at one hour; it never decreases. */
  lemma {:induction false} CountdownBounds(r: nat, r': nat)
    ensures 60 <= Countdown(r) <= 3600
    ensures r <= 5 ==> Countdown(r) == 60 * Pow2(r)
    ensures r >= 6 ==> Countdown(r) == 3600
    ensures r <= r' ==> Countdown(r) <= Countdown(r')
  {
    Pow2Monotone(r, r');
    Pow2Monotone(6, r);
    Pow2Monotone(r, 5);
    assert Pow2(5) == 32 && Pow2(6) == 64;
  }

  lemma {:induction false} Pow2Monotone(a: nat, b: nat)
    ensures a <= b ==> Pow2(a) <= Pow2(b)
    decreases b
  {
    if a < b { Pow2Monotone(a, b - 1); }
  }

  // ---------------------------------------------------------------------------
  // The outcome.

  /** The outcomes of `send_mail_task`: the debug flag skips everything; a falsy recipient is a terminal
      failure that sets the plan to "failed" and does not retry, however the other inputs
      look; a non-empty recipient string that splits to nothing still goes to the transport;
      a transport report is "sent" with the plan status "sent" exactly when the count is
      non-zero; a transport error retries with the backoff countdown until five retries. */
  lemma SendOutcomes(disableEnv: Option<string>, plan: Option<Plan>, nodeId: Value,
                     decode: string -> Option<Value>, delivery: Delivery, retries: nat)
    ensures var o := SendMailTask(disableEnv, plan, nodeId, decode, delivery, retries);
            (FlagOn(disableEnv) <==> o == Skipped) &&
            (o == NotFound <==> !FlagOn(disableEnv) && plan.None?) &&
            (o == NoRecipient ==> PlanStatusAfter(o) == Some("failed")) &&
            (o.Sent? ==> delivery == Delivered(o.count) &&
                         (PlanStatusAfter(o) == Some("sent") <==> o.count != 0)) &&
            (o.Retry? ==> delivery == TransportFailed && retries < MaxRetries &&
                          o.countdown == 60 * Pow2(retries) && o.countdown <= 960) &&
            (o == MaxRetriesExceeded ==> delivery == TransportFailed && retries >= MaxRetries)
    ensures plan.Some? && !FlagOn(disableEnv) ==>
            var mp := plan.value;
            var nodeData := NodeData(ResolveNode(mp.flow, nodeId, decode));
            var o := SendMailTask(disableEnv, plan, nodeId, decode, delivery, retries);
            var rcp := Recipient(nodeData, mp.recipientEmail);
            (o == Raised <==> rcp.None? || TopVars(mp.templateVars, decode).None?) &&
            (o == NoRecipient <==> rcp.Some? && !Truthy(rcp.value) && TopVars(mp.templateVars, decode).Some?) &&
            ((o.Sent? || o.Retry? || o == MaxRetriesExceeded) ==> rcp.Some? && Truthy(rcp.value))
  {
    if retries < MaxRetries { CountdownBounds(retries, 4); CountdownBounds(4, 4); }
  }

  /** A recipient string that splits to no address is not checked again: the send still
      goes to the transport, addressed to nobody, and never ends as a missing recipient. */
  lemma EmptyAddressListIsNotRechecked(disableEnv: Option<string>, mp: Plan, nodeId: Value,
                                       decode: string -> Option<Value>, delivery: Delivery, retries: nat, s: string)
    requires !FlagOn(disableEnv) && TopVars(mp.templateVars, decode).Some?
    requires Recipient(NodeData(ResolveNode(mp.flow, nodeId, decode)), mp.recipientEmail) == Some(Str(s))
    requires s != "" && SplitAddresses(s) == []
    ensures var o := SendMailTask(disableEnv, Some(mp), nodeId, decode, delivery, retries);
            o != NoRecipient && (o.Sent? || o.Retry? || o == MaxRetriesExceeded) &&
            (o.Sent? ==> o.message.to == [])
  {
    var nodeData := NodeData(ResolveNode(mp.flow, nodeId, decode));
    var top := TopVars(mp.templateVars, decode).value;
    assert Truthy(Str(s)) && Recipients(Str(s)) == [];
    var msg := Message([], RawSubject(nodeData, mp), RawBody(nodeData, mp), MergeVars(top, NodeVars(nodeData)));
    assert SendMailTask(disableEnv, Some(mp), nodeId, decode, delivery, retries) ==
           match delivery
           case Delivered(count) => Sent(msg, count)
           case TransportFailed => if retries < MaxRetries then Retry(Countdown(retries)) else MaxRetriesExceeded;
  }

  // ---------------------------------------------------------------------------
  // Fallback rendering.

  /** Text without a `{` is left untouched by the fallback rewrite. */
  lemma {:induction false} ReplaceAllWithoutPattern(s: string, pat: string, rep: string)
    requires pat != [] && pat[0] !in s
    ensures ReplaceAll(s, pat, rep) == s
    decreases |s|
  {
    if |s| >= |pat| {
      ReplaceAllWithoutPattern(s[1..], pat, rep);
    }
  }

  lemma {:induction false} RenderFallbackWithoutBraces(text: string, vars: seq<(string, string)>)
    requires '{' !in text
    requires forall i :: 0 <= i < |vars| ==> '{' !in vars[i].1
    ensures RenderFallback(text, vars) == text
    decreases |vars|
  {
    if vars != [] {
      var (k, v) := vars[0];
      ReplaceAllWithoutPattern(text, "{{ " + k + " }}", v);
      ReplaceAllWithoutPattern(text, "{{" + k + "}}", v);
      RenderFallbackWithoutBraces(text, vars[1..]);
    }
  }

  /** Replacing skips a prefix that lacks the pattern's first character. */
  lemma {:induction false} ReplaceAllSkips(c: string, s: string, pat: string, rep: string)
    requires pat != [] && pat[0] !in c
    ensures ReplaceAll(c + s, pat, rep) == c + ReplaceAll(s, pat, rep)
    decreases |c|
  {
    var x := c + s;
    if c == [] {
      assert x == s;
    } else if |x| >= |pat| {
      assert x[0] == c[0] && x[0] != pat[0];
      assert !(pat <= x);
      assert x[1..] == c[1..] + s;
      ReplaceAllSkips(c[1..], s, pat, rep);
      assert ReplaceAll(x, pat, rep) == [c[0]] + (c[1..] + ReplaceAll(s, pat, rep));
      assert [c[0]] + c[1..] == c;
    } else {
      assert ReplaceAll(s, pat, rep) == s;
    }
  }

  /** A text made of brace-free chunks separated by a pattern that starts with `{` has every
      separator replaced, and nothing else changed. */
  lemma {:induction false} ReplaceAllJoin(chunks: seq<string>, pat: string, rep: string)
    requires pat != [] && pat[0] == '{'
    requires forall i :: 0 <= i < |chunks| ==> '{' !in chunks[i]
    ensures ReplaceAll(Join(chunks, pat), pat, rep) == Join(chunks, rep)
  {
    if |chunks| == 1 {
      ReplaceAllWithoutPattern(chunks[0], pat, rep);
    } else if |chunks| > 1 {
      var rest := Join(chunks[1..], pat);
      assert Join(chunks, pat) == chunks[0] + (pat + rest);
      ReplaceAllSkips(chunks[0], pat + rest, pat, rep);
      assert pat <= pat + rest && (pat + rest)[|pat|..] == rest;
      ReplaceAllJoin(chunks[1..], pat, rep);
      assert Join(chunks, rep) == chunks[0] + (rep + Join(chunks[1..], rep));
    }
  }

  /** The fallback for one variable: in a text whose only braces are the spaced tokens of k,
      every token becomes the value (when the value has no brace of its own). */
  lemma RenderFallbackReplacesEveryToken(chunks: seq<string>, k: string, v: string)
    requires forall i :: 0 <= i < |chunks| ==> '{' !in chunks[i]
    requires '{' !in v
    ensures RenderFallback(Join(chunks, "{{ " + k + " }}"), [(k, v)]) == Join(chunks, v)
  {
    ReplaceAllJoin(chunks, "{{ " + k + " }}", v);
    JoinAvoids(chunks, v, '{');
    ReplaceAllWithoutPattern(Join(chunks, v), "{{" + k + "}}", v);
  }

  /** Both spellings of a token are replaced. */
  lemma RenderFallbackExample()
    ensures RenderFallback("{{ x }}+{{x}}", [("x", "1")]) == "1+1"
  {
    assert "{{ " + "x" + " }}" == "{{ x }}" && "{{" + "x" + "}}" == "{{x}}";
    var t := "{{ x }}+{{x}}";
    assert "{{ x }}" <= t && t[7..] == "+{{x}}";
    assert !("{{ x }}" <= "+{{x}}") && "+{{x}}"[1..] == "{{x}}";
    assert ReplaceAll("{{x}}", "{{ x }}", "1") == "{{x}}";
    assert ReplaceAll(t, "{{ x }}", "1") == "1+{{x}}";
    var u := "1+{{x}}";
    assert !("{{x}}" <= u) && u[1..] == "+{{x}}";
    assert !("{{x}}" <= "+{{x}}");
    assert "{{x}}" <= "{{x}}" && "{{x}}"[5..] == "";
    assert ReplaceAll(u, "{{x}}", "1") == "1+1";
  }
}
