/**
 * The plan list page: the recipient column, the status a plan shows after a manual
 * trigger, the per-plan loading guard and the delete filter.
 */
module PlanList {
  import opened Values
  import ListOps
  import PlanViews
  import Builder

  // ---------------------------------------------------------------------------
  // The recipient column.

  /** The list page's test: an email node, or data with a truthy recipient_email. */
  predicate ListQualifies(n: Value) {
    Get(n, "type") == Str("email") || JsTruthy(Get(Builder.DataOf(n), "recipient_email"))
  }

  /** Where the loop over the nodes stops: at the first qualifying node, at the end
      (Missing), or at a null node read first (Throws). */
  function FirstQualifying(nodes: seq<Value>): (r: Builder.Found)
    ensures r.At? ==> r.i < |nodes| && !nodes[r.i].Null? && ListQualifies(nodes[r.i]) &&
                      forall j :: 0 <= j < r.i ==> !nodes[j].Null? && !ListQualifies(nodes[j])
    ensures r.Missing? <==> forall j :: 0 <= j < |nodes| ==> !nodes[j].Null? && !ListQualifies(nodes[j])
    ensures r.Throws? ==> exists k :: 0 <= k < |nodes| && nodes[k].Null? &&
                                      forall j :: 0 <= j < k ==> !nodes[j].Null? && !ListQualifies(nodes[j])
  {
    if nodes == [] then Builder.Missing
    else if nodes[0].Null? then Builder.Throws
    else if ListQualifies(nodes[0]) then Builder.At(0)
    else
      var rest := FirstQualifying(nodes[1..]);
      assert rest.Throws? ==> exists k :: 0 <= k < |nodes| && nodes[k].Null? &&
                                          forall j :: 0 <= j < k ==> !nodes[j].Null? && !ListQualifies(nodes[j]) by {
        if rest.Throws? {
          var k :| 0 <= k < |nodes[1..]| && nodes[1..][k].Null? &&
                   forall j :: 0 <= j < k ==> !nodes[1..][j].Null? && !ListQualifies(nodes[1..][j]);
          assert nodes[k + 1].Null?;
          assert forall j :: 0 <= j < k + 1 ==> !nodes[j].Null? && !ListQualifies(nodes[j]) by {
            forall j | 0 <= j < k + 1 ensures !nodes[j].Null? && !ListQualifies(nodes[j]) {
              if j > 0 { assert nodes[j] == nodes[1..][j - 1]; }
            }
          }
        }
      }
      match rest
      case At(i) => Builder.At(i + 1)
      case Missing => Builder.Missing
      case Throws => Builder.Throws
  }

  /** What `for (const node of nodes)` walks: an array's items or a string's characters;
      None when the value is not iterable (an object, a number or `true` throws). */
  function Walked(nodes: Value): (r: Option<seq<Value>>)
    ensures nodes.List? ==> r == Some(nodes.items)
    ensures r.Some? ==> nodes.List? || nodes.Str?
  {
    match nodes
    case List(items) => Some(items)
    case Str(s) => Some(seq(|s|, i requires 0 <= i < |s| => Str([s[i]])))
    case _ => None
  }

  /** The nodes of the plan's flow, `(plan.flow || {}).nodes || []`. */
  function FlowNodes(plan: Value): Value {
    JsOr(Get(JsOr(Get(plan, "flow"), Dict([])), "nodes"), List([]))
  }

  /** `plan.recipient_email || ''`, shown when the loop finds nothing or throws. */
  function Fallback(plan: Value): Value { JsOr(Get(plan, "recipient_email"), Str("")) }

  /** `getRecipientFromFlow(plan)`: the first qualifying node's `recipient_email`, else the
      plan's own field. A null plan makes `plan.flow` throw inside the `try`, and then the
      fallback `plan.recipient_email`, which is outside it, throws again: the plan must not
      be null. */
  function RecipientFromFlow(plan: Value): (r: Value)
    requires !plan.Null?
    ensures r == Fallback(plan) ||
            (Walked(FlowNodes(plan)).Some? &&
             exists i :: 0 <= i < |Walked(FlowNodes(plan)).value| &&
                         ListQualifies(Walked(FlowNodes(plan)).value[i]) &&
                         r == Get(Builder.DataOf(Walked(FlowNodes(plan)).value[i]), "recipient_email"))
  {
    match Walked(FlowNodes(plan))
    case None => Fallback(plan)
    case Some(ns) =>
      match FirstQualifying(ns)
      case At(i) => Get(Builder.DataOf(ns[i]), "recipient_email")
      case _ => Fallback(plan)
  }

  /** The column shows the first qualifying node's `recipient_email`, whatever it holds. */
  lemma RecipientIsFirstQualifying(plan: Value, i: nat)
    requires !plan.Null? && FlowNodes(plan).List?
    requires var ns := FlowNodes(plan).items;
             i < |ns| && !ns[i].Null? && ListQualifies(ns[i]) &&
             forall j :: 0 <= j < i ==> !ns[j].Null? && !ListQualifies(ns[j])
    ensures RecipientFromFlow(plan) == Get(Builder.DataOf(FlowNodes(plan).items[i]), "recipient_email")
  {
    var ns := FlowNodes(plan).items;
    var f := FirstQualifying(ns);
    assert f == Builder.At(i);
  }

  /** Without a qualifying node before the first null one, the column shows the plan's
      own address or "". */
  lemma NoQualifyingShowsFallback(plan: Value, k: nat)
    requires !plan.Null? && FlowNodes(plan).List?
    requires var ns := FlowNodes(plan).items;
             k <= |ns| && (k < |ns| ==> ns[k].Null?) &&
             forall j :: 0 <= j < k ==> !ns[j].Null? && !ListQualifies(ns[j])
    ensures RecipientFromFlow(plan) == Fallback(plan)
  {
  }

  /** `nodes` that are not an array show the fallback: a non-iterable value throws inside
      the `try`, and a string is walked character by character, and no character qualifies. */
  lemma NonIterableShowsFallback(plan: Value)
    requires !plan.Null? && !FlowNodes(plan).List?
    ensures RecipientFromFlow(plan) == Fallback(plan)
  {
    if FlowNodes(plan).Str? {
      var ns := Walked(FlowNodes(plan)).value;
      forall j | 0 <= j < |ns| ensures !ns[j].Null? && !ListQualifies(ns[j]) {
        assert ns[j].Str?;
      }
      assert FirstQualifying(ns).Missing?;
    }
  }

  /** The list and the builder differ: an email node without an address stops the list's
      loop, which shows nothing, while the builder goes on to the next node's address. */
  lemma ListAndBuilderDiffer(plan: Value, e: Value, n: Value, address: string)
    requires !plan.Null? && FlowNodes(plan) == List([e, n])
    requires e.Dict? && Get(e, "type") == Str("email") && Get(e, "data") == Dict([])
    requires n.Dict? && Get(Get(n, "data"), "recipient_email") == Str(address) && address != ""
    ensures RecipientFromFlow(plan) == Null
    ensures Builder.RecipientFromNodes([e, n]) == Str(address)
  {
    RecipientIsFirstQualifying(plan, 0);
    assert !Builder.Yields(e);
    assert Get(n, "data").Dict?;
    assert Builder.Yields(n);
    Builder.RecipientOfSecond(e, n);
  }

  /** A null node ahead of every qualifying one hides them all from the list, which falls
      back to the plan's address; the builder skips the null node. */
  lemma NullNodeHidesLaterNodes(plan: Value, rest: seq<Value>)
    requires !plan.Null? && FlowNodes(plan) == List([Null] + rest)
    ensures RecipientFromFlow(plan) == Fallback(plan)
    ensures Builder.RecipientFromNodes([Null] + rest) == Builder.RecipientFromNodes(rest)
  {
    NoQualifyingShowsFallback(plan, 0);
    assert ([Null] + rest)[1..] == rest;
  }

  // ---------------------------------------------------------------------------
  // The status after a manual trigger.

  /** The status a triggered plan takes from a settled response: 200 is "sent", 202 is
      read from the lower-cased message, any other code keeps the current status. */
  function StatusAfter(current: Value, code: int, message: string): (s: Value)
    ensures code == 200 ==> s == Str("sent")
    ensures code == 202 ==> s == Str("sent") || s == Str("scheduled")
    ensures code != 200 && code != 202 ==> s == current
  {
    if code == 200 then Str("sent")
    else if code == 202 then
      var m := Lower(message);
      if Contains(m, "flow enqueued") || Contains(m, "honor") || Contains(m, "scheduled") then Str("scheduled")
      else if Contains(m, "mail send enqueued") || Contains(m, "mail send") then Str("sent")
      else Str("scheduled")
    else current
  }

  /** A text containing a needle contains every prefix of it. */
  lemma {:induction false} ContainsPrefix(hay: string, a: string, b: string)
    requires Contains(hay, a + b)
    ensures Contains(hay, a)
    decreases |hay|
  {
    if !(a + b <= hay) {
      ContainsPrefix(hay[1..], a, b);
    } else {
      assert a <= hay by { assert (a + b)[..|a|] == a; }
    }
  }

  /** A 202 response means "sent" exactly when its lower-cased message names a mail send and
      none of "flow enqueued", "honor" or "scheduled"; the "mail send enqueued" test adds
      nothing to the "mail send" one. */
  lemma AcceptedStatus(current: Value, message: string)
    ensures var m := Lower(message);
            StatusAfter(current, 202, message) == Str("sent") <==>
            !(Contains(m, "flow enqueued") || Contains(m, "honor") || Contains(m, "scheduled")) && Contains(m, "mail send")
  {
    var m := Lower(message);
    assert "mail send enqueued" == "mail send" + " enqueued";
    if Contains(m, "mail send enqueued") {
      ContainsPrefix(m, "mail send", " enqueued");
    }
  }

  /** `{ ...p, status }`. */
  function WithStatus(p: Value, status: Value): Value { Dict(Set(OwnFields(p), "status", status)) }

  /** The new plan object holds the status and every other field of the old one. */
  lemma WithStatusFields(p: Value, status: Value, k: string)
    requires p.Dict?
    ensures Get(WithStatus(p, status), "status") == status
    ensures k != "status" ==> Get(WithStatus(p, status), k) == Get(p, k)
  {
    SetFind(p.fields, "status", status, "status");
    SetFind(p.fields, "status", status, k);
  }

  /** `prev.map(...)` after a settled trigger request with the given status code and message. */
  function MapStatus(plans: seq<Value>, planId: Value, code: int, message: string): (r: seq<Value>)
    ensures |r| == |plans|
    ensures forall i :: 0 <= i < |plans| && Get(plans[i], "id") != planId ==> r[i] == plans[i]
    ensures forall i :: 0 <= i < |plans| && Get(plans[i], "id") == planId ==> r[i].Dict?
  {
    seq(|plans|, i requires 0 <= i < |plans| =>
      if Get(plans[i], "id") == planId then WithStatus(plans[i], StatusAfter(Get(plans[i], "status"), code, message))
      else plans[i])
  }

  /** Only the triggered plan changes, and in it only the status. */
  lemma MapStatusSpec(plans: seq<Value>, planId: Value, code: int, message: string, i: nat, k: string)
    requires i < |plans|
    ensures var r := MapStatus(plans, planId, code, message);
            (Get(plans[i], "id") != planId ==> r[i] == plans[i]) &&
            (Get(plans[i], "id") == planId && plans[i].Dict? ==>
               Get(r[i], "status") == StatusAfter(Get(plans[i], "status"), code, message) &&
               (k != "status" ==> Get(r[i], k) == Get(plans[i], k)))
  {
    if Get(plans[i], "id") == planId && plans[i].Dict? {
      WithStatusFields(plans[i], StatusAfter(Get(plans[i], "status"), code, message), k);
    }
  }

  /** The plans once the request settles: axios resolves only a 2xx response; any other
      code lands in the `catch`, which leaves the plans alone. */
  function PlansAfterTrigger(plans: seq<Value>, planId: Value, code: int, message: string): (r: seq<Value>)
    ensures |r| == |plans|
    ensures !(200 <= code < 300) ==> r == plans
  {
    if 200 <= code < 300 then MapStatus(plans, planId, code, message) else plans
  }

  /** The "Send Now" button shows for an active button-click plan. */
  predicate ShowsSendNow(p: Value) {
    Get(p, "trigger_type") == Str("button_click") && Get(p, "status") == Str("active")
  }

  lemma FlowEnqueuedIsScheduled(current: Value)
    ensures StatusAfter(current, 202, "Flow enqueued") == Str("scheduled")
  {
    assert Lower("Flow enqueued") == "flow enqueued";
  }

  /** Against the trigger endpoint's fallback ladder: an enqueued flow shows "scheduled", a
      synchronous run or send shows "sent", and when every step fails (503) nothing changes.
      After any success the plan is no longer active, so its "Send Now" button goes away. */
  lemma TriggerLadderStatus(plans: seq<Value>, planId: Value, enqueueOk: bool, runFlowOk: bool, sendOk: bool, i: nat)
    requires i < |plans| && plans[i].Dict? && Get(plans[i], "id") == planId
    ensures var resp := PlanViews.Trigger(enqueueOk, runFlowOk, sendOk).0;
            var r := PlansAfterTrigger(plans, planId, resp.code, resp.message);
            (enqueueOk ==> Get(r[i], "status") == Str("scheduled")) &&
            (!enqueueOk && (runFlowOk || sendOk) ==> Get(r[i], "status") == Str("sent")) &&
            (!enqueueOk && !runFlowOk && !sendOk ==> r == plans) &&
            (enqueueOk || runFlowOk || sendOk ==> !ShowsSendNow(r[i]))
  {
    var resp := PlanViews.Trigger(enqueueOk, runFlowOk, sendOk).0;
    var current := Get(plans[i], "status");
    MapStatusSpec(plans, planId, resp.code, resp.message, i, "status");
    if enqueueOk {
      FlowEnqueuedIsScheduled(current);
    }
  }

  // ---------------------------------------------------------------------------
  // The per-plan loading guard.

  /** The start of `handleTrigger`: None when the list the page was rendered with already
      holds planId (the handler returns), else the latest list with planId appended. */
  function TriggerBegin(rendered: seq<Value>, latest: seq<Value>, planId: Value): (r: Option<seq<Value>>)
    ensures r.None? <==> planId in rendered
    ensures r.Some? ==> |r.value| == |latest| + 1 && r.value[..|latest|] == latest && r.value[|latest|] == planId
  {
    if planId in rendered then None else Some(latest + [planId])
  }

  /** The `finally` of `handleTrigger`, run on success and failure alike. */
  function TriggerEnd(latest: seq<Value>, planId: Value): (r: seq<Value>)
    ensures planId !in r
    ensures forall x :: x in latest && x != planId ==> x in r
  {
    ListOps.WithoutValueMembers(latest, planId);
    ListOps.WithoutValue(latest, planId)
  }

  /** A trigger leaves the other plans' loading entries as they were, in order, including
      those of triggers started while it was in flight. */
  lemma TriggerKeepsOthers(before: seq<Value>, after: seq<Value>, planId: Value)
    requires planId !in before && planId !in after
    ensures TriggerEnd(TriggerBegin(before, before, planId).value + after, planId) == before + after
  {
    var started := before + [planId];
    assert TriggerBegin(before, before, planId).value == started;
    var dropped := ListOps.WithoutValue([planId], planId);
    assert dropped == [] by { assert [planId][1..] == []; }
    ListOps.WithoutValueAppend(before, [planId], planId);
    ListOps.WithoutAbsentValue(before, planId);
    assert ListOps.WithoutValue(started, planId) == before + dropped;
    ListOps.WithoutValueAppend(started, after, planId);
    ListOps.WithoutAbsentValue(after, planId);
    assert before + dropped == before;
  }

  /** The guard reads the list of the last render: two clicks before the page re-renders
      both pass, and the first request to settle clears the flag of the other. */
  lemma StaleRenderAdmitsSecondClick(planId: Value)
    ensures TriggerBegin([], [planId], planId) == Some([planId, planId])
    ensures TriggerEnd([planId, planId], planId) == []
  {
    assert [planId] + [planId] == [planId, planId];
    assert [planId, planId][1..] == [planId];
    assert ListOps.WithoutValue([planId], planId) == [];
  }

  // ---------------------------------------------------------------------------
  // Deleting a plan.

  /** A delete removes exactly the plan with that id and keeps the others in order. */
  lemma DeleteRemovesOnlyThatPlan(plans: seq<Value>, id: Value, k: nat)
    requires k < |plans| && Get(plans[k], "id") == id
    requires forall j :: 0 <= j < |plans| && j != k ==> Get(plans[j], "id") != id
    ensures ListOps.WithoutId(plans, id) == plans[..k] + plans[k + 1..]
  {
    var a, x, b := plans[..k], plans[k], plans[k + 1..];
    assert forall i :: 0 <= i < |a| ==> Get(a[i], "id") != id by {
      forall i | 0 <= i < |a| ensures Get(a[i], "id") != id { assert a[i] == plans[i]; }
    }
    assert forall i :: 0 <= i < |b| ==> Get(b[i], "id") != id by {
      forall i | 0 <= i < |b| ensures Get(b[i], "id") != id { assert b[i] == plans[k + 1 + i]; }
    }
    assert plans == a + ([x] + b);
    WithoutIdAround(a, x, b, id);
  }

  lemma WithoutIdAround(a: seq<Value>, x: Value, b: seq<Value>, id: Value)
    requires Get(x, "id") == id
    requires forall i :: 0 <= i < |a| ==> Get(a[i], "id") != id
    requires forall i :: 0 <= i < |b| ==> Get(b[i], "id") != id
    ensures ListOps.WithoutId(a + ([x] + b), id) == a + b
  {
    var dropped := ListOps.WithoutId([x], id);
    assert dropped == [] by { assert [x][1..] == []; }
    ListOps.WithoutAbsentId(a, id);
    ListOps.WithoutAbsentId(b, id);
    ListOps.WithoutIdAppend([x], b, id);
    ListOps.WithoutIdAppend(a, [x] + b, id);
    assert dropped + b == b;
  }
}
