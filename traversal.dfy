/**
 * Flow traversal engine: `execute_flow_task`. Picks a start node, then walks the
 * graph depth-first with an explicit stack of (node id, accumulated seconds)
 * frames, adding delays along each branch and emitting one schedule request per
 * visit of an email-like node. The executor is abstracted: a schedule request is
 * what the source hands to `send_mail_task.delay` / `apply_async`, and a failure
 * to hand it over is swallowed, so it does not change the walk.
 */
module Traversal {
  import opened Values
  import opened Duration
  import opened FlowGraph

  /** `max_steps`: the loop breaks once `steps > MaxSteps`, so at most MaxSteps + 1 nodes are visited. */
  const MaxSteps: nat := 5000

  /** A send for `nodeId` (None: the plan's default content), immediately (eta None) or at an instant. */
  datatype Request = Request(nodeId: Option<Value>, eta: Option<int>)

  /** A stack entry: a node id and the seconds accumulated on the branch leading to it. */
  datatype Frame = Frame(id: Value, acc: int)

  /** The traversal state. `pushed` records every frame pushed after the start frame, in order,
      and `popped` every frame taken off the stack, in order: two logs the source does not
      keep, carried along so that the walk's properties can be stated. */
  datatype Walk = Walk(stack: seq<Frame>, visited: set<Frame>, steps: nat, sent: seq<Request>,
                       pushed: seq<Frame>, popped: seq<Frame>)

  /** How a walk ends: stack empty, step ceiling hit, or an exception escaped. */
  datatype Stop = Exhausted | StepLimit | Crashed

  datatype StepResult = Next(w: Walk) | Crash(w: Walk)

  // ---------------------------------------------------------------------------
  // Start node.

  predicate IsStartNode(n: Value) { Get(n, "type") == Str("start") || Get(n, "id") == Str("start") }

  predicate IsTriggerNode(n: Value) { Get(n, "type") == Str("trigger") }

  /** The key of the first node (in node-map order) whose type is "start" or whose id is "start". */
  function FirstStart(m: NodeMap): (r: Option<Value>)
    ensures r.None? <==> forall i :: 0 <= i < |m| ==> !IsStartNode(m[i].1)
    ensures r.Some? ==> exists i :: 0 <= i < |m| && m[i].0 == r.value && IsStartNode(m[i].1) &&
                                    forall j :: 0 <= j < i ==> !IsStartNode(m[j].1)
  {
    if m == [] then None
    else if IsStartNode(m[0].1) then Some(m[0].0)
    else
      var r := FirstStart(m[1..]);
      assert forall i :: 1 <= i < |m| ==> m[i] == m[1..][i - 1];
      r
  }

  /** The key of the first node whose type is "trigger". */
  function FirstTrigger(m: NodeMap): (r: Option<Value>)
    ensures r.None? <==> forall i :: 0 <= i < |m| ==> !IsTriggerNode(m[i].1)
    ensures r.Some? ==> exists i :: 0 <= i < |m| && m[i].0 == r.value && IsTriggerNode(m[i].1) &&
                                    forall j :: 0 <= j < i ==> !IsTriggerNode(m[j].1)
  {
    if m == [] then None
    else if IsTriggerNode(m[0].1) then Some(m[0].0)
    else
      var r := FirstTrigger(m[1..]);
      assert forall i :: 1 <= i < |m| ==> m[i] == m[1..][i - 1];
      r
  }

  /** The start id: a start node's key, else a trigger's, each only if truthy (`if not start_id`). */
  function StartId(m: NodeMap): (r: Option<Value>)
    ensures r.Some? ==> Truthy(r.value) && HasKey(m, r.value)
    ensures FirstStart(m).Some? && Truthy(FirstStart(m).value) ==> r == FirstStart(m)
  {
    var s := FirstStart(m);
    if s.Some? && Truthy(s.value) then s
    else
      var t := FirstTrigger(m);
      if t.Some? && Truthy(t.value) then t else None
  }

  // ---------------------------------------------------------------------------
  // One node visit.

  /** `"duration" in data or "unit" in data` for a truthy data value; None where `in` raises. */
  function DelayKeyTest(data: Value): Option<bool> {
    match data
    case Dict(fs) => Some(HasKey(fs, "duration") || HasKey(fs, "unit"))
    case Str(s) => Some(Contains(s, "duration") || Contains(s, "unit"))
    case List(xs) => Some(Str("duration") in xs || Str("unit") in xs)
    case _ => None
  }

  /** A delay-like node: type "delay", or data naming "duration" or "unit" (as a key of a dict,
      an element of a list or a substring of a string). */
  predicate IsDelayLike(node: Value) {
    var data := Get(node, "data");
    Get(node, "type") == Str("delay") ||
    (data.Dict? && (HasKey(data.fields, "duration") || HasKey(data.fields, "unit"))) ||
    (data.Str? && (Contains(data.s, "duration") || Contains(data.s, "unit"))) ||
    (data.List? && (Str("duration") in data.items || Str("unit") in data.items))
  }

  /** The delay test of the visit (line order kept): Some(is it a delay node), None when `in`
      raises, which happens exactly for truthy data that is not a container. */
  function DelayTest(node: Value): (r: Option<bool>)
    ensures r.Some? ==> (r.value <==> IsDelayLike(node))
    ensures r.None? <==> Get(node, "type") != Str("delay") && Truthy(Get(node, "data")) &&
                         !(Get(node, "data").Dict? || Get(node, "data").Str? || Get(node, "data").List?)
  {
    var data := Get(node, "data");
    if Get(node, "type") == Str("delay") then Some(true)
    else if !Truthy(data) then Some(false)
    else DelayKeyTest(data)
  }

  /** The email test: Some(is it email-like), None when `data.get` raises on truthy data
      that is not a dict. */
  function EmailTest(node: Value): (r: Option<bool>)
    ensures r.Some? ==> (r.value <==> IsEmailLike(node))
    ensures r.None? <==> Get(node, "type") != Str("email") && Truthy(Get(node, "data")) && !Get(node, "data").Dict?
  {
    var data := Get(node, "data");
    if Get(node, "type") == Str("email") then Some(true)
    else if !Truthy(data) then Some(false)
    else if !data.Dict? then None
    else Some(Truthy(Get(data, "recipient_email")) || Truthy(Get(data, "recipient")))
  }

  /** An email-like node: type "email", or a truthy recipient field in its data. */
  predicate IsEmailLike(node: Value) {
    Get(node, "type") == Str("email") ||
    (Get(node, "data").Dict? && (Truthy(Get(Get(node, "data"), "recipient_email")) || Truthy(Get(Get(node, "data"), "recipient"))))
  }

  /** The seconds a delay node adds: `_duration_seconds(data.get("duration") or 0, data.get("unit") or "hours")`. */
  function DelayOf(node: Value): (r: Option<int>)
    ensures !Truthy(Get(node, "data")) ==> r == Some(0)
    ensures Truthy(Get(node, "data")) && !Get(node, "data").Dict? ==> r.None?
    ensures var data := Get(node, "data");
            data.Dict? && Get(data, "duration").Int? && !Truthy(Get(data, "unit")) ==>
            r == Some(Get(data, "duration").i * 3600)
  {
    var data := Or(Get(node, "data"), Dict([]));
    if !data.Dict? then None
    else DurationSeconds(Or(Get(data, "duration"), Int(0)), Or(Get(data, "unit"), Str("hours")))
  }

  /** The visit of one node with accumulated seconds acc: Some((new acc, does it emit)), None when it raises.
      The delay is added before the email test, so a node that is both fires after its own delay. */
  function VisitNode(node: Value, acc: int): (r: Option<(int, bool)>)
    ensures r.None? <==> DelayTest(node).None? || (IsDelayLike(node) && DelayOf(node).None?) || EmailTest(node).None?
    ensures r.Some? ==> r.value.0 == (if IsDelayLike(node) then acc + DelayOf(node).value else acc)
    ensures r.Some? ==> (r.value.1 <==> IsEmailLike(node))
  {
    match DelayTest(node)
    case None => None
    case Some(isDelay) =>
      var acc' := if isDelay then (match DelayOf(node) case Some(d) => Some(acc + d) case None => None) else Some(acc);
      if acc'.None? then None
      else match EmailTest(node)
        case None => None
        case Some(emit) => Some((acc'.value, emit))
  }

  /** The request for an email node reached with acc seconds: delayed iff acc > 0. */
  function RequestFor(node: Value, acc: int, now: int): (r: Request)
    ensures r.eta.Some? <==> acc > 0
    ensures r.eta.Some? ==> r.eta.value == now + acc && r.eta.value > now
  {
    Request(Some(Get(node, "id")), if acc > 0 then Some(now + acc) else None)
  }

  /** Pushing each target with acc, skipping (target, acc) pairs already visited.
      Hashing an unhashable target raises. */
  function PushTargets(ts: seq<Value>, acc: int, w: Walk): StepResult
    decreases |ts|
  {
    if ts == [] then Next(w)
    else if !Hashable(ts[0]) then Crash(w)
    else
      var key := Frame(ts[0], acc);
      if key in w.visited then PushTargets(ts[1..], acc, w)
      else PushTargets(ts[1..], acc, w.(stack := w.stack + [key], visited := w.visited + {key}, pushed := w.pushed + [key]))
  }

  /** One iteration of the loop body (after the step ceiling check): the top frame is popped
      and counted, whether or not its visit raises. */
  function Step(g: Graph, now: int, w: Walk): (r: StepResult)
    requires w.stack != []
    ensures r.w.steps == w.steps + 1
    ensures r.w.popped == w.popped + [w.stack[|w.stack| - 1]]
  {
    var f := w.stack[|w.stack| - 1];
    var w1 := w.(stack := w.stack[..|w.stack| - 1], steps := w.steps + 1, popped := w.popped + [f]);
    match Find(g.nodes, f.id)
    case None => Next(w1)
    case Some(node) =>
      if !Truthy(node) then Next(w1)
      else match VisitNode(node, f.acc)
        case None => Crash(w1)
        case Some((acc, emit)) =>
          var w2 := if emit then w1.(sent := w1.sent + [RequestFor(node, acc, now)]) else w1;
          PushKeepsCounters(Targets(g.adjacency, f.id), acc, w2);
          PushTargets(Targets(g.adjacency, f.id), acc, w2)
  }

  /** The `while stack` loop run to its end: it ends with an empty stack, or with frames left
      once the step counter has passed the ceiling, or where a visit raised. */
  function Explore(g: Graph, now: int, w: Walk): (r: (Walk, Stop))
    requires w.steps <= MaxSteps + 1
    ensures w.steps <= r.0.steps <= MaxSteps + 1
    ensures r.1 == Exhausted ==> r.0.stack == []
    ensures r.1 == StepLimit ==> r.0.stack != [] && r.0.steps == MaxSteps + 1
    decreases MaxSteps + 1 - w.steps
  {
    if w.stack == [] then (w, Exhausted)
    else if w.steps > MaxSteps then (w, StepLimit)
    else
      match Step(g, now, w)
      case Crash(w') => (w', Crashed)
      case Next(w') => Explore(g, now, w')
  }

  /** Pushing only touches the stack, the visited set and the push log. */
  lemma {:induction false} PushKeepsCounters(ts: seq<Value>, acc: int, w: Walk)
    ensures PushTargets(ts, acc, w).w.steps == w.steps
    ensures PushTargets(ts, acc, w).w.sent == w.sent
    ensures PushTargets(ts, acc, w).w.popped == w.popped
    decreases |ts|
  {
    if ts != [] && Hashable(ts[0]) {
      var key := Frame(ts[0], acc);
      if key in w.visited { PushKeepsCounters(ts[1..], acc, w); }
      else { PushKeepsCounters(ts[1..], acc, w.(stack := w.stack + [key], visited := w.visited + {key}, pushed := w.pushed + [key])); }
    }
  }

  /** Each iteration counts one step and emits at most one request, for an email-like node. */
  lemma StepCounts(g: Graph, now: int, w: Walk)
    requires w.stack != []
    ensures var s := Step(g, now, w).w.sent;
            s == w.sent ||
            exists node :: Find(g.nodes, w.stack[|w.stack| - 1].id) == Some(node) && IsEmailLike(node) &&
                           s == w.sent + [RequestFor(node, VisitNode(node, w.stack[|w.stack| - 1].acc).value.0, now)]
  {
    var f := w.stack[|w.stack| - 1];
    var w1 := w.(stack := w.stack[..|w.stack| - 1], steps := w.steps + 1, popped := w.popped + [f]);
    match Find(g.nodes, f.id)
    case None =>
    case Some(node) =>
      if Truthy(node) && VisitNode(node, f.acc).Some? {
        var (acc, emit) := VisitNode(node, f.acc).value;
        var w2 := if emit then w1.(sent := w1.sent + [RequestFor(node, acc, now)]) else w1;
        PushKeepsCounters(Targets(g.adjacency, f.id), acc, w2);
      }
  }

  function InitialWalk(start: Value): Walk {
    Walk([Frame(start, 0)], {}, 0, [], [], [])
  }

  // ---------------------------------------------------------------------------
  // The whole task.

  /** How `execute_flow_task` ends. */
  datatype FlowEnd =
    | PlanMissing           // MailPlan.DoesNotExist: returns None
    | NotADict              // the flow is not a dict: nothing scheduled
    | GraphRaised           // `_flow_to_graph` raised
    | NoStart               // no start or trigger node: one immediate send of the plan
    | Walked(stop: Stop)    // the traversal ran

  /** `getattr(mp, "flow", {}) or {}`, decoded when it is a string (`{}` when decoding fails). */
  function FlowValue(flowField: Value, decode: string -> Option<Value>): Value {
    var v := Or(flowField, Dict([]));
    if v.Str? then (match decode(v.s) case Some(d) => d case None => Dict([])) else v
  }

  /** What `execute_flow_task` schedules, and how it ends: nothing when it returns early, and a
      walk only for a plan whose flow is a dict. */
  function ExecuteFlowSpec(found: bool, flowField: Value, decode: string -> Option<Value>, now: int): (r: (seq<Request>, FlowEnd))
    ensures !found <==> r.1 == PlanMissing
    ensures r.1 == PlanMissing || r.1 == NotADict || r.1 == GraphRaised ==> r.0 == []
    ensures r.1 == NotADict <==> found && !FlowValue(flowField, decode).Dict?
    ensures r.1.Walked? ==> found && FlowValue(flowField, decode).Dict? && GraphOf(FlowValue(flowField, decode)).Some?
  {
    if !found then ([], PlanMissing)
    else
      var flow := FlowValue(flowField, decode);
      if !flow.Dict? then ([], NotADict)
      else match GraphOf(flow)
        case None => ([], GraphRaised)
        case Some(g) =>
          match StartId(g.nodes)
          case None => ([Request(None, None)], NoStart)
          case Some(start) =>
            var (w, stop) := Explore(g, now, InitialWalk(start));
            (w.sent, Walked(stop))
  }

  /** The inner `for tgt in adjacency.get(nid, [])` loop. */
  method PushTargetsLoop(ts: seq<Value>, acc: int, w: Walk) returns (r: StepResult)
    ensures r == PushTargets(ts, acc, w)
  {
    var stack, visited, pushed := w.stack, w.visited, w.pushed;
    var k := 0;
    while k < |ts|
      invariant 0 <= k <= |ts|
      invariant PushTargets(ts[k..], acc, w.(stack := stack, visited := visited, pushed := pushed)) == PushTargets(ts, acc, w)
    {
      var tgt := ts[k];
      assert ts[k..][1..] == ts[k + 1..];
      if !Hashable(tgt) {
        return Crash(w.(stack := stack, visited := visited, pushed := pushed));
      }
      var key := Frame(tgt, acc);
      if key !in visited {
        visited := visited + {key};
        stack := stack + [key];
        pushed := pushed + [key];
      }
      k := k + 1;
    }
    assert ts[k..] == [];
    r := Next(w.(stack := stack, visited := visited, pushed := pushed));
  }

  /** One iteration of the `while stack` loop past the step check. */
  method VisitStep(g: Graph, now: int, w: Walk) returns (r: StepResult)
    requires w.stack != []
    ensures r == Step(g, now, w)
  {
    var frame := w.stack[|w.stack| - 1];
    var w1 := w.(stack := w.stack[..|w.stack| - 1], steps := w.steps + 1, popped := w.popped + [frame]);
    var found := Find(g.nodes, frame.id);
    if found.None? || !Truthy(found.value) {
      return Next(w1);
    }
    var node := found.value;
    var visit := VisitNode(node, frame.acc);
    if visit.None? {
      return Crash(w1);
    }
    var acc := visit.value.0;
    if visit.value.1 {
      w1 := w1.(sent := w1.sent + [RequestFor(node, acc, now)]);
    }
    r := PushTargetsLoop(Targets(g.adjacency, frame.id), acc, w1);
  }

  /** `execute_flow_task(mailplan_id)`: found says whether the plan exists, flowField is its
      stored flow, decode is `json.loads`, now is `timezone.now()` in seconds. */
  method ExecuteFlow(found: bool, flowField: Value, decode: string -> Option<Value>, now: int)
    returns (requests: seq<Request>, end: FlowEnd)
    ensures (requests, end) == ExecuteFlowSpec(found, flowField, decode, now)
  {
    if !found {
      return [], PlanMissing;
    }
    var flow := Or(flowField, Dict([]));
    if flow.Str? {
      var decoded := decode(flow.s);
      flow := if decoded.Some? then decoded.value else Dict([]);
    }
    if !flow.Dict? {
      return [], NotADict;
    }
    var graph := FlowToGraph(flow);
    if graph.None? {
      return [], GraphRaised;
    }
    var g := graph.value;
    var startId := StartId(g.nodes);
    if startId.None? {
      return [Request(None, None)], NoStart;
    }
    var w := InitialWalk(startId.value);
    while w.stack != []
      invariant w.steps <= MaxSteps + 1
      invariant Explore(g, now, w) == Explore(g, now, InitialWalk(startId.value))
      decreases MaxSteps + 1 - w.steps
    {
      if w.steps > MaxSteps {
        return w.sent, Walked(StepLimit);
      }
      var r := VisitStep(g, now, w);
      if r.Crash? {
        return r.w.sent, Walked(Crashed);
      }
      w := r.w;
    }
    return w.sent, Walked(Exhausted);
  }
}
