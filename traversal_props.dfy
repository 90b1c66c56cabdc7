/**
 * Properties of the traversal engine: what it sends, how much work it does,
 * that a (node, delay) pair is expanded once, and that the schedule is relative
 * to the moment the flow is triggered.
 */
module TraversalProperties {
  import opened Values
  import opened Duration
  import opened FlowGraph
  import opened Traversal

  // ---------------------------------------------------------------------------
  // Every request comes from a visit of an email-like node, and is immediate or in the future.

  predicate FromEmailNode(g: Graph, now: int, r: Request) {
    r.nodeId.Some? && (r.eta.None? || r.eta.value > now) &&
    exists i :: 0 <= i < |g.nodes| && IsEmailLike(g.nodes[i].1) && r.nodeId == Some(Get(g.nodes[i].1, "id"))
  }

  predicate AllFromEmailNodes(g: Graph, now: int, rs: seq<Request>) {
    forall j :: 0 <= j < |rs| ==> FromEmailNode(g, now, rs[j])
  }

  lemma StepSendsFromEmailNodes(g: Graph, now: int, w: Walk)
    requires w.stack != [] && AllFromEmailNodes(g, now, w.sent)
    ensures AllFromEmailNodes(g, now, Step(g, now, w).w.sent)
  {
    StepCounts(g, now, w);
    var s := Step(g, now, w).w.sent;
    if s != w.sent {
      var f := w.stack[|w.stack| - 1];
      var node :| Find(g.nodes, f.id) == Some(node) && IsEmailLike(node) &&
                  s == w.sent + [RequestFor(node, VisitNode(node, f.acc).value.0, now)];
      FindIsEntry(g.nodes, f.id);
      var i :| 0 <= i < |g.nodes| && g.nodes[i] == (f.id, node);
      assert FromEmailNode(g, now, s[|s| - 1]);
    }
  }

  /** The walk only ever schedules email-like nodes, each either at once or strictly after now. */
  lemma {:induction false} ExploreSendsFromEmailNodes(g: Graph, now: int, w: Walk)
    requires w.steps <= MaxSteps + 1 && AllFromEmailNodes(g, now, w.sent)
    ensures AllFromEmailNodes(g, now, Explore(g, now, w).0.sent)
    decreases MaxSteps + 1 - w.steps
  {
    if w.stack != [] && w.steps <= MaxSteps {
      StepCounts(g, now, w);
      StepSendsFromEmailNodes(g, now, w);
      if Step(g, now, w).Next? {
        ExploreSendsFromEmailNodes(g, now, Step(g, now, w).w);
      }
    }
  }

  // ---------------------------------------------------------------------------
  // Work bound: one request per visited node at most, and at most MaxSteps + 1 visits.

  lemma {:induction false} ExploreBounded(g: Graph, now: int, w: Walk)
    requires w.steps <= MaxSteps + 1 && |w.sent| <= w.steps
    ensures |Explore(g, now, w).0.sent| <= Explore(g, now, w).0.steps <= MaxSteps + 1
    decreases MaxSteps + 1 - w.steps
  {
    if w.stack != [] && w.steps <= MaxSteps {
      StepCounts(g, now, w);
      if Step(g, now, w).Next? {
        ExploreBounded(g, now, Step(g, now, w).w);
      }
    }
  }

  // ---------------------------------------------------------------------------
  // A (node, accumulated delay) pair is pushed at most once, and the visited set is
  // exactly the set of pushed pairs.

  ghost predicate PushLogOk(w: Walk) {
    (forall i, j :: 0 <= i < j < |w.pushed| ==> w.pushed[i] != w.pushed[j]) &&
    (forall f :: f in w.visited <==> f in w.pushed)
  }

  lemma {:induction false} PushKeepsLog(ts: seq<Value>, acc: int, w: Walk)
    requires PushLogOk(w)
    ensures PushLogOk(PushTargets(ts, acc, w).w)
    decreases |ts|
  {
    if ts != [] && Hashable(ts[0]) {
      var key := Frame(ts[0], acc);
      if key in w.visited { PushKeepsLog(ts[1..], acc, w); }
      else {
        var w' := w.(stack := w.stack + [key], visited := w.visited + {key}, pushed := w.pushed + [key]);
        assert forall i :: 0 <= i < |w.pushed| ==> w'.pushed[i] == w.pushed[i];
        PushKeepsLog(ts[1..], acc, w');
      }
    }
  }

  lemma StepKeepsLog(g: Graph, now: int, w: Walk)
    requires w.stack != [] && PushLogOk(w)
    ensures PushLogOk(Step(g, now, w).w)
  {
    var f := w.stack[|w.stack| - 1];
    var w1 := w.(stack := w.stack[..|w.stack| - 1], steps := w.steps + 1, popped := w.popped + [f]);
    match Find(g.nodes, f.id)
    case None =>
    case Some(node) =>
      if Truthy(node) && VisitNode(node, f.acc).Some? {
        var (acc, emit) := VisitNode(node, f.acc).value;
        var w2 := if emit then w1.(sent := w1.sent + [RequestFor(node, acc, now)]) else w1;
        PushKeepsLog(Targets(g.adjacency, f.id), acc, w2);
      }
  }

  /** No (node, delay) pair is expanded twice: the push log has no repeats. */
  lemma {:induction false} ExplorePushesOnce(g: Graph, now: int, w: Walk)
    requires w.steps <= MaxSteps + 1 && PushLogOk(w)
    ensures PushLogOk(Explore(g, now, w).0)
    decreases MaxSteps + 1 - w.steps
  {
    if w.stack != [] && w.steps <= MaxSteps {
      StepCounts(g, now, w);
      StepKeepsLog(g, now, w);
      if Step(g, now, w).Next? {
        ExplorePushesOnce(g, now, Step(g, now, w).w);
      }
    }
  }

  // ---------------------------------------------------------------------------
  // Completeness: a walk that empties its stack has popped every pushed frame, sent one
  // request per popped email-like frame in pop order, and popped every frame reachable
  // from the start frame.

  /** The frames a visit of f goes on to, before the visited check: each target of f's node
      paired with the delay accumulated at that node. None when the node is missing or
      falsy, or when its visit raises. */
  function Successors(g: Graph, f: Frame): seq<Frame> {
    match Find(g.nodes, f.id)
    case None => []
    case Some(node) =>
      if !Truthy(node) then []
      else match VisitNode(node, f.acc)
        case None => []
        case Some((acc, _)) => FramesAt(Targets(g.adjacency, f.id), acc)
  }

  function FramesAt(ts: seq<Value>, acc: int): (r: seq<Frame>)
    ensures |r| == |ts| && forall i :: 0 <= i < |ts| ==> r[i] == Frame(ts[i], acc)
  {
    seq(|ts|, i requires 0 <= i < |ts| => Frame(ts[i], acc))
  }

  /** The request a visit of f emits: one for an email-like node that is found, truthy and
      visited without raising, at the delay accumulated there. */
  function EmitOf(g: Graph, now: int, f: Frame): seq<Request> {
    match Find(g.nodes, f.id)
    case None => []
    case Some(node) =>
      if Truthy(node) && VisitNode(node, f.acc).Some? && IsEmailLike(node)
      then [RequestFor(node, VisitNode(node, f.acc).value.0, now)]
      else []
  }

  /** The requests of a sequence of visits, in visit order. */
  function Emits(g: Graph, now: int, fs: seq<Frame>): seq<Request>
    decreases |fs|
  {
    if fs == [] then [] else Emits(g, now, fs[..|fs| - 1]) + EmitOf(g, now, fs[|fs| - 1])
  }

  /** What holds after every iteration of a walk begun at Frame(start, 0): each frame ever
      on the stack has been popped or is still there, the requests are those of the popped
      frames, and the successors of a popped frame have all been marked visited. */
  ghost predicate Accounted(g: Graph, now: int, start: Value, w: Walk) {
    multiset([Frame(start, 0)] + w.pushed) == multiset(w.popped) + multiset(w.stack) &&
    w.sent == Emits(g, now, w.popped) &&
    PushLogOk(w) &&
    (forall f, s :: f in w.popped && s in Successors(g, f) ==> s in w.visited)
  }

  lemma {:induction false} PushAccounts(ts: seq<Value>, acc: int, w: Walk)
    ensures var r := PushTargets(ts, acc, w);
            multiset(r.w.pushed) + multiset(w.stack) == multiset(r.w.stack) + multiset(w.pushed) &&
            w.visited <= r.w.visited &&
            (r.Next? ==> forall t :: t in ts ==> Frame(t, acc) in r.w.visited)
    decreases |ts|
  {
    if ts != [] && Hashable(ts[0]) {
      var key := Frame(ts[0], acc);
      assert forall t :: t in ts ==> t == ts[0] || t in ts[1..];
      if key in w.visited {
        PushAccounts(ts[1..], acc, w);
      } else {
        var w' := w.(stack := w.stack + [key], visited := w.visited + {key}, pushed := w.pushed + [key]);
        PushAccounts(ts[1..], acc, w');
        var r := PushTargets(ts[1..], acc, w');
        assert multiset(w'.stack) == multiset(w.stack) + multiset{key};
        assert multiset(w'.pushed) == multiset(w.pushed) + multiset{key};
        forall x ensures (multiset(r.w.pushed) + multiset(w.stack))[x] == (multiset(r.w.stack) + multiset(w.pushed))[x] {
          assert (multiset(r.w.pushed) + multiset(w'.stack))[x] == (multiset(r.w.stack) + multiset(w'.pushed))[x];
        }
      }
    }
  }

  /** One iteration pops the top frame, moves the frames it pushes onto the stack and the push
      log alike, only adds to the visited set, emits that frame's request and marks its
      successors visited. */
  lemma StepShape(g: Graph, now: int, w: Walk)
    requires w.stack != [] && Step(g, now, w).Next?
    ensures var f, r := w.stack[|w.stack| - 1], Step(g, now, w).w;
            multiset(r.pushed) + multiset(w.stack) == multiset(r.stack) + multiset(w.pushed) + multiset{f} &&
            w.visited <= r.visited &&
            r.sent == w.sent + EmitOf(g, now, f) &&
            (forall s :: s in Successors(g, f) ==> s in r.visited)
  {
    var f := w.stack[|w.stack| - 1];
    var w1 := w.(stack := w.stack[..|w.stack| - 1], steps := w.steps + 1, popped := w.popped + [f]);
    assert w.stack == w1.stack + [f];
    assert multiset(w.stack) == multiset(w1.stack) + multiset{f};
    match Find(g.nodes, f.id)
    case None =>
      assert Step(g, now, w).w == w1;
    case Some(node) =>
      if !Truthy(node) {
        assert Step(g, now, w).w == w1;
      } else {
        var (acc, emit) := VisitNode(node, f.acc).value;
        var w2 := if emit then w1.(sent := w1.sent + [RequestFor(node, acc, now)]) else w1;
        var ts := Targets(g.adjacency, f.id);
        assert Step(g, now, w) == PushTargets(ts, acc, w2);
        PushAccounts(ts, acc, w2);
        PushKeepsCounters(ts, acc, w2);
        var r := Step(g, now, w).w;
        forall x ensures (multiset(r.pushed) + multiset(w.stack))[x] == (multiset(r.stack) + multiset(w.pushed) + multiset{f})[x] {
          assert (multiset(r.pushed) + multiset(w2.stack))[x] == (multiset(r.stack) + multiset(w2.pushed))[x];
        }
        assert EmitOf(g, now, f) == (if emit then [RequestFor(node, acc, now)] else []);
        forall s | s in Successors(g, f) ensures s in r.visited {
          var i :| 0 <= i < |ts| && s == Frame(ts[i], acc);
          assert ts[i] in ts;
        }
      }
  }

  lemma StepAccounts(g: Graph, now: int, start: Value, w: Walk)
    requires w.stack != [] && Accounted(g, now, start, w) && Step(g, now, w).Next?
    ensures Accounted(g, now, start, Step(g, now, w).w)
  {
    var f, r := w.stack[|w.stack| - 1], Step(g, now, w).w;
    StepShape(g, now, w);
    StepKeepsLog(g, now, w);
    CountStep(Frame(start, 0), w.pushed, w.stack, w.popped, r.pushed, r.stack, f);
    EmitsSnoc(g, now, w.popped, f);
    forall x, s | x in r.popped && s in Successors(g, x) ensures s in r.visited {
      if x != f { assert x in w.popped; }
    }
  }

  /** The frame count of one iteration: the popped frame leaves the stack for the pop log. */
  lemma CountStep(start: Frame, pushed: seq<Frame>, stack: seq<Frame>, popped: seq<Frame>,
                  pushed': seq<Frame>, stack': seq<Frame>, f: Frame)
    requires multiset([start] + pushed) == multiset(popped) + multiset(stack)
    requires multiset(pushed') + multiset(stack) == multiset(stack') + multiset(pushed) + multiset{f}
    ensures multiset([start] + pushed') == multiset(popped + [f]) + multiset(stack')
  {
    forall x ensures multiset([start] + pushed')[x] == (multiset(popped + [f]) + multiset(stack'))[x] {
      assert (multiset(pushed') + multiset(stack))[x] == (multiset(stack') + multiset(pushed) + multiset{f})[x];
      assert multiset([start] + pushed)[x] == (multiset(popped) + multiset(stack))[x];
    }
  }

  lemma EmitsSnoc(g: Graph, now: int, fs: seq<Frame>, f: Frame)
    ensures Emits(g, now, fs + [f]) == Emits(g, now, fs) + EmitOf(g, now, f)
  {
    assert (fs + [f])[..|fs|] == fs;
  }

  lemma {:induction false} ExploreAccounts(g: Graph, now: int, start: Value, w: Walk)
    requires w.steps <= MaxSteps + 1 && Accounted(g, now, start, w)
    ensures Explore(g, now, w).1 == Exhausted ==> Accounted(g, now, start, Explore(g, now, w).0)
    decreases MaxSteps + 1 - w.steps
  {
    if w.stack != [] && w.steps <= MaxSteps && Step(g, now, w).Next? {
      StepAccounts(g, now, start, w);
      ExploreAccounts(g, now, start, Step(g, now, w).w);
    }
  }

  lemma {:induction false} DistinctCounts(xs: seq<Frame>)
    requires forall i, j :: 0 <= i < j < |xs| ==> xs[i] != xs[j]
    ensures forall x :: multiset(xs)[x] == if x in xs then 1 else 0
  {
    if xs != [] {
      var ys := xs[..|xs| - 1];
      DistinctCounts(ys);
      assert xs == ys + [xs[|xs| - 1]];
      assert xs[|xs| - 1] !in ys;
    }
  }

  /** A walk from the start frame that ends with an empty stack pops every frame it pushed
      exactly once (only the start frame can come round again), sends exactly one request
      per popped email-like frame, in pop order, and pops the successors of every frame it
      pops. */
  lemma ExhaustedWalkIsComplete(g: Graph, now: int, start: Value)
    requires Explore(g, now, InitialWalk(start)).1 == Exhausted
    ensures var w := Explore(g, now, InitialWalk(start)).0;
            multiset(w.popped) == multiset([Frame(start, 0)] + w.pushed) &&
            (forall f :: f != Frame(start, 0) ==> multiset(w.popped)[f] == if f in w.visited then 1 else 0) &&
            w.sent == Emits(g, now, w.popped) &&
            (forall f, s :: f in w.popped && s in Successors(g, f) ==> s in w.popped)
  {
    var w0 := InitialWalk(start);
    assert Accounted(g, now, start, w0);
    ExploreAccounts(g, now, start, w0);
    var w := Explore(g, now, w0).0;
    assert multiset(w.popped) == multiset([Frame(start, 0)] + w.pushed);
    DistinctCounts(w.pushed);
    forall f, s | f in w.popped && s in Successors(g, f) ensures s in w.popped {
      assert s in w.pushed;
      assert multiset(w.popped)[s] >= multiset(w.pushed)[s] >= 1;
    }
  }

  /** Every frame on a path of successors from the start frame is popped, and so scheduled
      when its node is email-like, by a walk that ends with an empty stack. */
  lemma {:induction false} ExhaustedWalkReachesAll(g: Graph, now: int, start: Value, path: seq<Frame>)
    requires Explore(g, now, InitialWalk(start)).1 == Exhausted
    requires path != [] && path[0] == Frame(start, 0)
    requires forall i :: 0 <= i < |path| - 1 ==> path[i + 1] in Successors(g, path[i])
    ensures forall i :: 0 <= i < |path| ==> path[i] in Explore(g, now, InitialWalk(start)).0.popped
    decreases |path|
  {
    var w := Explore(g, now, InitialWalk(start)).0;
    ExhaustedWalkIsComplete(g, now, start);
    if |path| == 1 {
      assert multiset(w.popped)[Frame(start, 0)] >= 1;
    } else {
      var prefix := path[..|path| - 1];
      ExhaustedWalkReachesAll(g, now, start, prefix);
      assert path[|path| - 2] == prefix[|prefix| - 1];
      forall i | 0 <= i < |path| ensures path[i] in w.popped {
        if i < |path| - 1 { assert path[i] == prefix[i]; }
      }
    }
  }

  // ---------------------------------------------------------------------------
  // The schedule is relative: triggering later moves every eta by the same amount.

  function ShiftRequest(r: Request, d: int): Request {
    r.(eta := if r.eta.Some? then Some(r.eta.value + d) else None)
  }

  function ShiftAll(rs: seq<Request>, d: int): (r: seq<Request>)
    ensures |r| == |rs| && forall i :: 0 <= i < |rs| ==> r[i] == ShiftRequest(rs[i], d)
  {
    if rs == [] then [] else [ShiftRequest(rs[0], d)] + ShiftAll(rs[1..], d)
  }

  function ShiftWalk(w: Walk, d: int): Walk { w.(sent := ShiftAll(w.sent, d)) }

  lemma {:induction false} PushShift(ts: seq<Value>, acc: int, w: Walk, d: int)
    ensures PushTargets(ts, acc, ShiftWalk(w, d)).Next? == PushTargets(ts, acc, w).Next?
    ensures PushTargets(ts, acc, ShiftWalk(w, d)).w == ShiftWalk(PushTargets(ts, acc, w).w, d)
    decreases |ts|
  {
    if ts != [] && Hashable(ts[0]) {
      var key := Frame(ts[0], acc);
      if key in w.visited { PushShift(ts[1..], acc, w, d); }
      else { PushShift(ts[1..], acc, w.(stack := w.stack + [key], visited := w.visited + {key}, pushed := w.pushed + [key]), d); }
    }
  }

  lemma StepShift(g: Graph, now: int, w: Walk, d: int)
    requires w.stack != []
    ensures Step(g, now + d, ShiftWalk(w, d)).Next? == Step(g, now, w).Next?
    ensures Step(g, now + d, ShiftWalk(w, d)).w == ShiftWalk(Step(g, now, w).w, d)
  {
    var f := w.stack[|w.stack| - 1];
    var w1 := w.(stack := w.stack[..|w.stack| - 1], steps := w.steps + 1, popped := w.popped + [f]);
    match Find(g.nodes, f.id)
    case None =>
    case Some(node) =>
      if Truthy(node) && VisitNode(node, f.acc).Some? {
        var (acc, emit) := VisitNode(node, f.acc).value;
        var w2 := if emit then w1.(sent := w1.sent + [RequestFor(node, acc, now)]) else w1;
        var v2 := if emit then ShiftWalk(w1, d).(sent := ShiftWalk(w1, d).sent + [RequestFor(node, acc, now + d)]) else ShiftWalk(w1, d);
        assert v2 == ShiftWalk(w2, d);
        PushShift(Targets(g.adjacency, f.id), acc, w2, d);
      }
  }

  lemma {:induction false} ExploreShift(g: Graph, now: int, w: Walk, d: int)
    requires w.steps <= MaxSteps + 1
    ensures Explore(g, now + d, ShiftWalk(w, d)).0 == ShiftWalk(Explore(g, now, w).0, d)
    ensures Explore(g, now + d, ShiftWalk(w, d)).1 == Explore(g, now, w).1
    decreases MaxSteps + 1 - w.steps
  {
    if w.stack != [] && w.steps <= MaxSteps {
      StepCounts(g, now, w);
      StepShift(g, now, w, d);
      if Step(g, now, w).Next? {
        ExploreShift(g, now, Step(g, now, w).w, d);
      }
    }
  }

  // ---------------------------------------------------------------------------
  // The whole task.

  /** Triggering the same plan d seconds later schedules the same sends, each eta d later;
      the delays (eta - now) do not depend on the clock. */
  lemma FlowScheduleIsRelative(found: bool, flowField: Value, decode: string -> Option<Value>, now: int, d: int)
    ensures ExecuteFlowSpec(found, flowField, decode, now + d).0 == ShiftAll(ExecuteFlowSpec(found, flowField, decode, now).0, d)
    ensures ExecuteFlowSpec(found, flowField, decode, now + d).1 == ExecuteFlowSpec(found, flowField, decode, now).1
  {
    var flow := FlowValue(flowField, decode);
    if found && flow.Dict? && GraphOf(flow).Some? && StartId(GraphOf(flow).value.nodes).Some? {
      var g := GraphOf(flow).value;
      var w := InitialWalk(StartId(g.nodes).value);
      assert ShiftWalk(w, d) == w;
      ExploreShift(g, now, w, d);
    }
  }

  /** What `execute_flow_task` schedules: nothing when it aborts early, exactly one immediate default
      send when there is no start node, and otherwise at most 5001 sends, each for an
      email-like node and never in the past. */
  lemma FlowOutcomes(found: bool, flowField: Value, decode: string -> Option<Value>, now: int)
    ensures var (rs, end) := ExecuteFlowSpec(found, flowField, decode, now);
            (end == PlanMissing || end == NotADict || end == GraphRaised ==> rs == []) &&
            (end == NoStart <==> rs == [Request(None, None)]) &&
            (end.Walked? ==>
               |rs| <= MaxSteps + 1 &&
               forall j :: 0 <= j < |rs| ==> rs[j].nodeId.Some? && (rs[j].eta.None? || rs[j].eta.value > now))
    ensures !found <==> ExecuteFlowSpec(found, flowField, decode, now).1 == PlanMissing
  {
    var flow := FlowValue(flowField, decode);
    if found && flow.Dict? && GraphOf(flow).Some? && StartId(GraphOf(flow).value.nodes).Some? {
      var g := GraphOf(flow).value;
      var w := InitialWalk(StartId(g.nodes).value);
      ExploreSendsFromEmailNodes(g, now, w);
      ExploreBounded(g, now, w);
      var rs := Explore(g, now, w).0.sent;
      assert |rs| > 0 ==> FromEmailNode(g, now, rs[0]);
    }
  }

  /** Along one traversal a (node, delay) pair is pushed at most once. */
  lemma FlowPushesOnce(g: Graph, now: int, start: Value)
    ensures var w := Explore(g, now, InitialWalk(start)).0;
            forall i, j :: 0 <= i < j < |w.pushed| ==> w.pushed[i] != w.pushed[j]
  {
    ExplorePushesOnce(g, now, InitialWalk(start));
  }

  /** A stored flow string that does not decode is treated as `{}`: no nodes, so the plan is
      sent once, immediately, with its own subject and body. */
  lemma UndecodableFlowFallsBack(s: string, decode: string -> Option<Value>, now: int)
    requires s != "" && decode(s).None?
    ensures ExecuteFlowSpec(true, Str(s), decode, now) == ([Request(None, None)], NoStart)
  {
    assert FlowValue(Str(s), decode) == Dict([]);
    assert GraphOf(Dict([])) == Some(Graph([], map[]));
  }

  /** A flow whose nodes are missing or empty falls back to one immediate send. */
  lemma EmptyFlowFallsBack(flowField: Value, decode: string -> Option<Value>, now: int)
    requires var f := FlowValue(flowField, decode); f.Dict? && !Truthy(Get(f, "nodes")) && GraphOf(f).Some?
    ensures ExecuteFlowSpec(true, flowField, decode, now) == ([Request(None, None)], NoStart)
  {
  }

  /** A non-empty list stored as the flow schedules nothing; an empty one is falsy, becomes
      `{}` and falls back to the immediate send. */
  lemma ListFlowSchedulesNothing(items: seq<Value>, decode: string -> Option<Value>, now: int)
    ensures items != [] ==> ExecuteFlowSpec(true, List(items), decode, now) == ([], NotADict)
    ensures items == [] ==> ExecuteFlowSpec(true, List(items), decode, now) == ([Request(None, None)], NoStart)
  {
  }
}
