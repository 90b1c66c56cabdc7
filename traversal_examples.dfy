/**
 * Worked traversals on small graphs.
 */
module TraversalExamples {
  import opened Values
  import opened Duration
  import opened FlowGraph
  import opened Traversal

  function StartNode(): Value { Dict([("id", Str("s")), ("type", Str("start"))]) }
  function DelayData(): Value { Dict([("duration", Int(30)), ("unit", Str("minutes"))]) }
  function DelayNode(): Value { Dict([("id", Str("d")), ("type", Str("delay")), ("data", DelayData())]) }
  function EmailNode(): Value { Dict([("id", Str("e")), ("type", Str("email"))]) }

  /** start -> delay(30 minutes) -> email. */
  function DelayChain(): Graph {
    Graph([(Str("s"), StartNode()), (Str("d"), DelayNode()), (Str("e"), EmailNode())],
          map[Str("s") := [Str("d")], Str("d") := [Str("e")]])
  }

  lemma DelayChainNodes()
    ensures Find(DelayChain().nodes, Str("s")) == Some(StartNode())
    ensures Find(DelayChain().nodes, Str("d")) == Some(DelayNode())
    ensures Find(DelayChain().nodes, Str("e")) == Some(EmailNode())
  {
    assert Str("s") != Str("d") && Str("s") != Str("e") && Str("d") != Str("e");
  }

  lemma DelayNodeFields()
    ensures Get(DelayNode(), "type") == Str("delay")
    ensures Get(DelayNode(), "data") == DelayData()
  {
    assert "type" != "id";
    assert "data" != "id" && "data" != "type";
  }

  lemma DelayDataFields()
    ensures Get(DelayData(), "duration") == Int(30)
    ensures Get(DelayData(), "unit") == Str("minutes")
    ensures Get(DelayData(), "recipient_email") == Null
    ensures Get(DelayData(), "recipient") == Null
  {
    assert "unit" != "duration";
    assert "recipient_email" != "duration" && "recipient_email" != "unit";
    assert "recipient" != "duration" && "recipient" != "unit";
  }

  lemma DelayOfExample()
    ensures DelayOf(DelayNode()) == Some(1800)
  {
    DelayNodeFields();
    DelayDataFields();
    assert DelayOf(DelayNode()) == DurationSeconds(Int(30), Str("minutes"));
    DurationIsFactorTimesValue(Int(30), "minutes");
    MinutesFactor();
  }

  lemma DelayNodeVisit(acc: int)
    ensures VisitNode(DelayNode(), acc) == Some((acc + 1800, false))
  {
    DelayNodeFields();
    DelayDataFields();
    DelayOfExample();
    assert DelayTest(DelayNode()) == Some(true);
    assert EmailTest(DelayNode()) == Some(false);
  }

  lemma PlainNodeVisits(acc: int)
    ensures VisitNode(StartNode(), acc) == Some((acc, false))
    ensures VisitNode(EmailNode(), acc) == Some((acc, true))
  {
    assert Get(StartNode(), "type") == Str("start") && Get(StartNode(), "data") == Null;
    assert Get(EmailNode(), "type") == Str("email") && Get(EmailNode(), "data") == Null;
  }

  lemma DelayChainStart()
    ensures StartId(DelayChain().nodes) == Some(Str("s"))
  {
    assert Get(StartNode(), "type") == Str("start");
    assert IsStartNode(StartNode());
    assert FirstStart(DelayChain().nodes) == Some(Str("s"));
  }

  lemma DelayChainTargets()
    ensures Targets(DelayChain().adjacency, Str("s")) == [Str("d")]
    ensures Targets(DelayChain().adjacency, Str("d")) == [Str("e")]
    ensures Targets(DelayChain().adjacency, Str("e")) == []
  {
    assert Str("s") != Str("d") && Str("s") != Str("e") && Str("d") != Str("e");
  }

  /** Pushing one target that is not yet visited. */
  lemma PushOne(t: Value, acc: int, w: Walk)
    requires Hashable(t) && Frame(t, acc) !in w.visited
    ensures PushTargets([t], acc, w) ==
            Next(w.(stack := w.stack + [Frame(t, acc)], visited := w.visited + {Frame(t, acc)}, pushed := w.pushed + [Frame(t, acc)]))
  {
    assert [t][1..] == [];
  }

  /** One step at a node that is found, truthy and visited without raising. */
  lemma StepAt(g: Graph, now: int, w: Walk, node: Value, acc: int, emit: bool)
    requires w.stack != []
    requires Find(g.nodes, w.stack[|w.stack| - 1].id) == Some(node) && Truthy(node)
    requires VisitNode(node, w.stack[|w.stack| - 1].acc) == Some((acc, emit))
    ensures var w1 := w.(stack := w.stack[..|w.stack| - 1], steps := w.steps + 1, popped := w.popped + [w.stack[|w.stack| - 1]]);
            Step(g, now, w) ==
            PushTargets(Targets(g.adjacency, w.stack[|w.stack| - 1].id), acc,
                        if emit then w1.(sent := w1.sent + [RequestFor(node, acc, now)]) else w1)
  {
  }

  lemma DelayChainVisit1(now: int)
    ensures Step(DelayChain(), now, InitialWalk(Str("s"))) == PushTargets([Str("d")], 0, Walk([], {}, 1, [], [], [Frame(Str("s"), 0)]))
  {
    var w := InitialWalk(Str("s"));
    assert w.stack[|w.stack| - 1] == Frame(Str("s"), 0);
    assert w.(stack := w.stack[..|w.stack| - 1], steps := w.steps + 1, popped := w.popped + [Frame(Str("s"), 0)]) ==
           Walk([], {}, 1, [], [], [Frame(Str("s"), 0)]);
    DelayChainNodes();
    DelayChainTargets();
    PlainNodeVisits(0);
    assert Truthy(StartNode());
    StepAt(DelayChain(), now, w, StartNode(), 0, false);
  }

  lemma DelayChainStep1(now: int)
    ensures Step(DelayChain(), now, InitialWalk(Str("s"))) ==
            Next(Walk([Frame(Str("d"), 0)], {Frame(Str("d"), 0)}, 1, [], [Frame(Str("d"), 0)], [Frame(Str("s"), 0)]))
  {
    DelayChainVisit1(now);
    PushOne(Str("d"), 0, Walk([], {}, 1, [], [], [Frame(Str("s"), 0)]));
  }

  lemma DelayChainVisit2(now: int)
    ensures var fs, fd := Frame(Str("s"), 0), Frame(Str("d"), 0);
            Step(DelayChain(), now, Walk([fd], {fd}, 1, [], [fd], [fs])) == PushTargets([Str("e")], 1800, Walk([], {fd}, 2, [], [fd], [fs, fd]))
  {
    var fs, fd := Frame(Str("s"), 0), Frame(Str("d"), 0);
    var w := Walk([fd], {fd}, 1, [], [fd], [fs]);
    assert w.stack[|w.stack| - 1] == fd;
    assert w.(stack := w.stack[..|w.stack| - 1], steps := w.steps + 1, popped := w.popped + [fd]) == Walk([], {fd}, 2, [], [fd], [fs, fd]);
    DelayChainNodes();
    DelayChainTargets();
    DelayNodeVisit(0);
    assert Truthy(DelayNode());
    StepAt(DelayChain(), now, w, DelayNode(), 1800, false);
  }

  lemma DelayChainStep2(now: int)
    ensures var fs, fd, fe := Frame(Str("s"), 0), Frame(Str("d"), 0), Frame(Str("e"), 1800);
            Step(DelayChain(), now, Walk([fd], {fd}, 1, [], [fd], [fs])) ==
            Next(Walk([fe], {fd, fe}, 2, [], [fd, fe], [fs, fd]))
  {
    var fs, fd, fe := Frame(Str("s"), 0), Frame(Str("d"), 0), Frame(Str("e"), 1800);
    DelayChainVisit2(now);
    assert fe != fd;
    PushOne(Str("e"), 1800, Walk([], {fd}, 2, [], [fd], [fs, fd]));
  }

  lemma DelayChainVisit3(now: int)
    ensures var fs, fd, fe := Frame(Str("s"), 0), Frame(Str("d"), 0), Frame(Str("e"), 1800);
            Step(DelayChain(), now, Walk([fe], {fd, fe}, 2, [], [fd, fe], [fs, fd])) ==
            PushTargets([], 1800, Walk([], {fd, fe}, 3, [RequestFor(EmailNode(), 1800, now)], [fd, fe], [fs, fd, fe]))
  {
    var fs, fd, fe := Frame(Str("s"), 0), Frame(Str("d"), 0), Frame(Str("e"), 1800);
    var w := Walk([fe], {fd, fe}, 2, [], [fd, fe], [fs, fd]);
    assert w.stack[|w.stack| - 1] == fe;
    assert w.(stack := w.stack[..|w.stack| - 1], steps := w.steps + 1, popped := w.popped + [fe]) == Walk([], {fd, fe}, 3, [], [fd, fe], [fs, fd, fe]);
    DelayChainNodes();
    DelayChainTargets();
    PlainNodeVisits(1800);
    assert Truthy(EmailNode());
    StepAt(DelayChain(), now, w, EmailNode(), 1800, true);
  }

  lemma DelayChainStep3(now: int)
    ensures var fs, fd, fe := Frame(Str("s"), 0), Frame(Str("d"), 0), Frame(Str("e"), 1800);
            Step(DelayChain(), now, Walk([fe], {fd, fe}, 2, [], [fd, fe], [fs, fd])) ==
            Next(Walk([], {fd, fe}, 3, [Request(Some(Str("e")), Some(now + 1800))], [fd, fe], [fs, fd, fe]))
  {
    DelayChainVisit3(now);
    assert Get(EmailNode(), "id") == Str("e") by { assert "type" != "id"; }
    assert RequestFor(EmailNode(), 1800, now) == Request(Some(Str("e")), Some(now + 1800));
  }

  /** The start node is found, the delay adds 1800 seconds and the email node is sent once,
      1800 seconds after the trigger. */
  lemma DelayChainExample(now: int)
    ensures StartId(DelayChain().nodes) == Some(Str("s"))
    ensures Explore(DelayChain(), now, InitialWalk(Str("s"))) ==
            (Walk([], {Frame(Str("d"), 0), Frame(Str("e"), 1800)}, 3, [Request(Some(Str("e")), Some(now + 1800))],
                  [Frame(Str("d"), 0), Frame(Str("e"), 1800)], [Frame(Str("s"), 0), Frame(Str("d"), 0), Frame(Str("e"), 1800)]), Exhausted)
  {
    DelayChainStart();
    DelayChainStep1(now);
    DelayChainStep2(now);
    DelayChainStep3(now);
  }

  /** An email node that is the start node and has an edge to itself. */
  function LoopNode(): Value { Dict([("id", Str("start")), ("type", Str("email"))]) }

  function SelfLoop(): Graph {
    Graph([(Str("start"), LoopNode())], map[Str("start") := [Str("start")]])
  }

  lemma SelfLoopFacts()
    ensures StartId(SelfLoop().nodes) == Some(Str("start"))
    ensures Find(SelfLoop().nodes, Str("start")) == Some(LoopNode())
    ensures Get(LoopNode(), "id") == Str("start")
    ensures VisitNode(LoopNode(), 0) == Some((0, true))
    ensures Targets(SelfLoop().adjacency, Str("start")) == [Str("start")]
  {
    var n := LoopNode();
    assert "type" != "id" && "data" != "id" && "data" != "type";
    assert Get(n, "id") == Str("start") && Get(n, "type") == Str("email") && Get(n, "data") == Null;
    assert IsStartNode(n);
    assert FirstStart(SelfLoop().nodes) == Some(Str("start"));
  }

  /** The start pair is never put in the visited set, so a start node with a self-loop is
      expanded twice and its email is sent twice, both immediately. */
  lemma SelfLoopSendsTwice(now: int)
    ensures StartId(SelfLoop().nodes) == Some(Str("start"))
    ensures Explore(SelfLoop(), now, InitialWalk(Str("start"))).0.sent ==
            [Request(Some(Str("start")), None), Request(Some(Str("start")), None)]
  {
    SelfLoopFacts();
    var f := Frame(Str("start"), 0);
    var r := Request(Some(Str("start")), None);
    SelfLoopFirstStep(now);
    SelfLoopSecondStep(now);
  }

  lemma SelfLoopFirstStep(now: int)
    ensures var f := Frame(Str("start"), 0);
            var r := Request(Some(Str("start")), None);
            Step(SelfLoop(), now, InitialWalk(Str("start"))) == Next(Walk([f], {f}, 1, [r], [f], [f]))
  {
    SelfLoopFacts();
  }

  lemma SelfLoopSecondStep(now: int)
    ensures var f := Frame(Str("start"), 0);
            var r := Request(Some(Str("start")), None);
            Step(SelfLoop(), now, Walk([f], {f}, 1, [r], [f], [f])) == Next(Walk([], {f}, 2, [r, r], [f], [f, f]))
  {
    SelfLoopFacts();
  }
}
