/**
 * Flow graph model: turns a flow mapping `{nodes: [...], edges: [...]}` into an
 * ordered node map (id -> node) and an adjacency mapping (source -> targets).
 */
module FlowGraph {
  import opened Values

  /** Node id -> node, in the order the ids were first inserted (a Python dict). */
  type NodeMap = seq<(Value, Value)>
  type Adjacency = map<Value, seq<Value>>

  datatype Graph = Graph(nodes: NodeMap, adjacency: Adjacency)

  /** `flow.get(key, []) or []`, iterated: a falsy entry is empty, a list gives its
      items, and any other truthy value makes the loop raise (its items, if any,
      are not dicts) — None. */
  function ItemsOf(flow: Value, key: string): Option<seq<Value>> {
    var v := Get(flow, key);
    if !Truthy(v) then Some([]) else if v.List? then Some(v.items) else None
  }

  /** A node entry the loop `nodes_map[n.get("id")] = n` accepts. */
  predicate NodeEntryOk(n: Value) { n.Dict? && Hashable(Get(n, "id")) }

  /** An edge that survives `if not src or not tgt: continue`. */
  predicate Kept(e: Value) { Truthy(Get(e, "source")) && Truthy(Get(e, "target")) }

  /** An edge entry the loop accepts: a dict whose kept source can be a dict key. */
  predicate EdgeEntryOk(e: Value) { e.Dict? && (Kept(e) ==> Hashable(Get(e, "source"))) }

  /** The node map after inserting ns in order: a later duplicate id takes over the
      value but keeps the position of the first insertion. */
  function NodesMapOf(ns: seq<Value>): (r: NodeMap)
    ensures KeysUnique(r) && |r| <= |ns|
    ensures forall k :: HasKey(r, k) <==> HasId(ns, k)
  {
    if ns == [] then []
    else
      var init := ns[..|ns| - 1];
      var n := ns[|ns| - 1];
      SetKeys(NodesMapOf(init), Get(n, "id"), n);
      HasIdSnoc(ns);
      Set(NodesMapOf(init), Get(n, "id"), n)
  }

  /** Some entry of ns carries the id k. */
  predicate HasId(ns: seq<Value>, k: Value) { exists i :: 0 <= i < |ns| && Get(ns[i], "id") == k }

  lemma HasIdSnoc(ns: seq<Value>)
    requires ns != []
    ensures forall k :: HasId(ns, k) <==> HasId(ns[..|ns| - 1], k) || k == Get(ns[|ns| - 1], "id")
  {
    var init := ns[..|ns| - 1];
    forall k ensures HasId(ns, k) <==> HasId(init, k) || k == Get(ns[|ns| - 1], "id") {
      if HasId(init, k) {
        var i :| 0 <= i < |init| && Get(init[i], "id") == k;
        assert ns[i] == init[i];
      }
      if HasId(ns, k) {
        var i :| 0 <= i < |ns| && Get(ns[i], "id") == k;
        if i < |init| { assert init[i] == ns[i]; }
      }
    }
  }

  function Targets(adj: Adjacency, src: Value): seq<Value> {
    if src in adj then adj[src] else []
  }

  /** The adjacency after `adjacency.setdefault(src, []).append(tgt)` for each kept edge. */
  function AdjacencyOf(es: seq<Value>): (r: Adjacency)
    ensures forall src :: src in r ==> Truthy(src) && r[src] != []
  {
    if es == [] then map[]
    else
      var adj := AdjacencyOf(es[..|es| - 1]);
      var e := es[|es| - 1];
      if Kept(e) then adj[Get(e, "source") := Targets(adj, Get(e, "source")) + [Get(e, "target")]] else adj
  }

  /** What `_flow_to_graph(flow)` returns, None when it raises. */
  function GraphOf(flow: Value): (r: Option<Graph>)
    ensures Truthy(Get(flow, "nodes")) && !Get(flow, "nodes").List? ==> r.None?
    ensures Truthy(Get(flow, "edges")) && !Get(flow, "edges").List? ==> r.None?
    ensures !Truthy(Get(flow, "nodes")) && !Truthy(Get(flow, "edges")) ==> r == Some(Graph([], map[]))
    ensures r.Some? ==> KeysUnique(r.value.nodes) && forall src :: src in r.value.adjacency ==> Truthy(src)
  {
    match (ItemsOf(flow, "nodes"), ItemsOf(flow, "edges"))
    case (Some(ns), Some(es)) =>
      if (forall i :: 0 <= i < |ns| ==> NodeEntryOk(ns[i])) && (forall j :: 0 <= j < |es| ==> EdgeEntryOk(es[j]))
      then Some(Graph(NodesMapOf(ns), AdjacencyOf(es)))
      else None
    case _ => None
  }

  /** The node loop of `_flow_to_graph`: None when an entry makes it raise. */
  method BuildNodesMap(ns: seq<Value>) returns (r: Option<NodeMap>)
    ensures r.Some? <==> forall k :: 0 <= k < |ns| ==> NodeEntryOk(ns[k])
    ensures r.Some? ==> r.value == NodesMapOf(ns)
  {
    var nodesMap: NodeMap := [];
    var i := 0;
    while i < |ns|
      invariant 0 <= i <= |ns|
      invariant forall k :: 0 <= k < i ==> NodeEntryOk(ns[k])
      invariant nodesMap == NodesMapOf(ns[..i])
    {
      var n := ns[i];
      if !NodeEntryOk(n) {
        return None;
      }
      assert ns[..i + 1][..i] == ns[..i];
      nodesMap := Set(nodesMap, Get(n, "id"), n);
      i := i + 1;
    }
    assert ns[..i] == ns;
    r := Some(nodesMap);
  }

  /** The edge loop of `_flow_to_graph`: None when an entry makes it raise. */
  method BuildAdjacency(es: seq<Value>) returns (r: Option<Adjacency>)
    ensures r.Some? <==> forall k :: 0 <= k < |es| ==> EdgeEntryOk(es[k])
    ensures r.Some? ==> r.value == AdjacencyOf(es)
  {
    var adjacency: Adjacency := map[];
    var j := 0;
    while j < |es|
      invariant 0 <= j <= |es|
      invariant forall k :: 0 <= k < j ==> EdgeEntryOk(es[k])
      invariant adjacency == AdjacencyOf(es[..j])
    {
      var e := es[j];
      if !EdgeEntryOk(e) {
        return None;
      }
      assert es[..j + 1][..j] == es[..j];
      var src, tgt := Get(e, "source"), Get(e, "target");
      if Truthy(src) && Truthy(tgt) {
        adjacency := adjacency[src := Targets(adjacency, src) + [tgt]];
      }
      j := j + 1;
    }
    assert es[..j] == es;
    r := Some(adjacency);
  }

  /** `_flow_to_graph(flow)`, built in place as the source does. */
  method FlowToGraph(flow: Value) returns (g: Option<Graph>)
    requires flow.Dict?
    ensures g == GraphOf(flow)
  {
    var nodesItems := ItemsOf(flow, "nodes");
    var edgesItems := ItemsOf(flow, "edges");
    if nodesItems.None? || edgesItems.None? {
      return None;
    }
    var nodesMap := BuildNodesMap(nodesItems.value);
    if nodesMap.None? {
      return None;
    }
    var adjacency := BuildAdjacency(edgesItems.value);
    if adjacency.None? {
      return None;
    }
    g := Some(Graph(nodesMap.value, adjacency.value));
  }

  // ---------------------------------------------------------------------------
  // Properties.

  /** The last node in ns carrying id k, if any. */
  function LastWithId(ns: seq<Value>, k: Value): Option<Value> {
    if ns == [] then None
    else if Get(ns[|ns| - 1], "id") == k then Some(ns[|ns| - 1])
    else LastWithId(ns[..|ns| - 1], k)
  }

  /** A later node with a duplicate id replaces the earlier one; ids are never repeated. */
  lemma {:induction false} NodesMapLookup(ns: seq<Value>, k: Value)
    ensures Find(NodesMapOf(ns), k) == LastWithId(ns, k)
    ensures KeysUnique(NodesMapOf(ns))
  {
    if ns != [] {
      var n := ns[|ns| - 1];
      NodesMapLookup(ns[..|ns| - 1], k);
      SetFind(NodesMapOf(ns[..|ns| - 1]), Get(n, "id"), n, k);
      SetKeys(NodesMapOf(ns[..|ns| - 1]), Get(n, "id"), n);
    }
  }

  /** Every entry of the node map is stored under its own id. */
  lemma {:induction false} NodesMapStoresById(ns: seq<Value>, i: nat)
    requires i < |NodesMapOf(ns)|
    ensures Get(NodesMapOf(ns)[i].1, "id") == NodesMapOf(ns)[i].0
  {
    var m := NodesMapOf(ns);
    NodesMapLookup(ns, m[i].0);
    assert Find(m, m[i].0) == Some(m[i].1) by { UniqueFind(m, i); }
    LastWithIdHasId(ns, m[i].0);
  }

  lemma {:induction false} LastWithIdHasId(ns: seq<Value>, k: Value)
    ensures LastWithId(ns, k).Some? ==> Get(LastWithId(ns, k).value, "id") == k
  {
    if ns != [] && Get(ns[|ns| - 1], "id") != k { LastWithIdHasId(ns[..|ns| - 1], k); }
  }

  /** In a map with unique keys, looking up the key at position i finds the value there. */
  lemma {:induction false} UniqueFind<K, V>(m: seq<(K, V)>, i: nat)
    requires KeysUnique(m) && i < |m|
    ensures Find(m, m[i].0) == Some(m[i].1)
  {
    if i > 0 {
      assert m[0].0 != m[i].0;
      assert m[1..][i - 1] == m[i];
      UniqueFind(m[1..], i - 1);
    }
  }

  /** The targets recorded for src, in edge order: those of the kept edges leaving src. */
  function TargetsFrom(es: seq<Value>, src: Value): seq<Value> {
    if es == [] then []
    else
      var e := es[0];
      (if Kept(e) && Get(e, "source") == src then [Get(e, "target")] else []) + TargetsFrom(es[1..], src)
  }

  lemma {:induction false} TargetsFromAppend(es: seq<Value>, e: Value, src: Value)
    ensures TargetsFrom(es + [e], src) == TargetsFrom(es, src) + (if Kept(e) && Get(e, "source") == src then [Get(e, "target")] else [])
  {
    if es != [] {
      assert (es + [e])[1..] == es[1..] + [e];
      TargetsFromAppend(es[1..], e, src);
    }
  }

  /** Each source's target list is exactly its kept edges' targets in edge order;
      edges with a falsy source or target are dropped. */
  lemma {:induction false} AdjacencyKeepsEdgeOrder(es: seq<Value>, src: Value)
    ensures Targets(AdjacencyOf(es), src) == TargetsFrom(es, src)
    ensures src in AdjacencyOf(es) ==> Truthy(src) && AdjacencyOf(es)[src] != []
  {
    if es != [] {
      var init := es[..|es| - 1];
      AdjacencyKeepsEdgeOrder(init, src);
      assert init + [es[|es| - 1]] == es;
      TargetsFromAppend(init, es[|es| - 1], src);
    }
  }

  /** Every recorded target comes from a kept edge, so it is truthy. */
  lemma {:induction false} TargetsAreTruthy(es: seq<Value>, src: Value)
    ensures forall t :: t in TargetsFrom(es, src) ==> Truthy(t)
  {
    if es != [] { TargetsAreTruthy(es[1..], src); }
  }

  /** A duplicate id keeps its first position and takes the later node. */
  lemma NodesMapExample()
    ensures var a1 := Dict([("id", Str("a")), ("type", Str("start"))]);
            var b := Dict([("id", Str("b"))]);
            var a2 := Dict([("id", Str("a")), ("type", Str("email"))]);
            NodesMapOf([a1, b, a2]) == [(Str("a"), a2), (Str("b"), b)]
  {
    var a1 := Dict([("id", Str("a")), ("type", Str("start"))]);
    var b := Dict([("id", Str("b"))]);
    var a2 := Dict([("id", Str("a")), ("type", Str("email"))]);
    assert Get(a1, "id") == Str("a") && Get(b, "id") == Str("b") && Get(a2, "id") == Str("a");
    assert [a1, b, a2][..2] == [a1, b];
    assert [a1, b][..1] == [a1];
    assert [a1][..0] == [];
    assert NodesMapOf([a1]) == [(Str("a"), a1)];
    assert Str("a") != Str("b");
    assert Set([(Str("a"), a1)], Str("b"), b) == [(Str("a"), a1)] + Set([], Str("b"), b);
    assert NodesMapOf([a1, b]) == Set(NodesMapOf([a1]), Str("b"), b);
    assert NodesMapOf([a1, b]) == [(Str("a"), a1), (Str("b"), b)];
  }

  /** The edge with an empty target is dropped. */
  lemma AdjacencyExample()
    ensures var e1 := Dict([("source", Str("a")), ("target", Str("b"))]);
            var e2 := Dict([("source", Str("a")), ("target", Str(""))]);
            AdjacencyOf([e1, e2]) == map[Str("a") := [Str("b")]]
  {
    var e1 := Dict([("source", Str("a")), ("target", Str("b"))]);
    var e2 := Dict([("source", Str("a")), ("target", Str(""))]);
    assert [e1, e2][..1] == [e1];
    assert [e1][..0] == [];
    assert Kept(e1) && Get(e1, "source") == Str("a") && Get(e1, "target") == Str("b");
    assert AdjacencyOf([e1]) == AdjacencyOf([])[Str("a") := Targets(AdjacencyOf([]), Str("a")) + [Str("b")]];
    assert AdjacencyOf([]) == map[];
    assert Targets(map[], Str("a")) == [];
    assert [] + [Str("b")] == [Str("b")];
    assert AdjacencyOf([e1]) == map[Str("a") := [Str("b")]];
    assert !Kept(e2);
  }
}
