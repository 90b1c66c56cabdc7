/**
 * The plan serializer's recipient rule: the recipient shown for a plan is the
 * first address found in its flow, else the stored field.
 */
module Serializer {
  import opened Values

  /** The node loop of `_compute_recipient_from_flow`: the address of the first qualifying
      node (type "email", or a truthy recipient field) that has one. A node whose `data` is
      a truthy non-dict makes `data.get` raise, and the search ends with None. */
  function FirstRecipientIn(nodes: seq<Value>): (r: Option<Value>)
    ensures r.Some? ==> Truthy(r.value)
  {
    if nodes == [] then None
    else
      var n := nodes[0];
      if !n.Dict? then FirstRecipientIn(nodes[1..])
      else
        var data := Or(Get(n, "data"), Dict([]));
        if !data.Dict? then None
        else if Get(n, "type") == Str("email") || Truthy(Get(data, "recipient_email")) || Truthy(Get(data, "recipient")) then
          var email := Or(Get(data, "recipient_email"), Get(data, "recipient"));
          if Truthy(email) then Some(email) else FirstRecipientIn(nodes[1..])
        else FirstRecipientIn(nodes[1..])
  }

  /** `_compute_recipient_from_flow(flow_obj)`. A string is decoded (failure: None); a
      non-dict flow, or a `nodes` entry that is not a list, finds nothing. */
  function ComputeRecipientFromFlow(flowObj: Value, decode: string -> Option<Value>): (r: Option<Value>)
    ensures r.Some? ==> Truthy(r.value) && Truthy(flowObj) && (flowObj.Str? || flowObj.Dict?)
  {
    if !Truthy(flowObj) then None
    else
      var flow := if flowObj.Str? then decode(flowObj.s) else Some(flowObj);
      if flow.None? || !flow.value.Dict? then None
      else
        var nodes := Get(flow.value, "nodes");
        FirstRecipientIn(if nodes.List? then nodes.items else [])
  }

  /** The `recipient_email` override of `to_representation`: the flow's recipient if any,
      else the serialized value, else the instance attribute. */
  function ToRepresentation(rep: seq<(string, Value)>, flow: Value, instanceRecipient: Value,
                            decode: string -> Option<Value>): (r: seq<(string, Value)>)
    ensures HasKey(r, "recipient_email")
  {
    var fromFlow := ComputeRecipientFromFlow(flow, decode);
    var fallback := Or(match Find(rep, "recipient_email") case Some(v) => v case None => Null, instanceRecipient);
    SetKeys(rep, "recipient_email", if fromFlow.Some? then fromFlow.value else fallback);
    Set(rep, "recipient_email", if fromFlow.Some? then fromFlow.value else fallback)
  }

  // ---------------------------------------------------------------------------
  // Properties.

  /** A node that yields an address: a dict with dict (or empty) data that qualifies and has
      a truthy `recipient_email` or `recipient`. */
  predicate Yields(n: Value, email: Value) {
    n.Dict? && Or(Get(n, "data"), Dict([])).Dict? &&
    var data := Or(Get(n, "data"), Dict([]));
    Truthy(email) && email == Or(Get(data, "recipient_email"), Get(data, "recipient"))
  }

  /** A node the search passes over: not a dict, or a dict whose data is a dict without
      an address. */
  predicate PassedOver(n: Value) {
    !n.Dict? ||
    (Or(Get(n, "data"), Dict([])).Dict? &&
     !Truthy(Or(Get(Or(Get(n, "data"), Dict([])), "recipient_email"), Get(Or(Get(n, "data"), Dict([])), "recipient"))))
  }

  /** A node that ends the search: a dict whose data is truthy but not a dict, so that
      `data.get` raises. */
  predicate Stops(n: Value) {
    n.Dict? && !Or(Get(n, "data"), Dict([])).Dict?
  }

  /** The search returns the address of node i when every node before i is passed over
      (qualifying nodes without an address included) and node i yields it; it returns None
      when node i stops it instead; and whatever it returns is the address of such a node. */
  lemma {:induction false} FirstRecipientIsFirstYield(nodes: seq<Value>, i: nat, email: Value)
    requires i < |nodes|
    ensures (forall j :: 0 <= j < i ==> PassedOver(nodes[j])) && Yields(nodes[i], email) ==>
            FirstRecipientIn(nodes) == Some(email)
    ensures (forall j :: 0 <= j < i ==> PassedOver(nodes[j])) && Stops(nodes[i]) ==>
            FirstRecipientIn(nodes) == None
    ensures FirstRecipientIn(nodes).Some? ==>
            exists m :: 0 <= m < |nodes| && Yields(nodes[m], FirstRecipientIn(nodes).value) &&
                        forall j :: 0 <= j < m ==> PassedOver(nodes[j])
  {
    if (forall j :: 0 <= j < i ==> PassedOver(nodes[j])) && i > 0 {
      assert PassedOver(nodes[0]);
      assert forall j :: 0 <= j < i - 1 ==> nodes[1..][j] == nodes[j + 1];
      FirstRecipientIsFirstYield(nodes[1..], i - 1, email);
    }
    FoundIsAYield(nodes);
  }

  lemma {:induction false} FoundIsAYield(nodes: seq<Value>)
    ensures FirstRecipientIn(nodes).Some? ==>
            exists m :: 0 <= m < |nodes| && Yields(nodes[m], FirstRecipientIn(nodes).value) &&
                        forall j :: 0 <= j < m ==> PassedOver(nodes[j])
  {
    var r := FirstRecipientIn(nodes);
    if r.Some? && FirstRecipientIn(nodes[1..]) == r && !Yields(nodes[0], r.value) {
      FoundIsAYield(nodes[1..]);
      var m :| 0 <= m < |nodes[1..]| && Yields(nodes[1..][m], r.value) &&
               forall j :: 0 <= j < m ==> PassedOver(nodes[1..][j]);
      assert PassedOver(nodes[0]);
      assert Yields(nodes[m + 1], r.value);
      assert forall j :: 1 <= j < m + 1 ==> nodes[j] == nodes[1..][j - 1];
    } else if r.Some? {
      assert Yields(nodes[0], r.value);
    }
  }

  /** When every node is passed over, the search finds nothing. */
  lemma {:induction false} NoRecipientWhenAllPassedOver(nodes: seq<Value>)
    requires forall j :: 0 <= j < |nodes| ==> PassedOver(nodes[j])
    ensures FirstRecipientIn(nodes) == None
  {
    if nodes != [] {
      assert PassedOver(nodes[0]);
      NoRecipientWhenAllPassedOver(nodes[1..]);
    }
  }

  /** Only `recipient_email` changes, and it holds the flow's recipient when there is one,
      otherwise the serialized value or the instance attribute. */
  lemma ToRepresentationChangesOnlyRecipient(rep: seq<(string, Value)>, flow: Value, instanceRecipient: Value,
                                              decode: string -> Option<Value>, k: string)
    ensures var r := ToRepresentation(rep, flow, instanceRecipient, decode);
            var fromFlow := ComputeRecipientFromFlow(flow, decode);
            (k != "recipient_email" ==> Find(r, k) == Find(rep, k)) &&
            (fromFlow.Some? ==> Find(r, "recipient_email") == fromFlow) &&
            (fromFlow.None? && Find(rep, "recipient_email").Some? && Truthy(Find(rep, "recipient_email").value) ==>
               Find(r, "recipient_email") == Find(rep, "recipient_email")) &&
            (fromFlow.None? && !(Find(rep, "recipient_email").Some? && Truthy(Find(rep, "recipient_email").value)) ==>
               Find(r, "recipient_email") == Some(instanceRecipient)) &&
            (KeysUnique(rep) ==> KeysUnique(r)) &&
            (forall k' :: HasKey(r, k') <==> HasKey(rep, k') || k' == "recipient_email")
  {
    var fromFlow := ComputeRecipientFromFlow(flow, decode);
    var fallback := Or(match Find(rep, "recipient_email") case Some(v) => v case None => Null, instanceRecipient);
    var v := if fromFlow.Some? then fromFlow.value else fallback;
    SetFind(rep, "recipient_email", v, k);
    SetFind(rep, "recipient_email", v, "recipient_email");
    SetKeys(rep, "recipient_email", v);
  }

  /** An unparsable stored string, a falsy flow and a non-dict flow all give None. */
  lemma NoFlowNoRecipient(flowObj: Value, decode: string -> Option<Value>)
    ensures !Truthy(flowObj) ==> ComputeRecipientFromFlow(flowObj, decode) == None
    ensures flowObj.Str? && decode(flowObj.s).None? ==> ComputeRecipientFromFlow(flowObj, decode) == None
    ensures Truthy(flowObj) && !flowObj.Str? && !flowObj.Dict? ==> ComputeRecipientFromFlow(flowObj, decode) == None
  {
  }
}
