/**
 * The plan builder page: the canvas of nodes and edges, the toolbar operations that
 * add, update and delete nodes, the loader that turns a stored plan into a canvas,
 * and the payload that saving sends back.
 */
module Builder {
  import opened Values
  import opened ListOps
  import Duration
  import FlowGraph
  import Traversal

  /** The canvas state: the node and edge arrays. */
  datatype Canvas = Canvas(nodes: seq<Value>, edges: seq<Value>)

  function Position(x: int, y: int): Value { Dict([("x", Int(x)), ("y", Int(y))]) }

  /** A node object `{ id, type, position, data }`. */
  function NodeOf(id: Value, nodeType: Value, position: Value, data: Value): Value {
    Dict([("id", id), ("type", nodeType), ("position", position), ("data", data)])
  }

  lemma NodeOfFields(id: Value, nodeType: Value, position: Value, data: Value)
    ensures var n := NodeOf(id, nodeType, position, data);
            Get(n, "id") == id && Get(n, "type") == nodeType && Get(n, "position") == position && Get(n, "data") == data
  {
    var fs := NodeOf(id, nodeType, position, data).fields;
    FindAt(fs, 0, "id");
    FindAt(fs, 1, "type");
    FindAt(fs, 2, "position");
    FindAt(fs, 3, "data");
  }

  /** An edge object `{ id, source, target }`. */
  function EdgeOf(id: Value, source: Value, target: Value): Value {
    Dict([("id", id), ("source", source), ("target", target)])
  }

  lemma EdgeOfFields(id: Value, source: Value, target: Value)
    ensures var e := EdgeOf(id, source, target);
            Get(e, "id") == id && Get(e, "source") == source && Get(e, "target") == target
  {
    var fs := EdgeOf(id, source, target).fields;
    FindAt(fs, 0, "id");
    FindAt(fs, 1, "source");
    FindAt(fs, 2, "target");
  }

  /** The single start node the page opens with. */
  function StartNode(): Value {
    Dict([("id", Str("start")), ("position", Position(300, 200)), ("data", Dict([("label", Str("Start"))])),
          ("type", Str("start"))])
  }

  /** The initial canvas, and what Reset restores. */
  function StartCanvas(): Canvas { Canvas([StartNode()], []) }

  /** The start canvas is one node whose id and type are "start", with no edges, and the
      flow executor starts from it. */
  lemma StartCanvasStartsAtStart()
    ensures |StartCanvas().nodes| == 1 && StartCanvas().edges == []
    ensures Get(StartNode(), "id") == Str("start") && Get(StartNode(), "type") == Str("start")
    ensures Traversal.StartId(FlowGraph.NodesMapOf(StartCanvas().nodes)) == Some(Str("start"))
  {
    var n := StartNode();
    FindAt(n.fields, 0, "id");
    FindAt(n.fields, 3, "type");
    assert [n][..0] == [];
    assert FlowGraph.NodesMapOf([n]) == [(Str("start"), n)];
    assert Traversal.IsStartNode(n);
  }

  // ---------------------------------------------------------------------------
  // Adding a node.

  /** The data a new node of the given type starts with. */
  function NewNodeData(nodeType: string): seq<(string, Value)> {
    var title := Str(if nodeType == "email" then "Email" else if nodeType == "trigger" then "Trigger" else "Delay");
    [("label", title)] +
    (if nodeType == "trigger" then [("trigger_type", Str("button_click"))]
     else if nodeType == "email" then [("subject", Str("")), ("body", Str("")), ("recipient_email", Str("")), ("template_vars", Dict([]))]
     else if nodeType == "delay" then [("duration", Int(1)), ("unit", Str("hours"))]
     else [])
  }

  /** `addNode(type)`: now is `Date.now()` and position the random placement. */
  function AddNode(nodes: seq<Value>, nodeType: string, now: int, position: Value): (r: seq<Value>)
    ensures |r| == |nodes| + 1 && r[..|nodes|] == nodes
    ensures var n := r[|nodes|];
            Get(n, "id") == Str(nodeType + "-" + IntText(now)) && Get(n, "type") == Str(nodeType) &&
            Get(n, "position") == position && Get(n, "data") == Dict(NewNodeData(nodeType))
  {
    var data := Dict(NewNodeData(nodeType));
    NodeOfFields(Str(nodeType + "-" + IntText(now)), Str(nodeType), position, data);
    nodes + [NodeOf(Str(nodeType + "-" + IntText(now)), Str(nodeType), position, data)]
  }

  lemma NewDelayData()
    ensures var d := Dict(NewNodeData("delay"));
            Duration.DurationSeconds(Get(d, "duration"), Get(d, "unit")) == Some(3600)
  {
    var data := NewNodeData("delay");
    assert data == [("label", Str("Delay")), ("duration", Int(1)), ("unit", Str("hours"))];
    FindAt(data, 1, "duration");
    FindAt(data, 2, "unit");
    OneHour();
  }

  lemma OneHour()
    ensures Duration.DurationSeconds(Int(1), Str("hours")) == Some(3600)
  {
    assert Lower("hours") == "hours";
  }

  lemma NewEmailData()
    ensures var d := Dict(NewNodeData("email"));
            Get(d, "subject") == Str("") && Get(d, "body") == Str("") &&
            Get(d, "recipient_email") == Str("") && Get(d, "template_vars") == Dict([])
  {
    var data := NewNodeData("email");
    assert data == [("label", Str("Email")), ("subject", Str("")), ("body", Str("")), ("recipient_email", Str("")), ("template_vars", Dict([]))];
    EmailFieldsOf(Str("Email"), Str(""), Str(""), Str(""), Dict([]));
  }

  lemma NewTriggerData()
    ensures Get(Dict(NewNodeData("trigger")), "trigger_type") == Str("button_click")
  {
    var data := NewNodeData("trigger");
    assert data == [("label", Str("Trigger")), ("trigger_type", Str("button_click"))];
    FindAt(data, 1, "trigger_type");
  }

  /** The new node is appended after the existing ones, which are untouched, with the
      type's defaults: a delay of one hour, an empty email, a button-click trigger. */
  lemma AddNodeDefaults(nodes: seq<Value>, nodeType: string, now: int, position: Value)
    ensures var r := AddNode(nodes, nodeType, now, position);
            var d := Get(r[|nodes|], "data");
            |r| == |nodes| + 1 && r[..|nodes|] == nodes &&
            Get(r[|nodes|], "type") == Str(nodeType) &&
            (nodeType == "delay" ==> Duration.DurationSeconds(Get(d, "duration"), Get(d, "unit")) == Some(3600)) &&
            (nodeType == "email" ==> Get(d, "subject") == Str("") && Get(d, "body") == Str("") &&
                                     Get(d, "recipient_email") == Str("") && Get(d, "template_vars") == Dict([])) &&
            (nodeType == "trigger" ==> Get(d, "trigger_type") == Str("button_click"))
  {
    NodeOfFields(Str(nodeType + "-" + IntText(now)), Str(nodeType), position, Dict(NewNodeData(nodeType)));
    NewDelayData();
    NewEmailData();
    NewTriggerData();
  }

  // ---------------------------------------------------------------------------
  // Updating a node's data.

  /** `{ ...(n.data || {}) }` with `key = value` set, or untouched for `__save__`. */
  function UpdatedData(n: Value, key: string, value: Value): seq<(string, Value)> {
    var d := OwnFields(JsOr(Get(n, "data"), Dict([])));
    if key == "__save__" then d else Set(d, key, value)
  }

  /** `{ ...n, data: newData }`. */
  function UpdatedNode(n: Value, key: string, value: Value): Value {
    Dict(Set(OwnFields(n), "data", Dict(UpdatedData(n, key, value))))
  }

  /** `updateNodeData(nodeId, key, value)` on the node array. */
  function UpdateNodeData(nodes: seq<Value>, nodeId: Value, key: string, value: Value): (r: seq<Value>)
    ensures |r| == |nodes|
    ensures forall i :: 0 <= i < |nodes| && Get(nodes[i], "id") != nodeId ==> r[i] == nodes[i]
    ensures forall i :: 0 <= i < |nodes| && Get(nodes[i], "id") == nodeId ==> r[i].Dict?
  {
    seq(|nodes|, i requires 0 <= i < |nodes| =>
      if Get(nodes[i], "id") != nodeId then nodes[i] else UpdatedNode(nodes[i], key, value))
  }

  /** In the updated node every field but data is kept, the data maps key to value and
      keeps every other key, and `__save__` leaves the data as it was. */
  lemma UpdatedNodeSpec(n: Value, key: string, value: Value, k: string)
    requires n.Dict?
    ensures var r := UpdatedNode(n, key, value);
            var oldData := OwnFields(JsOr(Get(n, "data"), Dict([])));
            (k != "data" ==> Get(r, k) == Get(n, k)) &&
            (key != "__save__" ==> Get(Get(r, "data"), key) == value) &&
            (k != key ==> Get(Get(r, "data"), k) == Get(Dict(oldData), k)) &&
            (key == "__save__" ==> Get(r, "data") == Dict(oldData))
  {
    var nd := Dict(UpdatedData(n, key, value));
    SetFind(n.fields, "data", nd, k);
    SetFind(n.fields, "data", nd, "data");
    var oldData := OwnFields(JsOr(Get(n, "data"), Dict([])));
    if key != "__save__" {
      SetFind(oldData, key, value, k);
      SetFind(oldData, key, value, key);
    }
  }

  /** Only the nodes carrying the id change, and they keep it. */
  lemma UpdateNodeDataSpec(nodes: seq<Value>, nodeId: Value, key: string, value: Value, i: nat)
    requires i < |nodes| && nodes[i].Dict?
    ensures var r := UpdateNodeData(nodes, nodeId, key, value);
            (Get(nodes[i], "id") != nodeId ==> r[i] == nodes[i]) &&
            (Get(nodes[i], "id") == nodeId ==> r[i] == UpdatedNode(nodes[i], key, value) && Get(r[i], "id") == nodeId)
  {
    if Get(nodes[i], "id") == nodeId {
      UpdatedNodeSpec(nodes[i], key, value, "id");
    }
  }

  /** The panel's copy of the selected node: `{ ...prev, data: { ...prev.data, [key]: value } }`,
      with no exception for `__save__`. */
  function SelectedAfterUpdate(prev: Value, nodeId: Value, key: string, value: Value): (r: Value)
    ensures !(JsTruthy(prev) && Get(prev, "id") == nodeId) ==> r == prev
    ensures JsTruthy(prev) && Get(prev, "id") == nodeId ==> Get(Get(r, "data"), key) == value
    ensures JsTruthy(prev) && Get(prev, "id") == nodeId && prev.Dict? ==>
            forall k :: k != "data" ==> Get(r, k) == Get(prev, k)
  {
    if JsTruthy(prev) && Get(prev, "id") == nodeId then
      var nd := Dict(Set(OwnFields(Get(prev, "data")), key, value));
      SetFind(OwnFields(Get(prev, "data")), key, value, key);
      SetFind(OwnFields(prev), "data", nd, "data");
      assert forall k :: k != "data" ==> Find(Set(OwnFields(prev), "data", nd), k) == Find(OwnFields(prev), k) by {
        forall k | k != "data" ensures Find(Set(OwnFields(prev), "data", nd), k) == Find(OwnFields(prev), k) {
          SetFind(OwnFields(prev), "data", nd, k);
        }
      }
      Dict(Set(OwnFields(prev), "data", nd))
    else prev
  }

  /** A `__save__` update reaches the panel's copy of the node but not the canvas. */
  lemma SaveKeyReachesOnlyThePanel(n: Value, value: Value)
    requires n.Dict? && Get(n, "data").Dict?
    ensures Get(Get(SelectedAfterUpdate(n, Get(n, "id"), "__save__", value), "data"), "__save__") == value
    ensures Get(UpdateNodeData([n], Get(n, "id"), "__save__", value)[0], "data") == Get(n, "data")
  {
    UpdateNodeDataSpec([n], Get(n, "id"), "__save__", value, 0);
    UpdatedNodeSpec(n, "__save__", value, "data");
  }

  // ---------------------------------------------------------------------------
  // Deleting the selected node.

  /** `removeSelectedNode()`: the canvas and the selection after it. The node with the
      selected id and every edge touching it go, and the selection is cleared; with no
      selection nothing changes. */
  function RemoveSelectedNode(c: Canvas, selected: Value): (r: (Canvas, Value))
    ensures !JsTruthy(selected) ==> r == (c, selected)
    ensures JsTruthy(selected) ==> r.1 == Null
    ensures JsTruthy(selected) ==>
            (forall n :: n in r.0.nodes <==> n in c.nodes && Get(n, "id") != Get(selected, "id")) &&
            (forall e :: e in r.0.edges <==> e in c.edges && Get(e, "source") != Get(selected, "id") &&
                                             Get(e, "target") != Get(selected, "id"))
  {
    if !JsTruthy(selected) then (c, selected)
    else
      var id := Get(selected, "id");
      WithoutIdMembers(c.nodes, id);
      WithoutEndpointMembers(c.edges, id);
      (Canvas(WithoutId(c.nodes, id), WithoutEndpoint(c.edges, id)), Null)
  }

  predicate HasNodeWithId(nodes: seq<Value>, id: Value) { exists n :: n in nodes && Get(n, "id") == id }

  /** Every edge's source and target are ids of nodes on the canvas. */
  predicate WellLinked(c: Canvas) {
    forall e :: e in c.edges ==> HasNodeWithId(c.nodes, Get(e, "source")) && HasNodeWithId(c.nodes, Get(e, "target"))
  }

  /** Deleting a node leaves no edge pointing at it, and never a dangling edge. */
  lemma RemoveKeepsLinks(c: Canvas, selected: Value)
    requires WellLinked(c)
    ensures WellLinked(RemoveSelectedNode(c, selected).0)
    ensures JsTruthy(selected) ==> !HasNodeWithId(RemoveSelectedNode(c, selected).0.nodes, Get(selected, "id"))
  {
    if JsTruthy(selected) {
      var id := Get(selected, "id");
      var r := RemoveSelectedNode(c, selected).0;
      WithoutIdMembers(c.nodes, id);
      WithoutEndpointMembers(c.edges, id);
      forall e | e in r.edges ensures HasNodeWithId(r.nodes, Get(e, "source")) && HasNodeWithId(r.nodes, Get(e, "target")) {
        var s :| s in c.nodes && Get(s, "id") == Get(e, "source");
        var t :| t in c.nodes && Get(t, "id") == Get(e, "target");
        assert s in r.nodes && t in r.nodes;
      }
    }
  }

  // ---------------------------------------------------------------------------
  // Recipient from the nodes.

  /** `n.data || {}`. */
  function DataOf(n: Value): Value { JsOr(Get(n, "data"), Dict([])) }

  /** `data.recipient_email || data.recipient`. */
  function NodeAddress(n: Value): Value { JsOr(Get(DataOf(n), "recipient_email"), Get(DataOf(n), "recipient")) }

  /** The node qualifies: an email node, or one with some address. */
  predicate Qualifies(n: Value) {
    Get(n, "type") == Str("email") || JsTruthy(Get(DataOf(n), "recipient_email")) || JsTruthy(Get(DataOf(n), "recipient"))
  }

  /** The node makes the loop return: non-null, qualifying, with a truthy address. */
  predicate Yields(n: Value) { JsTruthy(n) && Qualifies(n) && JsTruthy(NodeAddress(n)) }

  /** `getRecipientFromNodes(nodes)`: null (Null) when no node yields. */
  function RecipientFromNodes(nodes: seq<Value>): (r: Value)
    ensures r == Null || JsTruthy(r)
  {
    if nodes == [] then Null
    else if Yields(nodes[0]) then NodeAddress(nodes[0])
    else RecipientFromNodes(nodes[1..])
  }

  /** The answer is the address of the first node that yields, or null when none does. */
  lemma {:induction false} RecipientFromNodesIsFirst(nodes: seq<Value>)
    ensures RecipientFromNodes(nodes) == Null <==> forall i :: 0 <= i < |nodes| ==> !Yields(nodes[i])
    ensures RecipientFromNodes(nodes) != Null ==>
              exists i :: 0 <= i < |nodes| && Yields(nodes[i]) && RecipientFromNodes(nodes) == NodeAddress(nodes[i]) &&
                          forall j :: 0 <= j < i ==> !Yields(nodes[j])
  {
    if nodes != [] && !Yields(nodes[0]) {
      RecipientFromNodesIsFirst(nodes[1..]);
      if RecipientFromNodes(nodes) != Null {
        var i :| 0 <= i < |nodes[1..]| && Yields(nodes[1..][i]) && RecipientFromNodes(nodes) == NodeAddress(nodes[1..][i]) &&
                 forall j :: 0 <= j < i ==> !Yields(nodes[1..][j]);
        assert nodes[i + 1] == nodes[1..][i];
        assert forall j :: 1 <= j < i + 1 ==> nodes[j] == nodes[1..][j - 1];
      }
      assert forall i :: 1 <= i < |nodes| ==> nodes[i] == nodes[1..][i - 1];
    }
  }

  /** The type test never decides: a node yields exactly when it is non-null with an address. */
  lemma TypeTestIsRedundant(n: Value)
    ensures Yields(n) <==> JsTruthy(n) && JsTruthy(NodeAddress(n))
  {
  }

  // ---------------------------------------------------------------------------
  // Saving.

  /** What `nodes.find(pred)` gives: an index, no match, or a TypeError from reading a
      property of a null entry. */
  datatype Found = At(i: nat) | Missing | Throws

  /** The email node `savePlan` picks: type "email", or data with a subject, body or address. */
  predicate IsEmailNode(n: Value) {
    Get(n, "type") == Str("email") ||
    (JsTruthy(Get(n, "data")) &&
     JsTruthy(JsOr(JsOr(Get(Get(n, "data"), "subject"), Get(Get(n, "data"), "body")), Get(Get(n, "data"), "recipient_email"))))
  }

  /** The trigger node `savePlan` picks: type "trigger", or data with a trigger type. */
  predicate IsTriggerNode(n: Value) {
    Get(n, "type") == Str("trigger") || (JsTruthy(Get(n, "data")) && JsTruthy(Get(Get(n, "data"), "trigger_type")))
  }

  function Wanted(n: Value, email: bool): bool { if email then IsEmailNode(n) else IsTriggerNode(n) }

  /** `nodes.find(...)` for the email (email = true) or the trigger node. */
  function FindNode(nodes: seq<Value>, email: bool): (r: Found)
    ensures r.At? ==> r.i < |nodes| && !nodes[r.i].Null? && Wanted(nodes[r.i], email) &&
                      forall j :: 0 <= j < r.i ==> !nodes[j].Null? && !Wanted(nodes[j], email)
    ensures r.Missing? <==> forall j :: 0 <= j < |nodes| ==> !nodes[j].Null? && !Wanted(nodes[j], email)
  {
    if nodes == [] then Missing
    else if nodes[0].Null? then Throws
    else if Wanted(nodes[0], email) then At(0)
    else match FindNode(nodes[1..], email)
      case At(i) => At(i + 1)
      case Missing => Missing
      case Throws => Throws
  }

  /** The body `savePlan` posts. */
  datatype Payload = Payload(name: Value, subject: Value, content: Value, triggerType: Value,
                             recipientEmail: Value, flow: Value, templateVars: Value)

  /** `savePlan()`: the payload, or None when it fails before sending (a null node). */
  function SavePayload(planName: Value, c: Canvas): (r: Option<Payload>)
    ensures r.None? <==> FindNode(c.nodes, true).Throws? || FindNode(c.nodes, false).Throws?
    ensures r.Some? ==> JsTruthy(r.value.name) && JsTruthy(r.value.subject) && JsTruthy(r.value.content) &&
                        JsTruthy(r.value.triggerType) && JsTruthy(r.value.recipientEmail) &&
                        JsTruthy(r.value.templateVars)
    ensures r.Some? ==> r.value.flow == Dict([("nodes", List(c.nodes)), ("edges", List(c.edges))])
    ensures r.Some? && FindNode(c.nodes, true).At? ==>
            var ed := Get(c.nodes[FindNode(c.nodes, true).i], "data");
            r.value.name == JsOr(planName, JsOr(Get(ed, "label"), Str("Untitled"))) &&
            r.value.subject == JsOr(Get(ed, "subject"), Str("No Subject")) &&
            r.value.content == JsOr(Get(ed, "body"), JsOr(Get(ed, "content"), Str("No content"))) &&
            r.value.templateVars == JsOr(Get(ed, "template_vars"), Dict([]))
    ensures r.Some? && FindNode(c.nodes, false).At? ==>
            r.value.triggerType == JsOr(Get(Get(c.nodes[FindNode(c.nodes, false).i], "data"), "trigger_type"), Str("button_click"))
  {
    var emailNode := FindNode(c.nodes, true);
    var triggerNode := FindNode(c.nodes, false);
    if emailNode.Throws? || triggerNode.Throws? then None
    else
      var ed := if emailNode.At? then Get(c.nodes[emailNode.i], "data") else Null;
      var td := if triggerNode.At? then Get(c.nodes[triggerNode.i], "data") else Null;
      var recipient := JsOr(JsOr(JsOr(RecipientFromNodes(c.nodes), Get(ed, "recipient_email")), Get(ed, "recipient")),
                            Str("test@example.com"));
      Some(Payload(
        JsOr(planName, JsOr(Get(ed, "label"), Str("Untitled"))),
        JsOr(Get(ed, "subject"), Str("No Subject")),
        JsOr(Get(ed, "body"), JsOr(Get(ed, "content"), Str("No content"))),
        JsOr(Get(td, "trigger_type"), Str("button_click")),
        recipient,
        Dict([("nodes", List(c.nodes)), ("edges", List(c.edges))]),
        JsOr(Get(ed, "template_vars"), Dict([]))))
  }

  /** A picked email node is an object. */
  lemma EmailNodeIsObject(n: Value)
    requires IsEmailNode(n)
    ensures n.Dict?
  {
  }

  /** A non-null node that does not yield has no address in its data. */
  lemma NoAddressInData(n: Value)
    requires JsTruthy(n) && !Yields(n)
    ensures !JsTruthy(Get(Get(n, "data"), "recipient_email")) && !JsTruthy(Get(Get(n, "data"), "recipient"))
  {
  }

  /** The saved recipient is the nodes' recipient or "test@example.com": the email node's own
      fields, tried in between, can never supply one. */
  lemma SavedRecipient(planName: Value, c: Canvas)
    requires SavePayload(planName, c).Some?
    ensures SavePayload(planName, c).value.recipientEmail == JsOr(RecipientFromNodes(c.nodes), Str("test@example.com"))
  {
    var emailNode := FindNode(c.nodes, true);
    var r := RecipientFromNodes(c.nodes);
    var ed := if emailNode.At? then Get(c.nodes[emailNode.i], "data") else Null;
    if r == Null && emailNode.At? {
      RecipientFromNodesIsFirst(c.nodes);
      var n := c.nodes[emailNode.i];
      assert !Yields(n);
      EmailNodeIsObject(n);
      NoAddressInData(n);
    }
    assert !JsTruthy(r) ==> !JsTruthy(Get(ed, "recipient_email")) && !JsTruthy(Get(ed, "recipient"));
  }

  /** The payload carries the canvas unchanged, and the defaults fill what no node gives:
      no email or trigger node at all, or a falsy field in the one found. A falsy body
      falls back to the content. */
  lemma SavedDefaults(planName: Value, c: Canvas)
    requires SavePayload(planName, c).Some?
    ensures var p := SavePayload(planName, c).value;
            Get(p.flow, "nodes") == List(c.nodes) && Get(p.flow, "edges") == List(c.edges) &&
            JsTruthy(p.subject) && JsTruthy(p.content) && JsTruthy(p.triggerType) && JsTruthy(p.recipientEmail) &&
            (FindNode(c.nodes, true).Missing? ==>
               p.subject == Str("No Subject") && p.content == Str("No content") && p.templateVars == Dict([]) &&
               p.name == JsOr(planName, Str("Untitled"))) &&
            (FindNode(c.nodes, false).Missing? ==> p.triggerType == Str("button_click"))
    ensures var p := SavePayload(planName, c).value;
            FindNode(c.nodes, true).At? ==>
            var ed := Get(c.nodes[FindNode(c.nodes, true).i], "data");
            (!JsTruthy(Get(ed, "subject")) ==> p.subject == Str("No Subject")) &&
            (!JsTruthy(Get(ed, "body")) ==> p.content == JsOr(Get(ed, "content"), Str("No content"))) &&
            (!JsTruthy(Get(ed, "template_vars")) ==> p.templateVars == Dict([])) &&
            (!JsTruthy(planName) && !JsTruthy(Get(ed, "label")) ==> p.name == Str("Untitled"))
    ensures var p := SavePayload(planName, c).value;
            FindNode(c.nodes, false).At? && !JsTruthy(Get(Get(c.nodes[FindNode(c.nodes, false).i], "data"), "trigger_type")) ==>
            p.triggerType == Str("button_click")
  {
    var p := SavePayload(planName, c).value;
    FindAt(p.flow.fields, 0, "nodes");
    FindAt(p.flow.fields, 1, "edges");
  }

  /** An email node with an empty subject and body but some content posts that content
      under "No Subject", and with no trigger node the trigger type is "button_click". */
  lemma SavedContentExample(n: Value, content: string)
    requires content != ""
    requires n == Dict([("type", Str("email")),
                        ("data", Dict([("subject", Str("")), ("body", Str("")), ("content", Str(content))]))])
    ensures SavePayload(Null, Canvas([n], [])).Some?
    ensures var p := SavePayload(Null, Canvas([n], [])).value;
            p.subject == Str("No Subject") && p.content == Str(content) && p.triggerType == Str("button_click")
  {
    FindAt(n.fields, 0, "type");
    FindAt(n.fields, 1, "data");
    var d := Get(n, "data");
    FindAt(d.fields, 0, "subject");
    FindAt(d.fields, 1, "body");
    FindAt(d.fields, 2, "content");
    assert Get(d, "trigger_type") == Null;
    assert FindNode([n], true) == At(0);
    assert !IsTriggerNode(n);
    assert FindNode([n], false) == Missing;
  }

  /** A null node before the email or trigger node makes saving fail. */
  lemma NullNodeFailsSave(planName: Value, rest: seq<Value>)
    ensures SavePayload(planName, Canvas([Null] + rest, [])) == None
  {
  }

  // ---------------------------------------------------------------------------
  // Loading a stored plan.

  /** A flow candidate: a truthy value with truthy `nodes` or `edges`. */
  predicate HasFlowKeys(f: Value) { JsTruthy(f) && (JsTruthy(Get(f, "nodes")) || JsTruthy(Get(f, "edges"))) }

  /** The flow the loader finds under `flow`, `flow_json` or the top-level keys, if any. */
  function FoundFlow(d: Value): Option<Value> {
    if HasFlowKeys(Get(d, "flow")) then Some(Get(d, "flow"))
    else if HasFlowKeys(Get(d, "flow_json")) then Some(Get(d, "flow_json"))
    else if JsTruthy(Get(d, "nodes")) || JsTruthy(Get(d, "edges"))
    then Some(Dict([("nodes", JsOr(Get(d, "nodes"), List([]))), ("edges", JsOr(Get(d, "edges"), List([])))]))
    else None
  }

  function ItemsOrEmpty(v: Value): seq<Value> { if v.List? then v.items else [] }

  /** The trigger node's data in the canvas built from a plan without a flow. */
  function TriggerDataOf(d: Value): seq<(string, Value)> {
    [("label", Str("Trigger")), ("trigger_type", JsOr(Get(d, "trigger_type"), Str("button_click")))]
  }

  /** The email node's data in the canvas built from a plan without a flow. */
  function EmailDataOf(d: Value): seq<(string, Value)> {
    [("label", JsOr(Get(d, "name"), Str("Email"))),
     ("subject", JsOr(Get(d, "subject"), Str(""))),
     ("body", JsOr(Get(d, "content"), Str(""))),
     ("recipient_email", JsOr(Get(d, "recipient_email"), Str(""))),
     ("template_vars", JsOr(Get(d, "template_vars"), Dict([])))]
  }

  /** The two-node canvas built from a plan without a flow; emailNow and triggerNow are the
      two `Date.now()` readings. */
  function ConstructedCanvas(d: Value, emailNow: int, triggerNow: int): Canvas {
    var emailId := "email-" + IntText(emailNow);
    var triggerId := "trigger-" + IntText(triggerNow);
    Canvas([NodeOf(Str(triggerId), Str("trigger"), Position(100, 120), Dict(TriggerDataOf(d))),
            NodeOf(Str(emailId), Str("email"), Position(420, 120), Dict(EmailDataOf(d)))],
           [EdgeOf(Str("e-" + triggerId + "-" + emailId), Str(triggerId), Str(emailId))])
  }

  /** The loader: the canvas and the plan name for the response body `data`. */
  function Load(data: Value, emailNow: int, triggerNow: int): (r: (Canvas, Value))
    ensures var d := JsOr(data, Dict([]));
            FoundFlow(d).None? ==>
              |r.0.nodes| == 2 && |r.0.edges| == 1 && WellLinked(r.0) &&
              Get(r.0.edges[0], "source") == Get(r.0.nodes[0], "id") &&
              Get(r.0.edges[0], "target") == Get(r.0.nodes[1], "id")
    ensures var d := JsOr(data, Dict([]));
            FoundFlow(d).Some? && Get(FoundFlow(d).value, "nodes").List? ==>
              r.0.nodes == Get(FoundFlow(d).value, "nodes").items
  {
    var d := JsOr(data, Dict([]));
    match FoundFlow(d)
    case Some(f) => (Canvas(ItemsOrEmpty(Get(f, "nodes")), ItemsOrEmpty(Get(f, "edges"))), JsOr(Get(d, "name"), Str("")))
    case None =>
      ConstructedCanvasShape(d, emailNow, triggerNow);
      (ConstructedCanvas(d, emailNow, triggerNow), JsOr(Get(d, "name"), Str("")))
  }

  lemma ConstructedFields(d: Value, emailNow: int, triggerNow: int)
    ensures var c := ConstructedCanvas(d, emailNow, triggerNow);
            var triggerId := Str("trigger-" + IntText(triggerNow));
            var emailId := Str("email-" + IntText(emailNow));
            Get(c.nodes[0], "id") == triggerId && Get(c.nodes[0], "type") == Str("trigger") &&
            Get(c.nodes[0], "data") == Dict(TriggerDataOf(d)) &&
            Get(c.nodes[1], "id") == emailId && Get(c.nodes[1], "type") == Str("email") &&
            Get(c.nodes[1], "data") == Dict(EmailDataOf(d)) &&
            Get(c.edges[0], "source") == triggerId && Get(c.edges[0], "target") == emailId
  {
    var emailId := "email-" + IntText(emailNow);
    var triggerId := "trigger-" + IntText(triggerNow);
    NodeOfFields(Str(triggerId), Str("trigger"), Position(100, 120), Dict(TriggerDataOf(d)));
    NodeOfFields(Str(emailId), Str("email"), Position(420, 120), Dict(EmailDataOf(d)));
    EdgeOfFields(Str("e-" + triggerId + "-" + emailId), Str(triggerId), Str(emailId));
  }

  /** A canvas of two nodes joined by one edge from the first to the second. */
  lemma TwoNodeCanvas(t: Value, e: Value, x: Value)
    requires Get(x, "source") == Get(t, "id") && Get(x, "target") == Get(e, "id")
    requires Get(t, "id").Str? && Get(t, "id").s != "" && Get(e, "id").Str? && Get(e, "id").s != ""
    ensures WellLinked(Canvas([t, e], [x]))
    ensures FlowGraph.AdjacencyOf([x]) == map[Get(t, "id") := [Get(e, "id")]]
  {
    assert t in [t, e] && e in [t, e];
    assert [x][..0] == [];
    assert FlowGraph.Kept(x);
    assert FlowGraph.AdjacencyOf([]) == map[];
    assert FlowGraph.Targets(map[], Get(t, "id")) == [];
    assert FlowGraph.AdjacencyOf([x]) ==
           FlowGraph.AdjacencyOf([])[Get(t, "id") := FlowGraph.Targets(FlowGraph.AdjacencyOf([]), Get(t, "id")) + [Get(e, "id")]];
    assert [] + [Get(e, "id")] == [Get(e, "id")];
  }

  /** Without a flow the loader builds a trigger node, an email node and one edge from the
      first to the second, which the executor's graph reads as trigger -> email. */
  lemma ConstructedCanvasShape(d: Value, emailNow: int, triggerNow: int)
    ensures var c := ConstructedCanvas(d, emailNow, triggerNow);
            |c.nodes| == 2 && |c.edges| == 1 &&
            Get(c.nodes[0], "type") == Str("trigger") && Get(c.nodes[1], "type") == Str("email") &&
            Get(c.edges[0], "source") == Get(c.nodes[0], "id") && Get(c.edges[0], "target") == Get(c.nodes[1], "id") &&
            Get(c.nodes[0], "id") != Get(c.nodes[1], "id") &&
            WellLinked(c) &&
            FlowGraph.AdjacencyOf(c.edges) == map[Get(c.nodes[0], "id") := [Get(c.nodes[1], "id")]]
  {
    var c := ConstructedCanvas(d, emailNow, triggerNow);
    ConstructedFields(d, emailNow, triggerNow);
    var tid := "trigger-" + IntText(triggerNow);
    var eid := "email-" + IntText(emailNow);
    assert tid[0] == 't' && eid[0] == 'e';
    assert c == Canvas([c.nodes[0], c.nodes[1]], [c.edges[0]]);
    TwoNodeCanvas(c.nodes[0], c.nodes[1], c.edges[0]);
  }

  /** With a trigger node first and an email node second, the save picks them in that order. */
  lemma FindTriggerThenEmail(t: Value, e: Value)
    requires t.Dict? && e.Dict? && IsTriggerNode(t) && !IsEmailNode(t) && Get(e, "type") == Str("email")
    ensures FindNode([t, e], true) == At(1) && FindNode([t, e], false) == At(0)
  {
    assert [t, e][1..] == [e];
  }

  /** The picked email and trigger nodes of the constructed canvas. */
  lemma ConstructedFind(d: Value, emailNow: int, triggerNow: int)
    ensures var c := ConstructedCanvas(d, emailNow, triggerNow);
            FindNode(c.nodes, true) == At(1) && FindNode(c.nodes, false) == At(0)
  {
    var c := ConstructedCanvas(d, emailNow, triggerNow);
    ConstructedFields(d, emailNow, triggerNow);
    TriggerDataFields(d);
    assert c.nodes == [c.nodes[0], c.nodes[1]];
    FindTriggerThenEmail(c.nodes[0], c.nodes[1]);
  }

  /** Field lookups in an email node's data object. */
  lemma EmailFieldsOf(title: Value, subject: Value, body: Value, address: Value, vars: Value)
    ensures var fs := [("label", title), ("subject", subject), ("body", body), ("recipient_email", address), ("template_vars", vars)];
            Find(fs, "label") == Some(title) && Find(fs, "subject") == Some(subject) && Find(fs, "body") == Some(body) &&
            Find(fs, "recipient_email") == Some(address) && Find(fs, "template_vars") == Some(vars) &&
            Find(fs, "content") == None && Find(fs, "recipient") == None
  {
    var fs := [("label", title), ("subject", subject), ("body", body), ("recipient_email", address), ("template_vars", vars)];
    FindAt(fs, 0, "label");
    FindAt(fs, 1, "subject");
    FindAt(fs, 2, "body");
    FindAt(fs, 3, "recipient_email");
    FindAt(fs, 4, "template_vars");
    assert !HasKey(fs, "content") && !HasKey(fs, "recipient");
  }

  lemma EmailDataFields(d: Value)
    ensures var ed := Dict(EmailDataOf(d));
            Get(ed, "label") == JsOr(Get(d, "name"), Str("Email")) &&
            Get(ed, "subject") == JsOr(Get(d, "subject"), Str("")) &&
            Get(ed, "body") == JsOr(Get(d, "content"), Str("")) && Get(ed, "content") == Null &&
            Get(ed, "recipient_email") == JsOr(Get(d, "recipient_email"), Str("")) && Get(ed, "recipient") == Null &&
            Get(ed, "template_vars") == JsOr(Get(d, "template_vars"), Dict([]))
  {
    EmailFieldsOf(JsOr(Get(d, "name"), Str("Email")), JsOr(Get(d, "subject"), Str("")), JsOr(Get(d, "content"), Str("")),
                  JsOr(Get(d, "recipient_email"), Str("")), JsOr(Get(d, "template_vars"), Dict([])));
  }

  lemma TriggerDataFields(d: Value)
    ensures var td := Dict(TriggerDataOf(d));
            Get(td, "trigger_type") == JsOr(Get(d, "trigger_type"), Str("button_click")) &&
            Get(td, "recipient_email") == Null && Get(td, "recipient") == Null &&
            Get(td, "subject") == Null && Get(td, "body") == Null
  {
    var fs := TriggerDataOf(d);
    FindAt(fs, 1, "trigger_type");
    assert !HasKey(fs, "recipient_email") && !HasKey(fs, "recipient") && !HasKey(fs, "subject") && !HasKey(fs, "body");
  }

  /** Behind a node that does not yield, the second node decides the recipient. */
  lemma RecipientOfSecond(t: Value, e: Value)
    requires !Yields(t)
    ensures RecipientFromNodes([t, e]) == if Yields(e) then NodeAddress(e) else Null
  {
    assert [t, e][1..] == [e];
    assert [e][1..] == [];
    assert RecipientFromNodes([e]) == if Yields(e) then NodeAddress(e) else RecipientFromNodes([]);
  }

  /** A node that is not an email node and has no address fields does not yield. */
  lemma AddresslessNodeDoesNotYield(t: Value)
    requires Get(t, "type") != Str("email") && Get(t, "data").Dict?
    requires Get(Get(t, "data"), "recipient_email") == Null && Get(Get(t, "data"), "recipient") == Null
    ensures !Yields(t)
  {
  }

  /** An email node whose data holds `address || ""` and no `recipient` yields exactly when
      the address is truthy, and then yields it. */
  lemma EmailNodeYields(e: Value, address: Value)
    requires e.Dict? && Get(e, "type") == Str("email") && Get(e, "data").Dict?
    requires Get(Get(e, "data"), "recipient_email") == JsOr(address, Str("")) && Get(Get(e, "data"), "recipient") == Null
    ensures Yields(e) <==> JsTruthy(address)
    ensures JsTruthy(address) ==> NodeAddress(e) == address
  {
  }

  /** The constructed canvas's recipient is the plan's address when it has one. */
  lemma ConstructedRecipient(d: Value, emailNow: int, triggerNow: int)
    ensures RecipientFromNodes(ConstructedCanvas(d, emailNow, triggerNow).nodes) ==
            (if JsTruthy(Get(d, "recipient_email")) then Get(d, "recipient_email") else Null)
  {
    var c := ConstructedCanvas(d, emailNow, triggerNow);
    ConstructedFields(d, emailNow, triggerNow);
    EmailDataFields(d);
    TriggerDataFields(d);
    var t, e := c.nodes[0], c.nodes[1];
    AddresslessNodeDoesNotYield(t);
    EmailNodeYields(e, Get(d, "recipient_email"));
    assert c.nodes == [t, e];
    RecipientOfSecond(t, e);
  }

  /** The payload saved from the constructed canvas, field by field. */
  lemma ConstructedPayload(d: Value, name: Value, emailNow: int, triggerNow: int)
    ensures var p := SavePayload(name, ConstructedCanvas(d, emailNow, triggerNow));
            p.Some? &&
            p.value.name == JsOr(name, JsOr(JsOr(Get(d, "name"), Str("Email")), Str("Untitled"))) &&
            p.value.subject == JsOr(JsOr(Get(d, "subject"), Str("")), Str("No Subject")) &&
            p.value.content == JsOr(JsOr(Get(d, "content"), Str("")), Str("No content")) &&
            p.value.triggerType == JsOr(JsOr(Get(d, "trigger_type"), Str("button_click")), Str("button_click")) &&
            p.value.templateVars == JsOr(JsOr(Get(d, "template_vars"), Dict([])), Dict([]))
  {
    ConstructedFields(d, emailNow, triggerNow);
    ConstructedFind(d, emailNow, triggerNow);
    EmailDataFields(d);
    TriggerDataFields(d);
  }

  /** Saving the constructed canvas under the loaded name: the recipient. */
  lemma SaveConstructedRecipient(data: Value, emailNow: int, triggerNow: int)
    ensures var p := SavePayload(JsOr(Get(data, "name"), Str("")), ConstructedCanvas(data, emailNow, triggerNow));
            p.Some? && p.value.recipientEmail == JsOr(Get(data, "recipient_email"), Str("test@example.com"))
  {
    var c := ConstructedCanvas(data, emailNow, triggerNow);
    var name := JsOr(Get(data, "name"), Str(""));
    ConstructedPayload(data, name, emailNow, triggerNow);
    ConstructedRecipient(data, emailNow, triggerNow);
    SavedRecipient(name, c);
  }

  /** The defaults of the load then compose with those of the save. */
  lemma ComposedDefaults(name: Value, subject: Value, content: Value, triggerType: Value, vars: Value)
    ensures JsOr(JsOr(name, Str("")), JsOr(JsOr(name, Str("Email")), Str("Untitled"))) == JsOr(name, Str("Email"))
    ensures JsOr(JsOr(subject, Str("")), Str("No Subject")) == JsOr(subject, Str("No Subject"))
    ensures JsOr(JsOr(content, Str("")), Str("No content")) == JsOr(content, Str("No content"))
    ensures JsOr(JsOr(triggerType, Str("button_click")), Str("button_click")) == JsOr(triggerType, Str("button_click"))
    ensures JsOr(JsOr(vars, Dict([])), Dict([])) == JsOr(vars, Dict([]))
  {
  }

  /** Saving the constructed canvas under the loaded name: the other fields. */
  lemma SaveConstructed(data: Value, emailNow: int, triggerNow: int)
    ensures var p := SavePayload(JsOr(Get(data, "name"), Str("")), ConstructedCanvas(data, emailNow, triggerNow));
            p.Some? &&
            p.value.name == JsOr(Get(data, "name"), Str("Email")) &&
            p.value.subject == JsOr(Get(data, "subject"), Str("No Subject")) &&
            p.value.content == JsOr(Get(data, "content"), Str("No content")) &&
            p.value.triggerType == JsOr(Get(data, "trigger_type"), Str("button_click")) &&
            p.value.templateVars == JsOr(Get(data, "template_vars"), Dict([]))
  {
    ConstructedPayload(data, JsOr(Get(data, "name"), Str("")), emailNow, triggerNow);
    ComposedDefaults(Get(data, "name"), Get(data, "subject"), Get(data, "content"), Get(data, "trigger_type"), Get(data, "template_vars"));
  }

  /** Loading a plan without a flow and saving it at once gives back its top-level fields,
      each with the save default when it is empty; a plan without a name comes back as "Email". */
  lemma LoadThenSave(data: Value, emailNow: int, triggerNow: int)
    requires data.Dict? && FoundFlow(data).None?
    ensures Load(data, emailNow, triggerNow) == (ConstructedCanvas(data, emailNow, triggerNow), JsOr(Get(data, "name"), Str("")))
    ensures var p := SavePayload(Load(data, emailNow, triggerNow).1, Load(data, emailNow, triggerNow).0);
            p.Some? &&
            p.value.name == JsOr(Get(data, "name"), Str("Email")) &&
            p.value.subject == JsOr(Get(data, "subject"), Str("No Subject")) &&
            p.value.content == JsOr(Get(data, "content"), Str("No content")) &&
            p.value.triggerType == JsOr(Get(data, "trigger_type"), Str("button_click")) &&
            p.value.recipientEmail == JsOr(Get(data, "recipient_email"), Str("test@example.com")) &&
            p.value.templateVars == JsOr(Get(data, "template_vars"), Dict([]))
  {
    assert JsOr(data, Dict([])) == data;
    SaveConstructed(data, emailNow, triggerNow);
    SaveConstructedRecipient(data, emailNow, triggerNow);
  }
}
