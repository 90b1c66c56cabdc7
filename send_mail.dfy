/**
 * Content resolution for one send: `send_mail_task`. Finds the flow node the send
 * is for, resolves its recipient, merges template variables, picks subject and
 * body, splits the recipient into addresses and decides the outcome from what
 * the mail transport reports. Template rendering, the mail transport and the
 * database writes are outside the model; the transport's answer is an input.
 */
module SendMail {
  import opened Values

  /** What `_extract_*` returns: the node and `node.get("data") or {}`. */
  datatype NodeInfo = NodeInfo(node: Value, data: Value)

  /** The stored plan fields `send_mail_task` reads. */
  datatype Plan = Plan(flow: Value, recipientEmail: Value, templateVars: Value, subject: Value, content: Value)

  /** What `email.send` reports: the number of messages sent, or an exception. */
  datatype Delivery = Delivered(count: nat) | TransportFailed

  /** The message handed to the transport (before template rendering). */
  datatype Message = Message(to: seq<Value>, subject: Value, body: Value, vars: seq<(string, Value)>)

  /** How `send_mail_task` ends. `Raised` is an exception escaping it. */
  datatype Outcome =
    | Skipped                            // {"status": "skipped"}
    | NotFound                           // {"status": "error", "reason": "MailPlan not found"}
    | Raised
    | NoRecipient                        // {"status": "failed", "reason": "no_recipient"}
    | Sent(message: Message, count: nat) // {"status": "sent", ...}
    | Retry(countdown: nat)              // `self.retry(countdown=...)`
    | MaxRetriesExceeded                 // {"status": "failed", "reason": "max_retries_exceeded"}
  // Celery's `self.retry(exc=...)` raises once the retries are used up, so the
  // `MaxRetriesExceeded` branch may not be reached by a running worker; the model keeps the
  // handler's own branch.

  /** `max_retries=5` on `send_mail_task`. */
  const MaxRetries: nat := 5

  // ---------------------------------------------------------------------------
  // Node lookup.

  /** The flow both extractors read: None when the value is falsy or not a dict
      (a string is decoded, `{}` when that fails). */
  function FlowDict(flowValue: Value, decode: string -> Option<Value>): (r: Option<Value>)
    ensures r.Some? ==> r.value.Dict?
  {
    if !Truthy(flowValue) then None
    else
      var flow := if flowValue.Str? then (match decode(flowValue.s) case Some(v) => v case None => Dict([])) else flowValue;
      if flow.Dict? then Some(flow) else None
  }

  /** The entries `for node in nodes` walks over. A non-list finds nothing: a string or a
      dict yields strings, which are skipped, and a number makes the loop raise, which
      the extractor catches. */
  function NodesOf(flow: Value): seq<Value> {
    var v := Get(flow, "nodes");
    if v.List? then v.items else []
  }

  predicate EmailLikeData(data: Value) {
    data.Dict? && (Truthy(Get(data, "recipient_email")) || Truthy(Get(data, "recipient")))
  }

  /** The loop of `_extract_first_email_node`. A truthy non-dict `data` on a node that is
      not of type "email" makes `data.get` raise, which ends the search with None. */
  function FirstEmailIn(nodes: seq<Value>): (r: Option<NodeInfo>)
    ensures r.Some? ==> r.value.node in nodes && r.value.node.Dict? &&
                        r.value.data == Or(Get(r.value.node, "data"), Dict([])) &&
                        (Get(r.value.node, "type") == Str("email") || EmailLikeData(r.value.data))
  {
    if nodes == [] then None
    else
      var n := nodes[0];
      if !n.Dict? then FirstEmailIn(nodes[1..])
      else
        var data := Or(Get(n, "data"), Dict([]));
        if Get(n, "type") == Str("email") then Some(NodeInfo(n, data))
        else if !data.Dict? then None
        else if EmailLikeData(data) then Some(NodeInfo(n, data))
        else FirstEmailIn(nodes[1..])
  }

  /** The loop of `_extract_email_node_by_id`: the first dict entry whose id equals nodeId. */
  function NodeByIdIn(nodes: seq<Value>, nodeId: Value): (r: Option<NodeInfo>)
    ensures r.Some? <==> exists i :: 0 <= i < |nodes| && nodes[i].Dict? && Get(nodes[i], "id") == nodeId
    ensures r.Some? ==> exists i :: 0 <= i < |nodes| && nodes[i] == r.value.node && Get(nodes[i], "id") == nodeId &&
                                    r.value.node.Dict? && r.value.data == Or(Get(r.value.node, "data"), Dict([])) &&
                                    forall j :: 0 <= j < i ==> !(nodes[j].Dict? && Get(nodes[j], "id") == nodeId)
  {
    if nodes == [] then None
    else
      var n := nodes[0];
      if n.Dict? && Get(n, "id") == nodeId then Some(NodeInfo(n, Or(Get(n, "data"), Dict([]))))
      else
        var r := NodeByIdIn(nodes[1..], nodeId);
        assert forall i :: 1 <= i < |nodes| ==> nodes[i] == nodes[1..][i - 1];
        r
  }

  function ExtractFirstEmailNode(flowValue: Value, decode: string -> Option<Value>): Option<NodeInfo> {
    match FlowDict(flowValue, decode)
    case None => None
    case Some(flow) => FirstEmailIn(NodesOf(flow))
  }

  function ExtractNodeById(flowValue: Value, nodeId: Value, decode: string -> Option<Value>): Option<NodeInfo> {
    match FlowDict(flowValue, decode)
    case None => None
    case Some(flow) => NodeByIdIn(NodesOf(flow), nodeId)
  }

  /** The node a send is for: by id when one is given and found, else the first email-like node. */
  function ResolveNode(flowValue: Value, nodeId: Value, decode: string -> Option<Value>): (r: Option<NodeInfo>)
    ensures Truthy(nodeId) && ExtractNodeById(flowValue, nodeId, decode).Some? ==> r == ExtractNodeById(flowValue, nodeId, decode)
    ensures !Truthy(nodeId) || ExtractNodeById(flowValue, nodeId, decode).None? ==> r == ExtractFirstEmailNode(flowValue, decode)
  {
    var byId := if Truthy(nodeId) then ExtractNodeById(flowValue, nodeId, decode) else None;
    if byId.Some? then byId else ExtractFirstEmailNode(flowValue, decode)
  }

  /** `node_info.get("data") if node_info else {}`. */
  function NodeData(info: Option<NodeInfo>): Value {
    if info.Some? then info.value.data else Dict([])
  }

  // ---------------------------------------------------------------------------
  // Recipient, variables, subject and body.

  /** The recipient: node `recipient_email`, then node `recipient`, then the plan's field.
      None: `node_data.get` raised on a truthy non-dict node data. */
  function Recipient(nodeData: Value, planRecipient: Value): (r: Option<Value>)
    ensures r.None? <==> Truthy(nodeData) && !nodeData.Dict?
  {
    if Truthy(nodeData) && !nodeData.Dict? then None
    else
      var fromNode := if Truthy(nodeData) then Or(Get(nodeData, "recipient_email"), Get(nodeData, "recipient")) else Null;
      Some(if Truthy(fromNode) then fromNode else planRecipient)
  }

  /** `d[k] = v` for each field of fs in order. */
  function SetAll(acc: seq<(string, Value)>, fs: seq<(string, Value)>): (r: seq<(string, Value)>)
    ensures forall k :: HasKey(r, k) <==> HasKey(acc, k) || HasKey(fs, k)
    decreases |fs|
  {
    if fs == [] then acc
    else
      var acc' := Set(acc, fs[0].0, fs[0].1);
      SetKeys(acc, fs[0].0, fs[0].1);
      forall k ensures HasKey(fs, k) <==> k == fs[0].0 || HasKey(fs[1..], k) {
        if k != fs[0].0 { HasKeyTail(fs, k); }
      }
      SetAll(acc', fs[1..])
  }

  /** The plan-level variables as a dict: `mp.template_vars or {}`, decoded when it is a
      string (`{}` when decoding, or decoding a non-string, raises). None: the decoded value
      is not a mapping, so `{**top_vars}` raises. */
  function TopVars(planVars: Value, decode: string -> Option<Value>): (r: Option<seq<(string, Value)>>)
    ensures r.None? <==> Truthy(planVars) && planVars.Str? && decode(planVars.s).Some? && !decode(planVars.s).value.Dict?
    ensures planVars.Dict? ==> r == Some(planVars.fields)
    ensures !Truthy(planVars) || (!planVars.Str? && !planVars.Dict?) ==> r == Some([])
  {
    var top := Or(planVars, Dict([]));
    if top.Dict? then Some(top.fields)
    else if !top.Str? then Some([])
    else match decode(top.s)
      case None => Some([])
      case Some(v) => if v.Dict? then Some(v.fields) else None
  }

  /** The node-level variables: `template_vars` of the node data when it is a dict, else `{}`. */
  function NodeVars(nodeData: Value): seq<(string, Value)> {
    var tv := Get(nodeData, "template_vars");
    if Truthy(nodeData) && tv.Dict? then tv.fields else []
  }

  /** `{**top_vars, **node_vars}`. */
  function MergeVars(top: seq<(string, Value)>, node: seq<(string, Value)>): (r: seq<(string, Value)>)
    ensures forall k :: HasKey(r, k) <==> HasKey(top, k) || HasKey(node, k)
  {
    SetAll(SetAll([], top), node)
  }

  /** The raw subject: the node's when truthy, else the plan's, else "". */
  function RawSubject(nodeData: Value, plan: Plan): (r: Value)
    ensures Truthy(r) || r == Str("")
  {
    Or(if Truthy(nodeData) && Truthy(Get(nodeData, "subject")) then Get(nodeData, "subject") else plan.subject, Str(""))
  }

  /** The raw body: the node's `body` when truthy, else the plan's content, else "". */
  function RawBody(nodeData: Value, plan: Plan): (r: Value)
    ensures Truthy(r) || r == Str("")
  {
    Or(if Truthy(nodeData) && Truthy(Get(nodeData, "body")) then Get(nodeData, "body") else plan.content, Str(""))
  }

  // ---------------------------------------------------------------------------
  // Addresses.

  function NewlinesToCommas(s: string): (r: string)
    ensures |r| == |s| && '\n' !in r
    ensures forall i :: 0 <= i < |s| ==> r[i] == if s[i] == '\n' then ',' else s[i]
  {
    if s == [] then [] else [if s[0] == '\n' then ',' else s[0]] + NewlinesToCommas(s[1..])
  }

  /** `[r.strip() for r in pieces if r.strip()]`. */
  function KeepTrimmed(pieces: seq<string>): (r: seq<string>)
    ensures |r| <= |pieces|
    ensures forall i :: 0 <= i < |r| ==> r[i] != "" && IsTrimmed(r[i])
  {
    if pieces == [] then []
    else
      var tail := KeepTrimmed(pieces[1..]);
      if Trim(pieces[0]) == [] then tail
      else
        TrimmedPiece(pieces[0]);
        [Trim(pieces[0])] + tail
  }

  lemma TrimmedPiece(p: string)
    ensures Trim(p) != [] ==> IsTrimmed(Trim(p))
  {
  }

  /** A recipient string split on commas and newlines, trimmed, empties dropped: every
      address is non-empty, trimmed, and free of commas and newlines. */
  function SplitAddresses(s: string): (r: seq<string>)
    ensures forall i :: 0 <= i < |r| ==> r[i] != "" && IsTrimmed(r[i]) && ',' !in r[i] && '\n' !in r[i]
  {
    SplitAvoids(NewlinesToCommas(s), ',', '\n');
    KeepTrimmedFrom(Split(NewlinesToCommas(s), ','));
    KeepTrimmed(Split(NewlinesToCommas(s), ','))
  }

  lemma {:induction false} KeepTrimmedFrom(pieces: seq<string>)
    requires forall i :: 0 <= i < |pieces| ==> ',' !in pieces[i] && '\n' !in pieces[i]
    ensures forall i :: 0 <= i < |KeepTrimmed(pieces)| ==> ',' !in KeepTrimmed(pieces)[i] && '\n' !in KeepTrimmed(pieces)[i]
  {
    if pieces != [] {
      KeepTrimmedFrom(pieces[1..]);
      TrimKeepsOut(pieces[0], ',');
      TrimKeepsOut(pieces[0], '\n');
    }
  }

  /** The addresses the message goes to. A list is taken as is; any other value stands for
      its own `str()`. */
  function Recipients(recipient: Value): (r: seq<Value>)
    ensures recipient.Str? ==> |r| == |SplitAddresses(recipient.s)| &&
                               forall i :: 0 <= i < |r| ==> r[i] == Str(SplitAddresses(recipient.s)[i])
    ensures recipient.List? ==> r == recipient.items
    ensures !recipient.Str? && !recipient.List? ==> r == [recipient]
  {
    match recipient
    case Str(s) =>
      var addrs := SplitAddresses(s);
      seq(|addrs|, i requires 0 <= i < |addrs| => Str(addrs[i]))
    case List(xs) => xs
    case _ => [recipient]
  }

  // ---------------------------------------------------------------------------
  // Fallback rendering.

  /** `s.replace(pat, rep)`: every non-overlapping occurrence of pat, scanning left to right. */
  function ReplaceAll(s: string, pat: string, rep: string): string
    requires pat != []
    decreases |s|
  {
    if |s| < |pat| then s
    else if pat <= s then rep + ReplaceAll(s[|pat|..], pat, rep)
    else [s[0]] + ReplaceAll(s[1..], pat, rep)
  }

  /** The rewrite `_render_with_template` falls back to when rendering raises: for each
      variable in order, `{{ k }}` and then `{{k}}` are replaced by its text. The values
      come already converted by `str()`. */
  function RenderFallback(text: string, vars: seq<(string, string)>): string
    decreases |vars|
  {
    if vars == [] then text
    else
      var (k, v) := vars[0];
      RenderFallback(ReplaceAll(ReplaceAll(text, "{{ " + k + " }}", v), "{{" + k + "}}", v), vars[1..])
  }

  // ---------------------------------------------------------------------------
  // Retry backoff and the outcome.

  function Pow2(n: nat): (r: nat)
    ensures r >= 1
  {
    if n == 0 then 1 else 2 * Pow2(n - 1)
  }

  /** `min(60 * (2 ** retries), 3600)`. */
  function Countdown(retries: nat): (c: nat)
    ensures 60 <= c <= 3600
  {
    var c := 60 * Pow2(retries);
    if c < 3600 then c else 3600
  }

  /** `send_mail_task(mailplan_id, node_id)`: disableEnv is `DISABLE_EMAIL_SEND`, plan is the
      stored plan (None: not found), decode is `json.loads`, delivery is what the transport
      reports and retries its retry count. */
  function SendMailTask(disableEnv: Option<string>, plan: Option<Plan>, nodeId: Value,
                        decode: string -> Option<Value>, delivery: Delivery, retries: nat): (o: Outcome)
    ensures o.Sent? || o.Retry? || o == MaxRetriesExceeded ==> !FlagOn(disableEnv) && plan.Some?
    ensures o.Sent? ==> delivery == Delivered(o.count)
    ensures o.Retry? ==> delivery == TransportFailed && retries < MaxRetries && o.countdown == Countdown(retries)
    ensures o == MaxRetriesExceeded ==> delivery == TransportFailed && retries >= MaxRetries
  {
    if FlagOn(disableEnv) then Skipped
    else if plan.None? then NotFound
    else
      var mp := plan.value;
      var nodeData := NodeData(ResolveNode(mp.flow, nodeId, decode));
      match Recipient(nodeData, mp.recipientEmail)
      case None => Raised
      case Some(recipient) =>
        match TopVars(mp.templateVars, decode)
        case None => Raised
        case Some(top) =>
          if !Truthy(recipient) then NoRecipient
          else
            var msg := Message(Recipients(recipient), RawSubject(nodeData, mp), RawBody(nodeData, mp),
                               MergeVars(top, NodeVars(nodeData)));
            match delivery
            case Delivered(count) => Sent(msg, count)
            case TransportFailed => if retries < MaxRetries then Retry(Countdown(retries)) else MaxRetriesExceeded
  }

  /** The status `send_mail_task` writes to the plan, if any. */
  function PlanStatusAfter(o: Outcome): (r: Option<string>)
    ensures r == Some("sent") <==> o.Sent? && o.count != 0
    ensures r.None? <==> o == Skipped || o == NotFound || o == Raised
  {
    match o
    case NoRecipient => Some("failed")
    case Sent(_, count) => Some(if count != 0 then "sent" else "failed")
    case Retry(_) => Some("failed")
    case MaxRetriesExceeded => Some("failed")
    case _ => None
  }
}
