# AutoMailPlanSystem core, modelled in Dafny

AutoMailPlanSystem stores *mail plans*. A plan holds a subject, a body, a recipient, template
variables and a *flow*: a graph drawn in the browser, made of start, trigger, delay and
email nodes joined by edges. This project models the logic that decides what gets sent,
to whom and when:

- **The flow graph** (`graph.dfy`, module `FlowGraph`): `_flow_to_graph`. It builds the
  ordered node map (id -> node) and the adjacency lists (source -> targets).
- **The duration resolver** (`duration.dfy`, module `Duration`): `_duration_seconds`. It
  includes the `int()` / `int(float())` / `0` coercion ladder.
- **The traversal engine** (`traversal.dfy`, `traversal_props.dfy`,
  `traversal_examples.dfy`): `execute_flow_task`.
  - It picks a start node and walks the graph depth-first with a stack of
    (node id, accumulated seconds) frames and a visited set of such pairs.
  - It emits one schedule request per visit of an email-like node, at once or with an
    ETA.
  - The walk is a function (`Traversal.Explore`). `Traversal.ExecuteFlow` and its
    sub-methods are the source's loops, each proved equal to that function.
- **Content resolution for one send** (`send_mail.dfy`, `send_mail_props.dfy`):
  `send_mail_task` and its extractors.
  - It covers node choice, recipient precedence, variable merging, subject and body
    choice, and splitting the recipient text into addresses.
  - It also covers the outcome of the transport's report, including retries with
    back-off.
- **The backend endpoints around it**:
  - the serializer's recipient rule (`serializer.dfy`);
  - the create and manual-trigger views with their fallback ladder (`views.dfy`);
  - the guarded post-save hook (`signals.dfy`);
  - the recipient list endpoint (`recipients.dfy`), whose handler is a method proved
    against a filter-and-dedup specification.
- **The frontend logic that shapes the stored data**:
  - the node editor's placeholder extraction, its `key: value` variable format and the
    autofill merge (`template_vars.dfy`);
  - the builder page: new nodes, node updates, deletion, loading a plan and the save
    payload (`builder.dfy`);
  - the plan list page: the recipient column, the status after a manual trigger, the
    loading guard and deletion (`plan_list.dfy`);
  - the array filters they share (`list_ops.dfy`).

`values.dfy` defines the dynamic JSON-shaped `Value` that every module works on. Python
and JavaScript truthiness are defined separately (`Truthy`, `JsTruthy`), because `[]`
and `{}` are false in Python and true in JavaScript. Dictionaries are ordered association
lists, since the start search, `Object.keys` and the variable text all depend on
insertion order.

The source's side effects are not modelled as effects:

- An exception that escapes a function is a `None` or `Crash` result.
- `json.loads` and `JSON.parse` are a `decode` parameter.
- `timezone.now()` and `Date.now()` are integer parameters.
- The Celery executor, the mail transport and the environment variables are inputs: whether
  a call raised, the count the transport reports, the variable's text.

Where the system's own documentation and its code disagree, the model follows the code:

- **The start node is expanded again.** The traversal never puts the start frame in the
  visited set. So a start node with an edge to itself is expanded a second time, and when
  it is an email node it is sent twice (`TraversalExamples.SelfLoopSendsTwice`). The
  documentation says a self-loop is visited once.
- **"Email node" is wider than the type.** The traversal, the extractors and the
  serializer treat a node as an email node when its type is `email` *or* its data carries
  a truthy `recipient_email` or `recipient`, not only by its type.
- **The two pages show different recipients.** The list page's recipient column stops at
  the first qualifying node even when it has no address. The builder's save goes on to the
  next node (`PlanList.ListAndBuilderDiffer`).
- **`parseTemplateVars` keeps arrays.** It returns any JSON object *or array* unchanged, so
  a JSON array typed into the variables area is passed up as the node's variables.

## Model

| member | source | states |
|---|---|---|
| FlowGraph.BuildNodesMap | backend/mailplans/tasks.py:319-320 | the node loop completes exactly when every entry is a dict whose id can be a dict key; the map it builds is the ordered node map of the entries |
| FlowGraph.BuildAdjacency | backend/mailplans/tasks.py:322-327 | the edge loop completes exactly when every entry is a dict whose kept source can be a dict key; it then builds the adjacency of the kept edges |
| FlowGraph.FlowToGraph | backend/mailplans/tasks.py:310-329 | building the graph in place gives the graph of the flow, or the failure when one of the loops raises |
| FlowGraph.NodesMapLookup | backend/mailplans/tasks.py:319-320 | looking up an id finds the last node carrying it (a later duplicate replaces the earlier one, keeping its position); ids never repeat in the map |
| FlowGraph.NodesMapStoresById | backend/mailplans/tasks.py:320 | every node of the map is stored under its own id |
| FlowGraph.AdjacencyKeepsEdgeOrder | backend/mailplans/tasks.py:322-327 | a source's target list is exactly the targets of its kept edges, in edge order; only truthy sources appear, and never with an empty list |
| FlowGraph.TargetsAreTruthy | backend/mailplans/tasks.py:325-327 | edges with a falsy source or target are dropped, so every recorded target is truthy |
| FlowGraph.NodesMapExample | backend/mailplans/tasks.py:319-320 | a duplicate id keeps its first position and takes the later node |
| FlowGraph.AdjacencyExample | backend/mailplans/tasks.py:322-327 | an edge with an empty target is dropped |
| FlowGraph.GraphOf | backend/mailplans/tasks.py:310-329 | a truthy `nodes` or `edges` that is not a list makes building the graph raise; a flow with neither gives the empty graph; a graph built never repeats a node id and keys adjacency only by truthy sources |
| FlowGraph.NodesMapOf | backend/mailplans/tasks.py:319-320 | the node map has a key exactly for each id some node carries, each once, and is no longer than the node list |
| FlowGraph.AdjacencyOf | backend/mailplans/tasks.py:322-327 | every adjacency source is truthy and has at least one target |
| Duration.DurationSeconds | backend/mailplans/tasks.py:332-351 | a falsy duration is 0 seconds; the call raises exactly when a truthy duration meets a truthy unit that is not a string |
| Duration.CoerceInt | backend/mailplans/tasks.py:336-343 | an integer coerces to itself and a boolean to 0 or 1; a float is truncated towards zero (the result lies less than one from it, on the same side of zero); None, containers and text that neither `int()` nor `float()` reads give 0 |
| Duration.ParseDecimalText | backend/mailplans/tasks.py:339-341 | `int(float())` on text is reached only for text that `int()` refuses |
| Duration.DurationIsFactorTimesValue | backend/mailplans/tasks.py:335-351 | for a truthy duration: a unit lower-casing to "minutes", "hours" or "days" multiplies the coerced integer by 60, 3600 or 86400; any other string unit, and every falsy unit (None, "", 0, False, an empty list or dict, all read as ""), leaves the integer as the seconds |
| Duration.UnitFactor | backend/mailplans/tasks.py:344-351 | the factor is 60 exactly for "minutes", 3600 exactly for "hours", 86400 exactly for "days", and 1 exactly for every other unit |
| Duration.ParseIntText | backend/mailplans/tasks.py:337 | `int()` accepts a string only when, trimmed, it is an optional sign followed by one or more digits |
| Duration.DigitsRoundTrip | backend/mailplans/tasks.py:337 | the decimal text of a natural number is all digits and reads back as that number |
| Duration.IntTextCoercesBack | backend/mailplans/tasks.py:336-343 | a duration stored as the decimal text of any integer coerces back to that integer |
| Duration.NonNumericTextIsZero | backend/mailplans/tasks.py:336-343 | text that starts with neither a digit, a sign nor a point fails both `int()` and `float()`, so it coerces to 0 |
| Duration.DecimalTextCoercion | backend/mailplans/tasks.py:337-341 | a decimal numeral `whole.frac` fails `int()`, and `int(float())` keeps its whole part (on exact decimals; float rounding is left out) |
| Duration.TwoDaysExample | backend/mailplans/tasks.py:348-349 | 2 days is 172800 seconds |
| Duration.MixedCaseUnitExample | backend/mailplans/tasks.py:335-345 | the unit is lower-cased first: 30 "Minutes" is 1800 seconds |
| Duration.SecondsFallbackExample | backend/mailplans/tasks.py:350-351 | an empty or "seconds" unit returns the integer itself |
| Duration.NonStringUnitExample | backend/mailplans/tasks.py:333-335 | a truthy non-string unit raises for a truthy duration, and a zero duration returns 0 before the unit is read |
| Duration.UnparsableTextExample | backend/mailplans/tasks.py:336-343 | an unparsable duration text counts 0 seconds |
| Duration.DecimalTextExample | backend/mailplans/tasks.py:336-345 | "1.9" minutes is 60 seconds: the fraction is truncated |
| Duration.NegativeDecimalExample | backend/mailplans/tasks.py:339-347 | a negative duration is truncated towards zero and not clamped: -1.5 hours is -3600 seconds |
| ListOps.WithoutIdMembers | frontend/src/pages/MailPlanList.jsx:34 | the delete filter keeps exactly the entries whose id differs |
| ListOps.WithoutIdAppend | frontend/src/pages/MailPlanList.jsx:34 | the delete filter keeps order: filtering a concatenation filters each part |
| ListOps.WithoutAbsentId | frontend/src/pages/MailPlanList.jsx:34 | nothing is dropped when no entry carries the id |
| ListOps.WithoutEndpointMembers | frontend/src/pages/MailPlanBuilder.jsx:141 | the edge filter keeps exactly the edges whose source and target both differ from the node id |
| ListOps.WithoutEndpointAppend | frontend/src/pages/MailPlanBuilder.jsx:141 | the edge filter keeps order |
| ListOps.WithoutValueMembers | frontend/src/pages/MailPlanList.jsx:89 | the loading-list filter keeps exactly the other ids |
| ListOps.WithoutValueAppend | frontend/src/pages/MailPlanList.jsx:89 | the loading-list filter keeps order |
| ListOps.WithoutAbsentValue | frontend/src/pages/MailPlanList.jsx:89 | a list without the id is left unchanged |
| SendMail.FlowDict | backend/mailplans/tasks.py:33-43 | the extractors search only a dict flow: a stored string is decoded, and `{}` is used when decoding fails |
| SendMail.FirstEmailIn | backend/mailplans/tasks.py:44-51 | the node found is a dict entry of the list, its data is `data or {}`, and it is of type email or its data carries a truthy recipient |
| SendMail.NodeByIdIn | backend/mailplans/tasks.py:57-80 | a node is found exactly when some dict entry carries the id, and it is the first such entry |
| SendMail.ResolveNode | backend/mailplans/tasks.py:144-148 | the send uses the node with the given id when an id is given and found, and otherwise the first email-like node |
| SendMail.Recipient | backend/mailplans/tasks.py:153-157 | resolving the recipient raises exactly when the node data is a truthy non-dict |
| SendMail.TopVars | backend/mailplans/tasks.py:160-167 | plan variables that are a dict are used as they are; a falsy value or one that is neither text nor a dict gives no variables; text raises exactly when it decodes to something other than a dict |
| SendMail.MergeVars | backend/mailplans/tasks.py:174 | the merged variables have exactly the keys of the plan's and the node's variables |
| SendMail.RawSubject | backend/mailplans/tasks.py:177 | the subject chosen is truthy or the empty string |
| SendMail.RawBody | backend/mailplans/tasks.py:178 | the body chosen is truthy or the empty string |
| SendMailProperties.NodeOverridesOnlyWhenTruthy | backend/mailplans/tasks.py:176-178 | a node's subject and body override the plan's only when the node data and that field are truthy; otherwise the plan's subject or content is used, or "" when that is falsy |
| SendMailProperties.RecipientPrecedence | backend/mailplans/tasks.py:152-157 | a truthy node `recipient_email` wins whatever `recipient` holds; a falsy one defers to a truthy `recipient`; the plan's field is used when the node offers neither or its data is falsy; truthy data that is not a dict raises; the result is truthy exactly when one of the candidates is |
| SendMailProperties.MergeNodeWins | backend/mailplans/tasks.py:160-174 | in the merged variables a node key overrides the plan's; every other plan key keeps its value and position; no key repeats |
| SendMail.NewlinesToCommas | backend/mailplans/tasks.py:247 | every newline becomes a comma and nothing else changes |
| SendMail.KeepTrimmed | backend/mailplans/tasks.py:247 | the pieces kept are non-empty and trimmed |
| SendMail.SplitAddresses | backend/mailplans/tasks.py:245-247 | every address split from the text is non-empty, trimmed and free of commas and newlines |
| SendMail.Recipients | backend/mailplans/tasks.py:243-251 | a text recipient gives its split addresses, a list gives its items, and any other value is the single address |
| SendMail.Countdown | backend/mailplans/tasks.py:299-300 | the retry countdown lies between 60 and 3600 seconds |
| SendMail.SendMailTask | backend/mailplans/tasks.py:108-306 | a send, a retry and a retry limit all happen only with the flag off and a plan found; a send reports the transport's count; a retry follows a transport failure below five retries with the back-off countdown; the limit follows one at five or more |
| SendMail.PlanStatusAfter | backend/mailplans/tasks.py:232-296 | the plan's status becomes "sent" exactly for a send with a non-zero count, and is left alone exactly when the send is skipped, the plan is missing or a lookup raised |
| SendMailProperties.SentMessageContents | backend/mailplans/tasks.py:152-265 | a sent message goes to the addresses of the truthy recipient resolved for the node, with the node's raw subject and body and the plan's variables overridden by the node's |
| SendMailProperties.SplitAddressesRoundTrip | backend/mailplans/tasks.py:247 | joining clean addresses with commas and splitting again gives back the same addresses |
| SendMailProperties.SeparatorsOnlySplitToNothing | backend/mailplans/tasks.py:247 | a recipient made only of separators and spaces splits to no address |
| SendMailProperties.CountdownBounds | backend/mailplans/tasks.py:299-300 | the retry countdown is 60·2^r seconds up to five retries, then capped at 3600; it never decreases |
| SendMailProperties.SendOutcomes | backend/mailplans/tasks.py:108-306 | the outcomes are: skipped exactly under the debug flag; not found exactly without a plan; a raise exactly when the recipient lookup or the variables raise; a falsy recipient fails and sets status "failed"; "sent" with status "sent" exactly for a non-zero count; a transport error retries with the back-off (at most 960 s) below five retries; every send attempt has a truthy recipient |
| SendMailProperties.EmptyAddressListIsNotRechecked | backend/mailplans/tasks.py:232-265 | a non-empty recipient that splits to no address still goes to the transport, addressed to nobody, and is never reported as missing |
| SendMailProperties.RenderFallbackWithoutBraces | backend/mailplans/tasks.py:98-103 | the fallback rewrite leaves a text without `{` unchanged when no value has one |
| SendMailProperties.RenderFallbackExample | backend/mailplans/tasks.py:100-102 | both spellings `{{ k }}` and `{{k}}` are replaced |
| SendMailProperties.ReplaceAllJoin | backend/mailplans/tasks.py:101-102 | replacing a pattern that starts with `{` in text made of brace-free chunks joined by it gives the chunks joined by the replacement |
| SendMailProperties.RenderFallbackReplacesEveryToken | backend/mailplans/tasks.py:98-103 | every `{{ k }}` between brace-free chunks is replaced by the value, when the value has no brace |
| Traversal.FirstStart | backend/mailplans/tasks.py:383-387 | the start candidate is the key of the first node in map order whose type or id is "start", and there is none exactly when no node qualifies |
| Traversal.FirstTrigger | backend/mailplans/tasks.py:388-393 | the trigger candidate is the key of the first node of type "trigger", and there is none exactly when no node has that type |
| Traversal.StartId | backend/mailplans/tasks.py:383-395 | the start id is a truthy key of the map; a truthy start candidate is preferred to a trigger |
| Traversal.DelayTest | backend/mailplans/tasks.py:426 | the delay test decides `IsDelayLike` when it does not raise, and raises exactly for a non-delay node whose truthy data is neither a dict, a text nor a list |
| Traversal.EmailTest | backend/mailplans/tasks.py:439 | the email test decides `IsEmailLike` when it does not raise, and raises exactly for a non-email node whose data is truthy but not a dict |
| Traversal.DelayOf | backend/mailplans/tasks.py:427-430 | a node without truthy data adds 0 seconds; truthy data that is not a dict raises; an integer duration without a unit counts hours |
| Traversal.VisitNode | backend/mailplans/tasks.py:425-439 | a visit raises exactly when the delay test, the delay of a delay-like node or the email test raises; otherwise a delay-like node adds its delay to the accumulated seconds, any other node keeps them, and the visit emits exactly for an email-like node |
| Traversal.RequestFor | backend/mailplans/tasks.py:441-452 | a request carries an ETA exactly when the accumulated delay is positive; the ETA is now plus that delay, so it lies strictly after now |
| Traversal.PushKeepsCounters | backend/mailplans/tasks.py:461-467 | pushing targets changes neither the step count nor the requests |
| Traversal.Step | backend/mailplans/tasks.py:412-467 | one iteration counts a step and appends the top frame to the popped frames |
| Traversal.Explore | backend/mailplans/tasks.py:407-467 | the walk never takes more than 5001 steps; it ends exhausted only with an empty stack, and at the step limit only with a non-empty stack after exactly 5001 steps |
| Traversal.StepCounts | backend/mailplans/tasks.py:412-467 | each iteration counts one step and adds at most one request, the one for the popped node when that node is email-like |
| Traversal.PushTargetsLoop | backend/mailplans/tasks.py:461-467 | the target loop pushes each target with the current delay, skipping pairs already visited |
| Traversal.VisitStep | backend/mailplans/tasks.py:416-467 | one iteration pops a frame, skips a missing node, adds a delay node's seconds, emits for an email-like node and pushes the targets |
| Traversal.ExecuteFlow | backend/mailplans/tasks.py:354-470 | `execute_flow_task` returns the requests and the ending of the flow specification |
| Traversal.ExecuteFlowSpec | backend/mailplans/tasks.py:354-470 | the plan is missing exactly for that ending; a missing plan, a non-dict flow and a graph that raises schedule nothing; the flow is not a dict exactly for that ending; a walk happens only on a dict flow whose graph builds |
| TraversalProperties.ExploreSendsFromEmailNodes | backend/mailplans/tasks.py:412-458 | the walk schedules only email-like nodes, each at once or strictly after now |
| TraversalProperties.ExploreBounded | backend/mailplans/tasks.py:409-416 | the walk takes at most 5001 steps and emits at most one request per step |
| TraversalProperties.ExplorePushesOnce | backend/mailplans/tasks.py:461-467 | no (node, delay) pair is pushed twice, and the visited set is exactly the pairs pushed |
| TraversalProperties.ExhaustedWalkIsComplete | backend/mailplans/tasks.py:407-467 | a walk from the start that empties its stack pops every pushed frame exactly once (only the start frame can come round again), sends exactly one request per popped email-like frame in pop order, and pops every successor of a popped frame |
| TraversalProperties.ExhaustedWalkReachesAll | backend/mailplans/tasks.py:407-467 | such a walk pops, and so schedules when email-like, every (node, delay) frame on a path of successors from the start frame |
| TraversalProperties.FlowScheduleIsRelative | backend/mailplans/tasks.py:441-445 | triggering d seconds later schedules the same sends with every ETA d later and ends the same way |
| TraversalProperties.FlowOutcomes | backend/mailplans/tasks.py:363-467 | an aborted task schedules nothing; exactly one immediate default send happens exactly when there is no start; otherwise at most 5001 sends, each for a node and never in the past |
| TraversalProperties.FlowPushesOnce | backend/mailplans/tasks.py:407-467 | along one traversal each (node, delay) pair is pushed at most once |
| TraversalProperties.UndecodableFlowFallsBack | backend/mailplans/tasks.py:369-402 | a stored flow text that does not decode counts as `{}` and falls back to one immediate default send |
| TraversalProperties.EmptyFlowFallsBack | backend/mailplans/tasks.py:380-402 | a flow without nodes falls back to one immediate default send |
| TraversalProperties.ListFlowSchedulesNothing | backend/mailplans/tasks.py:369-378 | a non-empty list stored as the flow aborts the traversal; an empty one is falsy and falls back |
| TraversalExamples.DelayOfExample | backend/mailplans/tasks.py:426-430 | a 30-minute delay node adds 1800 seconds |
| TraversalExamples.DelayNodeVisit | backend/mailplans/tasks.py:426-432 | visiting the delay node adds its seconds to the branch and does not emit |
| TraversalExamples.PlainNodeVisits | backend/mailplans/tasks.py:426-439 | a start node passes its delay on, and an email node emits with it |
| TraversalExamples.DelayChainExample | backend/mailplans/tasks.py:407-467 | start, then a 30-minute delay, then an email sends that email once, 1800 seconds after the trigger |
| TraversalExamples.SelfLoopSendsTwice | backend/mailplans/tasks.py:407-467 | an email start node with an edge to itself is sent twice, both times at once |
| Serializer.FirstRecipientIn | backend/mailplans/serializers.py:31-40 | an address found in the nodes is truthy |
| Serializer.FirstRecipientIsFirstYield | backend/mailplans/serializers.py:31-40 | after nodes that are all passed over, a node with an address gives that address and a dict node whose data is truthy but not a dict stops the search with nothing; conversely, an address found is that of some node preceded only by passed-over nodes |
| Serializer.NoRecipientWhenAllPassedOver | backend/mailplans/serializers.py:31-44 | when every node is passed over, nothing is found |
| Serializer.NoFlowNoRecipient | backend/mailplans/serializers.py:22-30 | a falsy flow, a text that does not decode and a non-dict flow all give no recipient |
| Serializer.ComputeRecipientFromFlow | backend/mailplans/serializers.py:17-44 | a recipient found is truthy and comes from a truthy flow stored as text or a dict |
| Serializer.ToRepresentation | backend/mailplans/serializers.py:46-64 | the representation always carries `recipient_email` |
| Serializer.ToRepresentationChangesOnlyRecipient | backend/mailplans/serializers.py:52-64 | only `recipient_email` changes: it holds the flow's recipient when there is one, else the serialized value when truthy, else the instance field; keys stay unique and the key set only gains `recipient_email` |
| PlanViews.PerformCreate | backend/mailplans/views.py:19-34 | creation always saves the plan first and once, and never raises; the flow executor is enqueued exactly for an "on_signup" plan, and an enqueue failure is logged and swallowed exactly when one was attempted and raised |
| PlanViews.TriggerLadder | backend/mailplans/views.py:65-87 | the trigger endpoint tries enqueue, then the in-process flow, then the in-process send, and stops at the first success; it answers 202 exactly when the enqueue succeeds and 503 exactly when all three fail |
| Signals.GuardRegistersAtMostOnce | backend/mailplans/signals.py:47-86 | a send is registered only when the flag is on, the plan was just created and its trigger type is allowed, and then exactly one send for that plan |
| Signals.FlagValues | backend/mailplans/signals.py:31 | the flag is on only for "1", "true" and "True", and off when unset |
| Signals.ButtonClickNeverAutoSent | backend/mailplans/signals.py:71-79 | a button-click plan is never sent by the hook |
| Recipients.FilterBy | backend/mailplans/recipient_views.py:23-29 | a filter keeps exactly the plans whose column contains the needle, ignoring case; a missing or empty filter keeps all |
| Recipients.ApplyFilters | backend/mailplans/recipient_views.py:23-29 | the queryset is narrowed by each filter that is given, in order |
| Recipients.RecipientList | backend/mailplans/recipient_views.py:14-47 | the answer is the filtered plans folded to one entry per address, and the count is its length |
| Recipients.KeyedStep | backend/mailplans/recipient_views.py:32-40 | the dict has a key exactly for the addresses already listed, and a new address appends its entry |
| Recipients.EntriesOfKeyed | backend/mailplans/recipient_views.py:42 | the dict's values are the entries in insertion order |
| Recipients.DedupDistinct | backend/mailplans/recipient_views.py:32-42 | no address is listed twice |
| Recipients.DedupCovers | backend/mailplans/recipient_views.py:32-42 | every plan's address is listed |
| Recipients.DedupFirstOccurrence | backend/mailplans/recipient_views.py:32-42 | each entry is the entry of the first plan with its address |
| Recipients.FilteredPlansPass | backend/mailplans/recipient_views.py:23-29 | every plan left passes every given filter |
| Recipients.RecipientListSound | backend/mailplans/recipient_views.py:14-47 | each listed entry belongs to a plan that passes the filters |
| Recipients.RecipientListComplete | backend/mailplans/recipient_views.py:14-47 | every plan that passes the filters has its address listed |
| TemplateVars.ExtractPlaceholders | frontend/src/components/NodeEditor.jsx:33-42 | the `regex.exec` loop with a `Set` gives the placeholders of the text |
| TemplateVars.PlaceholdersSpec | frontend/src/components/NodeEditor.jsx:33-42 | every placeholder in the text is reported exactly once, in order of first occurrence, and nothing else is |
| TemplateVars.AddNewMembers | frontend/src/components/NodeEditor.jsx:36-41 | adding to the insertion-ordered set keeps the old members first, adds exactly the new ones and repeats none |
| TemplateVars.AddNewOrder | frontend/src/components/NodeEditor.jsx:36-41 | newly added names come in order of first occurrence |
| TemplateVars.WrappedNameIsFound | frontend/src/components/NodeEditor.jsx:35 | a name written `{{name}}` or `{{ name }}` is found back |
| TemplateVars.EmptyTextHasNoPlaceholders | frontend/src/components/NodeEditor.jsx:34 | empty text has no placeholders |
| TemplateVars.Placeholders | frontend/src/components/NodeEditor.jsx:33-42 | the placeholders are distinct names of letters, digits and `_` |
| TemplateVars.LineEntry | frontend/src/components/NodeEditor.jsx:57-74 | a line gives a non-empty trimmed key and a trimmed value, or nothing |
| TemplateVars.ParsedVars | frontend/src/components/NodeEditor.jsx:45-77 | the parser always returns an object or an array, so the "must be an object" error of the template area can never appear |
| TemplateVars.ParseTemplateVars | frontend/src/components/NodeEditor.jsx:45-77 | parsing by line-by-line assignment gives the parsed variables |
| TemplateVars.ReadLines | frontend/src/components/NodeEditor.jsx:54-76 | the line loop builds the fields of the lines: a later line overrides an earlier key in place, and a `__proto__` key, which the assignment hands to the prototype setter, adds nothing |
| TemplateVars.LinesToFieldsUnique | frontend/src/components/NodeEditor.jsx:74 | parsed keys never repeat |
| TemplateVars.LinesToFieldsFind | frontend/src/components/NodeEditor.jsx:74 | a key takes the value of the last line that gives it, and `__proto__` is never a key |
| TemplateVars.LinesToFieldsClean | frontend/src/components/NodeEditor.jsx:57-74 | parsed keys are non-empty, trimmed and never `__proto__`, and values are trimmed |
| TemplateVars.LineEntryAtColon | frontend/src/components/NodeEditor.jsx:60-65 | a line splits at its first ':' even when an '=' comes earlier |
| TemplateVars.WordIsKey | frontend/src/components/NodeEditor.jsx:69-73 | a line with neither separator is a key with the empty value |
| TemplateVars.EmptyKeyIsDropped | frontend/src/components/NodeEditor.jsx:63-74 | a line with an empty key is dropped |
| TemplateVars.LineEntryOfLine | frontend/src/components/NodeEditor.jsx:80-86 | the line written for a clean field reads back as that field |
| TemplateVars.LinesRoundTrip | frontend/src/components/NodeEditor.jsx:54-86 | reading back the lines written for clean fields gives the same fields |
| TemplateVars.FormattedLinesRoundTrip | frontend/src/components/NodeEditor.jsx:54-86 | splitting the formatted text at newlines and reading it gives back the fields |
| TemplateVars.FormattedTextNotBlank | frontend/src/components/NodeEditor.jsx:46 | formatted text for at least one field is not blank, so it is not read as `{}` |
| TemplateVars.FormatTemplateVars | frontend/src/components/NodeEditor.jsx:80-86 | formatting throws exactly when the value is an object and one of its values has its own `toString` key, directly or inside an array; a value that is not an object, or has no own key, formats to ""; otherwise the text starts with the first key |
| TemplateVars.FilledAsWrittenThrows | frontend/src/components/NodeEditor.jsx:119-126 | the merge adds only "" values, so the merged variables throw when printed exactly when the variables merged into do |
| TemplateVars.ParseFormatRoundTrip | frontend/src/components/NodeEditor.jsx:45-86 | the text for clean string variables parses back to the same object, unless it happens to be JSON for an object or array |
| TemplateVars.AutofillAsWritten | frontend/src/components/NodeEditor.jsx:266-276 | the autofill loop as written gives the merge with the `in` test, and its flag is set exactly when something was added |
| TemplateVars.Autofill | frontend/src/components/NodeEditor.jsx:266-276 | the autofill loop with an own-key test gives the own-key merge, and its flag is set exactly when something was added |
| TemplateVars.InheritedNameIsNotFilled | frontend/src/components/NodeEditor.jsx:271-276 | `{{ constructor }}` gets no variable from the merge as written, while the own-key merge adds it |
| TemplateVars.FilledSpec | frontend/src/components/NodeEditor.jsx:266-283 | the merge keeps every existing key, value and position; it appends each missing placeholder once with ""; it grows exactly when one was missing |
| TemplateVars.FilledAsWrittenSkipsInherited | frontend/src/components/NodeEditor.jsx:119-126 | the merge as written is the own-key merge of the placeholders that are not inherited names |
| TemplateVars.FilledAsWrittenSpec | frontend/src/components/NodeEditor.jsx:266-276 | the merge as written keeps every existing key, value and position; afterwards every placeholder passes `in`; it appends, each once and with "", exactly the placeholders that failed `in`, and grows exactly when one did |
| TemplateVars.BodyEdited | frontend/src/components/NodeEditor.jsx:260-286 | editing the body updates the variables exactly when some placeholder fails the `in` test on the parsed variables; the update is the merge as written (inherited names counting as present) and its formatted text; when a value of the parsed variables throws on printing, the `try` swallows it and there is no update |
| TemplateVars.FilledClean | frontend/src/components/NodeEditor.jsx:119-126 | filling clean string variables with placeholder names other than `__proto__` keeps them clean |
| TemplateVars.EditorOpened | frontend/src/components/NodeEditor.jsx:98-153 | opening a node crashes the editor exactly when the body's `toString()` or printing a starting value throws (both outside any `try`); otherwise it shows the starting variables merged as written with the body's placeholders, and passes up that text read back, which is always an object |
| TemplateVars.StartingFields | frontend/src/components/NodeEditor.jsx:98-117 | stored variables that are an object are taken as they are; missing or empty ones give no starting variables |
| TemplateVars.EditorOpenedPassesShownVars | frontend/src/components/NodeEditor.jsx:98-153 | opening a node with clean string variables crashes only when the body's `toString()` throws, and otherwise passes up exactly the variables shown: the own-key merge of the placeholders that are not inherited names, which is the merge as written |
| TemplateVars.StrFieldsNeverThrow | frontend/src/components/NodeEditor.jsx:84 | string values never throw when printed |
| TemplateVars.ShownVarsParseBack | frontend/src/components/NodeEditor.jsx:150-153 | the shown text of clean string variables merged with the placeholders reads back as that merge, both as written and as the own-key merge of the non-inherited names |
| Builder.StartCanvasStartsAtStart | frontend/src/pages/MailPlanBuilder.jsx:23-25 | the page opens with, and Reset restores, one start node and no edges; the flow executor starts from it |
| Builder.AddNodeDefaults | frontend/src/pages/MailPlanBuilder.jsx:88-110 | a new node is appended after the untouched ones, with a one-hour delay, an empty email or a button-click trigger as its type's default |
| Builder.AddNode | frontend/src/pages/MailPlanBuilder.jsx:88-110 | adding a node keeps the nodes there and appends one whose id is the type, "-" and the clock reading, with the type, the position and the type's default data |
| Builder.NewDelayData | frontend/src/pages/MailPlanBuilder.jsx:98-101 | a new delay node's data resolves to 3600 seconds |
| Builder.NewEmailData | frontend/src/pages/MailPlanBuilder.jsx:96-97 | a new email node has an empty subject, body and recipient, and no variables |
| Builder.NewTriggerData | frontend/src/pages/MailPlanBuilder.jsx:94-95 | a new trigger node is a button-click trigger |
| Builder.UpdatedNodeSpec | frontend/src/pages/MailPlanBuilder.jsx:122-130 | an update keeps every field but data; the data maps the key to the value and keeps the rest; `__save__` leaves the data alone |
| Builder.UpdateNodeData | frontend/src/pages/MailPlanBuilder.jsx:119-132 | an update keeps the length; a node with another id is unchanged and a node with the id becomes an object |
| Builder.UpdateNodeDataSpec | frontend/src/pages/MailPlanBuilder.jsx:119-132 | only nodes carrying the id change, and they keep the id |
| Builder.SelectedAfterUpdate | frontend/src/pages/MailPlanBuilder.jsx:134 | a selection that is empty or another node stays as it is; the selected node gets the value under the key in its data, `__save__` included, and keeps every other field |
| Builder.SaveKeyReachesOnlyThePanel | frontend/src/pages/MailPlanBuilder.jsx:119-134 | a `__save__` update reaches the panel's copy of the node but not the canvas |
| Builder.RemoveKeepsLinks | frontend/src/pages/MailPlanBuilder.jsx:138-143 | deleting a node removes it and every edge touching it, and leaves no dangling edge |
| Builder.RemoveSelectedNode | frontend/src/pages/MailPlanBuilder.jsx:138-143 | without a selection neither the canvas nor the selection changes; otherwise exactly the nodes with another id and the edges touching neither end of it stay, and the selection is cleared |
| Builder.RecipientFromNodes | frontend/src/pages/MailPlanBuilder.jsx:146-161 | the derived recipient is null or truthy |
| Builder.RecipientFromNodesIsFirst | frontend/src/pages/MailPlanBuilder.jsx:146-161 | the derived recipient is the address of the first node that yields one, and null exactly when none does |
| Builder.TypeTestIsRedundant | frontend/src/pages/MailPlanBuilder.jsx:152-154 | the type test never decides: a node yields exactly when it is non-null and has an address |
| Builder.FindNode | frontend/src/pages/MailPlanBuilder.jsx:166-167 | the picked node is the first wanted one, and none is picked exactly when no node is null or wanted |
| Builder.SavedRecipient | frontend/src/pages/MailPlanBuilder.jsx:166-179 | the saved recipient is the derived one or "test@example.com"; the email node's own fields can never supply one |
| Builder.SavedDefaults | frontend/src/pages/MailPlanBuilder.jsx:163-187 | the payload carries the canvas unchanged and truthy subject, content, trigger type and recipient; "No Subject", "No content", `{}`, "Untitled" and "button_click" fill in when there is no email or trigger node, or when the found node's field is falsy, and a falsy body falls back to the content |
| Builder.SavePayload | frontend/src/pages/MailPlanBuilder.jsx:163-187 | the save fails exactly when a node search throws; every payload field is truthy and the flow is the canvas's nodes and edges; with an email node found, the name is the plan name, else its label, else "Untitled", the subject is its subject or "No Subject", the content its body, else its content, else "No content", and the variables its `template_vars` or `{}`; with a trigger node found, the trigger type is its `trigger_type` or "button_click" |
| Builder.SavedContentExample | frontend/src/pages/MailPlanBuilder.jsx:172-177 | an email node with an empty subject and body but some content posts that content under "No Subject", with trigger type "button_click" |
| Builder.NullNodeFailsSave | frontend/src/pages/MailPlanBuilder.jsx:163-167 | a null node before the email and trigger nodes makes the save fail |
| Builder.ConstructedFields | frontend/src/pages/MailPlanBuilder.jsx:50-74 | a plan without a flow is shown as a trigger node, then an email node built from the plan's fields, and one edge from the first to the second |
| Builder.ConstructedCanvasShape | frontend/src/pages/MailPlanBuilder.jsx:50-74 | that canvas has two nodes with distinct ids and one edge; it is well linked; the executor's graph reads it as trigger -> email |
| Builder.ConstructedFind | frontend/src/pages/MailPlanBuilder.jsx:166-167 | saving that canvas picks its email and its trigger node |
| Builder.EmailDataFields | frontend/src/pages/MailPlanBuilder.jsx:61-67 | the email node's data holds the plan's name, subject, content, recipient and variables or their defaults |
| Builder.TriggerDataFields | frontend/src/pages/MailPlanBuilder.jsx:56 | the trigger node's data holds the plan's trigger type or "button_click" |
| Builder.ConstructedRecipient | frontend/src/pages/MailPlanBuilder.jsx:146-161 | that canvas's derived recipient is the plan's address when it has one |
| Builder.ConstructedPayload | frontend/src/pages/MailPlanBuilder.jsx:172-187 | the payload saved from that canvas, field by field |
| Builder.SaveConstructedRecipient | frontend/src/pages/MailPlanBuilder.jsx:170 | saving that canvas gives the plan's address or "test@example.com" |
| Builder.SaveConstructed | frontend/src/pages/MailPlanBuilder.jsx:172-187 | saving that canvas gives the plan's name, subject, content, trigger type and variables, each with its default |
| Builder.LoadThenSave | frontend/src/pages/MailPlanBuilder.jsx:30-81 | loading a plan without a flow and saving it at once gives back its top-level fields, each falsy one replaced by its default |
| Builder.Load | frontend/src/pages/MailPlanBuilder.jsx:30-75 | a plan without a flow loads as two nodes and one edge from the first to the second, well linked; a flow whose nodes are a list loads those nodes |
| PlanList.FirstQualifying | frontend/src/pages/MailPlanList.jsx:46-51 | the loop stops at the first qualifying node, or throws at a null node read first, or finds none |
| PlanList.Walked | frontend/src/pages/MailPlanList.jsx:45-46 | an array is walked item by item; only arrays and strings can be walked |
| PlanList.RecipientFromFlow | frontend/src/pages/MailPlanList.jsx:42-54 | the column shows the plan's fallback or the `recipient_email` of some qualifying node of the walked nodes |
| PlanList.RecipientIsFirstQualifying | frontend/src/pages/MailPlanList.jsx:42-54 | the column shows the first qualifying node's `recipient_email`, whatever it holds |
| PlanList.NoQualifyingShowsFallback | frontend/src/pages/MailPlanList.jsx:42-54 | with no qualifying node before the first null one, the column shows the plan's address or "" |
| PlanList.NonIterableShowsFallback | frontend/src/pages/MailPlanList.jsx:43-53 | flow nodes that are not an array show the fallback: a non-iterable value throws, and a string's characters never qualify |
| PlanList.ListAndBuilderDiffer | frontend/src/pages/MailPlanList.jsx:46-50 | an email node without an address makes the list show nothing, while the builder takes the next node's address |
| PlanList.NullNodeHidesLaterNodes | frontend/src/pages/MailPlanList.jsx:46-53 | a null node ahead of every qualifying node hides them from the list, while the builder skips it |
| PlanList.StatusAfter | frontend/src/pages/MailPlanList.jsx:67-79 | 200 gives "sent", 202 gives "sent" or "scheduled", and any other code keeps the status |
| PlanList.AcceptedStatus | frontend/src/pages/MailPlanList.jsx:70-78 | a 202 means "sent" exactly when the lower-cased message names a mail send and none of "flow enqueued", "honor" and "scheduled" |
| PlanList.WithStatusFields | frontend/src/pages/MailPlanList.jsx:80 | the new plan object holds the status and every other field of the old one |
| PlanList.MapStatus | frontend/src/pages/MailPlanList.jsx:65-83 | the plan list keeps its length; plans with another id stay as they are, and the triggered one becomes a new object |
| PlanList.MapStatusSpec | frontend/src/pages/MailPlanList.jsx:65-83 | only the triggered plan changes, and in it only the status |
| PlanList.PlansAfterTrigger | frontend/src/pages/MailPlanList.jsx:59-87 | a non-2xx answer leaves the plans as they were |
| PlanList.FlowEnqueuedIsScheduled | frontend/src/pages/MailPlanList.jsx:70-73 | the "Flow enqueued" answer shows "scheduled" |
| PlanList.TriggerLadderStatus | frontend/src/pages/MailPlanList.jsx:56-91 | against the endpoint's ladder: an enqueued flow shows "scheduled", an in-process run shows "sent", total failure changes nothing, and after any success "Send Now" goes away |
| PlanList.TriggerBegin | frontend/src/pages/MailPlanList.jsx:57-58 | a click returns when the rendered loading list holds the plan, and otherwise appends the plan to the latest list |
| PlanList.TriggerEnd | frontend/src/pages/MailPlanList.jsx:88-89 | after the request the plan is no longer loading, and every other entry stays |
| PlanList.TriggerKeepsOthers | frontend/src/pages/MailPlanList.jsx:56-91 | a trigger leaves the other plans' loading entries in order, including those started while it ran |
| PlanList.StaleRenderAdmitsSecondClick | frontend/src/pages/MailPlanList.jsx:57-58 | two clicks before a re-render both pass the guard, and the first to settle clears the other's flag |
| PlanList.DeleteRemovesOnlyThatPlan | frontend/src/pages/MailPlanList.jsx:34 | a delete removes exactly the plan with that id and keeps the others in order |

## Left out

- Template rendering: the success path of `_render_with_template` (Django's `Template` and `Context`) is not modelled. Only the fallback rewrite is modelled, with the values given as already converted text.
- The HTML wrapper of the body and the `EmailLog` rows are not modelled. Neither is any database write, the status writes that fail and are swallowed among them. The status `send_mail_task` writes is given by `SendMail.PlanStatusAfter`.
- Celery is not modelled beyond what the tasks read and return. A retry is the outcome `send_mail_task`'s `except` clause reports. The broker, eta execution and `on_commit` timing are outside the model, as is `schedule_due_mailplans`.
- The mail transport and the Celery executor are inputs. A failure to enqueue inside the traversal is swallowed by the source and does not change the walk, so it is not modelled.
- Authentication, permissions, the serializer's `validate` and the auth views are not part of this model.
- Python's `int()` and `float()` are modelled on decimal numerals. Exponents, `inf`, `nan`, underscores and non-ASCII digits and whitespace are not. Lower-casing and trimming are ASCII only.
- `Duration.CoerceInt`, `Duration.ParseDecimalText`: a Python float is modelled as the exact decimal it is written as. Binary rounding is not modelled: `int(float("12345678901234567.9"))` is 12345678901234568, not 12345678901234567. Overflow is not modelled either: a numeral too large for a float becomes `inf`, `int()` raises on it, and the duration counts 0, while the model keeps its whole part.
- JavaScript numbers are modelled as exact integers and decimals. The exponent notation `String()` uses for very large and very small numbers is not modelled, and neither is the ordering of integer-like keys in objects.
- Python's cross-type equality (`1 == True`, `1 == 1.0`) is replaced by structural equality of values, in node ids, types and dict keys alike.
- `PlanList.RecipientFromFlow` requires a non-null plan. For a null plan, `plan.flow` throws inside the `try`, and then the fallback read `plan.recipient_email` (MailPlanList.jsx:53), which is outside it, throws too and crashes the render. That crash is not modelled.
- Reading a property of `null` is modelled in the node searches that can meet a null node: the list page's recipient loop, the builder's `getRecipientFromNodes` and the save's `nodes.find`. Elsewhere a missing or null value reads as `Null`.
- `Builder.UpdateNodeData`, `Builder.RemoveSelectedNode`: a null entry in the node list makes `n.id` throw in the source (MailPlanBuilder.jsx:122 and 140). A null entry in the edge list does the same with `e.source` (line 141). The model reads such an entry's id as `Null` and does not throw.
- `TemplateVars.StartingFields`: `Object.assign` (NodeEditor.jsx:110) hands an own `__proto__` key of the stored variables to the prototype setter, so the editor never shows it. The model keeps it as an ordinary key. The line parser and the merge as written do match the source on `__proto__`.
- `TemplateVars.Filled`, `TemplateVars.Autofill`: the corrected merge records a `{{ __proto__ }}` placeholder as a key. Assigning it in JavaScript would go through the prototype setter instead. The merges the handlers use (`FilledAsWritten`, `AutofillAsWritten`) count `__proto__` as present, as the source does.
- `SendMail.Recipients`: the `str()` of a recipient that is neither a string nor a list is not computed; the value itself stands for its text as the single address.
- Alerts, console output, navigation, the `loadPlans` fetch and the React rendering of the pages are not modelled.
- The builder's `onNodesChange`, `onEdgesChange` and `onConnect` go through the `reactflow` library and are not part of this model.
- The node editor's remaining `useEffect` choices of which text to show (lines 128-147) are not modelled. They pick between equal texts or set display flags, with one exception. The third branch (lines 141-145) catches a formatting error and shows "" instead of crashing. The effect runs only when `node && node.id` changes, and the last id starts as null and is reset to null when no node is shown. So that branch is reached only when a node whose id is null is shown first, or right after no node was shown. The text shown and the object passed up are modelled (`TemplateVars.EditorOpened`).

## Findings

| source | as written | input that shows it | evidently intended | confidence | as-written member | corrected member |
|---|---|---|---|---|---|---|
| frontend/src/components/NodeEditor.jsx:271-276 | the autofill merge adds a placeholder only when `ph in merged` is false, and `in` also sees the names inherited from `Object.prototype`; the merge on opening a node (lines 119-126) uses the same test | a body containing `{{ constructor }}` (or `toString`, `valueOf`, ...) with no such variable yet: no `constructor` variable is added and the template area stays without it | a variable with the empty value is added for every placeholder the object does not itself define, as for any other name | not executed | TemplateVars.InheritedNameIsNotFilled | TemplateVars.FilledSpec |
