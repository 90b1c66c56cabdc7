/**
 * The plan endpoints' executor decisions: what creating a plan enqueues, and the
 * fallback ladder of the manual trigger. Each executor call is an input saying
 * whether it raised.
 */
module PlanViews {

  /** What `perform_create` does, in order: the save, the enqueue of the flow executor, and
      the log line that reports how the enqueue went. */
  datatype Effect = Save | Enqueue | LogEnqueued | LogEnqueueFailed

  datatype CreateResult = CreateResult(effects: seq<Effect>, raised: bool)

  /** `perform_create`: the plan is saved first; the flow executor is enqueued only for an
      `on_signup` plan, and an exception from the enqueue (enqueueRaises) is caught and logged,
      so the request never fails on it and the save stands. */
  function PerformCreate(triggerType: string, enqueueRaises: bool): (r: CreateResult)
    ensures |r.effects| >= 1 && r.effects[0] == Save && Save !in r.effects[1..]
    ensures !r.raised
    ensures Enqueue in r.effects <==> triggerType == "on_signup"
    ensures LogEnqueueFailed in r.effects <==> triggerType == "on_signup" && enqueueRaises
  {
    if triggerType != "on_signup" then CreateResult([Save], false)
    else if enqueueRaises then CreateResult([Save, Enqueue, LogEnqueueFailed], false)
    else CreateResult([Save, Enqueue, LogEnqueued], false)
  }

  /** The three executor calls the trigger endpoint may make, in this order. */
  datatype Attempt = EnqueueFlow | RunFlowNow | SendNow

  datatype Response = Response(code: int, message: string)

  /** `trigger`: enqueue the flow; if that raises, run the flow in-process; if that raises,
      send in-process; if that raises too, 503. Returns the response and the calls made. */
  function Trigger(enqueueOk: bool, runFlowOk: bool, sendOk: bool): (Response, seq<Attempt>) {
    if enqueueOk then (Response(202, "Flow enqueued"), [EnqueueFlow])
    else if runFlowOk then (Response(200, "Flow executed synchronously (fallback)"), [EnqueueFlow, RunFlowNow])
    else if sendOk then (Response(200, "Sent synchronously (final fallback)"), [EnqueueFlow, RunFlowNow, SendNow])
    else (Response(503, "Unable to enqueue or send at this time."), [EnqueueFlow, RunFlowNow, SendNow])
  }

  /** Whether the given call succeeds under the given outcomes. */
  predicate Succeeds(a: Attempt, enqueueOk: bool, runFlowOk: bool, sendOk: bool) {
    match a
    case EnqueueFlow => enqueueOk
    case RunFlowNow => runFlowOk
    case SendNow => sendOk
  }

  /** The ladder: calls are made in the fixed order and stop at the first success; every call
      but the last one failed; a 2xx answer means the last call succeeded, and 503 means all
      three failed. */
  lemma TriggerLadder(enqueueOk: bool, runFlowOk: bool, sendOk: bool)
    ensures var (resp, calls) := Trigger(enqueueOk, runFlowOk, sendOk);
            1 <= |calls| <= 3 && calls == [EnqueueFlow, RunFlowNow, SendNow][..|calls|] &&
            (forall i :: 0 <= i < |calls| - 1 ==> !Succeeds(calls[i], enqueueOk, runFlowOk, sendOk)) &&
            (200 <= resp.code < 300 <==> Succeeds(calls[|calls| - 1], enqueueOk, runFlowOk, sendOk)) &&
            (resp.code == 503 <==> !enqueueOk && !runFlowOk && !sendOk) &&
            (resp.code == 202 <==> enqueueOk) &&
            (resp.code == 202 || resp.code == 200 || resp.code == 503)
  {
  }
}
