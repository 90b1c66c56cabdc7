/**
 * The guarded post-save hook: a newly created plan is sent automatically only
 * when the deployment allows it and the plan's trigger type is one of three.
 */
module Signals {
  import opened Values

  /** `ALLOW_AUTO_ENQUEUE`, read once from the environment. */
  predicate AllowAutoEnqueue(env: Option<string>) { FlagOn(env) }

  /** The trigger types the hook may act on. */
  predicate AllowedTrigger(trigger: Option<string>) {
    trigger == Some("scheduled") || trigger == Some("after_1_day") || trigger == Some("on_signup")
  }

  /** `schedule_mailplan_send`: the plan ids whose send is registered to be enqueued on commit
      (`onCommitOk` false: registering raised and was swallowed). */
  function ScheduleMailplanSend(allow: bool, created: bool, trigger: Option<string>, planId: int, onCommitOk: bool): seq<int> {
    if !allow then []
    else if !created then []
    else if !AllowedTrigger(trigger) then []
    else if onCommitOk then [planId]
    else []
  }

  /** Nothing is registered unless all three conditions hold; when they hold (and registering
      does not raise) exactly one send of that plan is registered. */
  lemma GuardRegistersAtMostOnce(env: Option<string>, created: bool, trigger: Option<string>, planId: int, onCommitOk: bool)
    ensures var regs := ScheduleMailplanSend(AllowAutoEnqueue(env), created, trigger, planId, onCommitOk);
            |regs| <= 1 &&
            (regs != [] <==> AllowAutoEnqueue(env) && created && AllowedTrigger(trigger) && onCommitOk) &&
            (regs != [] ==> regs == [planId])
  {
  }

  /** The flag is on only for "1", "true" and "True"; unset it is off. */
  lemma FlagValues(v: string)
    ensures AllowAutoEnqueue(Some(v)) <==> v in {"1", "true", "True"}
    ensures !AllowAutoEnqueue(None)
  {
  }

  /** A plan created with the default trigger type of a new plan in the builder
      ("button_click") is never sent by the hook. */
  lemma ButtonClickNeverAutoSent(allow: bool, created: bool, planId: int, onCommitOk: bool)
    ensures ScheduleMailplanSend(allow, created, Some("button_click"), planId, onCommitOk) == []
  {
  }
}
