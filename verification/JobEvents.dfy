/** The events of one ansible run, as the reconciler reads them. */
module JobEvents {
  import opened Common

  /** The event names that matter: playbook_on_stats and runner_on_failed. */
  datatype Kind = OnStats | OnFailed | OtherEvent(name: string)

  /** The task actions that matter: operator_sdk.util.requeue_after and requeue_after. */
  datatype TaskAction = QualifiedRequeueAfter | RequeueAfter | OtherAction(name: string)

  /** The period a requeue_after task asks for. */
  datatype Period = Seconds(n: nat) | Unparsable

  /** `readable` says whether the event survives re-encoding as a status event;
      `period` is there when the task's result is a map. */
  datatype JobEvent = JobEvent(event: Kind, readable: bool, taskAction: Option<TaskAction>, period: Option<Period>,
                               ignoreErrors: bool, rescued: bool, message: string)

  /** What Reconcile answers: when to come back, and whether it failed. */
  datatype Answer = Answer(requeueAfter: nat, failed: bool)

  datatype Outcome = Returned(answer: Answer) | Completed(stats: bool, failures: seq<string>)

  predicate AsksRequeue(e: JobEvent) {
    (e.taskAction == Some(QualifiedRequeueAfter)
     || (e.taskAction == Some(RequeueAfter) && !e.event.OnFailed?))
    && e.period.Some?
  }

  /** A failure that was neither ignored nor rescued. */
  predicate Fails(e: JobEvent) {
    e.event.OnFailed? && !e.ignoreErrors && !e.rescued
  }

  /** The answer an event makes Reconcile return at once, if any. */
  function Interrupts(e: JobEvent, requeue: nat): Option<Answer> {
    if e.event.OnStats? && !e.readable then Some(Answer(0, true))
    else if AsksRequeue(e) then
      Some(match e.period.value case Seconds(n) => Answer(n, false) case Unparsable => Answer(requeue, true))
    else None
  }

  /** The messages of the failures among the events, in order. */
  function Failures(es: seq<JobEvent>): seq<string> {
    if es == [] then [] else (if Fails(es[0]) then [es[0].message] else []) + Failures(es[1..])
  }

  predicate HasStats(es: seq<JobEvent>) {
    exists e :: e in es && e.event.OnStats?
  }

  /** Every failed event was ignored or rescued. */
  predicate AllHandled(es: seq<JobEvent>) {
    forall e :: e in es ==> e.event != OnFailed || e.ignoreErrors || e.rescued
  }

  /** The first event that interrupts decides; otherwise all are taken in. */
  function Outcomes(es: seq<JobEvent>, requeue: nat): Outcome {
    if i: nat :|
      i < |es| && Interrupts(es[i], requeue).Some? &&
      forall j :: 0 <= j < i ==> Interrupts(es[j], requeue).None?
    then Returned(Interrupts(es[i], requeue).value)
    else Completed(HasStats(es), Failures(es))
  }

  /** When no event interrupts, all are taken in. */
  lemma Uninterrupted(es: seq<JobEvent>, requeue: nat)
    requires forall e :: e in es ==> Interrupts(e, requeue).None?
    ensures Outcomes(es, requeue) == Completed(HasStats(es), Failures(es))
  {
    assert forall i :: 0 <= i < |es| ==> es[i] in es;
  }

  lemma {:induction false} FailuresAppend(es: seq<JobEvent>, e: JobEvent)
    ensures Failures(es + [e]) ==
            if e.event == OnFailed && !e.ignoreErrors && !e.rescued then Failures(es) + [e.message] else Failures(es)
  {
    if es == [] {
      assert es + [e] == [e];
    } else {
      assert (es + [e])[1..] == es[1..] + [e];
      FailuresAppend(es[1..], e);
    }
  }

  lemma {:induction false} NoFailures(es: seq<JobEvent>)
    ensures Failures(es) == [] <==> AllHandled(es)
  {
    if es != [] {
      NoFailures(es[1..]);
      assert es[0] in es;
      assert forall e :: e in es <==> e == es[0] || e in es[1..];
    }
  }

  lemma FirstInterrupts(es: seq<JobEvent>, i: nat, requeue: nat)
    requires i < |es| && Interrupts(es[i], requeue).Some?
    requires forall j :: 0 <= j < i ==> Interrupts(es[j], requeue).None?
    ensures Outcomes(es, requeue) == Returned(Interrupts(es[i], requeue).value)
  {
  }

  /** The event is no stats event that cannot be read, and comes from no
      requeue_after task with a result; a failed one without the qualified name
      does not matter either. */
  predicate Quiet(e: JobEvent) {
    && (e.event == OnStats ==> e.readable)
    && (e.period == None
        || match e.taskAction
           case Some(QualifiedRequeueAfter) => false
           case Some(RequeueAfter) => e.event == OnFailed
           case _ => true)
  }

  /** Quiet events are all taken in. */
  lemma QuietCompletes(es: seq<JobEvent>, requeue: nat)
    requires forall e :: e in es ==> Quiet(e)
    ensures Outcomes(es, requeue) == Completed(HasStats(es), Failures(es))
  {
    assert forall e :: e in es ==> Interrupts(e, requeue).None?;
    Uninterrupted(es, requeue);
  }

  /** The first event that is not quiet decides, whatever comes after it: unreadable
      stats are a failure, a period to wait is answered with that period and no
      failure, and one that cannot be parsed with a failure and the period so far. */
  lemma FirstDecides(before: seq<JobEvent>, e: JobEvent, after: seq<JobEvent>, requeue: nat)
    requires (forall x :: x in before ==> Quiet(x)) && !Quiet(e)
    ensures Outcomes(before + [e] + after, requeue) ==
            Returned(if e.event == OnStats && !e.readable then Answer(0, true)
                     else match e.period
                       case Some(Seconds(n)) => Answer(n, false)
                       case _ => Answer(requeue, true))
  {
    var es := before + [e] + after;
    assert es[|before|] == e;
    forall j | 0 <= j < |before| ensures Interrupts(es[j], requeue).None? {
      assert es[j] == before[j] && before[j] in before;
    }
    FirstInterrupts(es, |before|, requeue);
  }

  lemma StatsAppend(es: seq<JobEvent>, e: JobEvent)
    ensures HasStats(es + [e]) <==> HasStats(es) || e.event.OnStats?
  {
    assert forall x :: x in es + [e] <==> x in es || x == e;
  }

  /** The loop over the event channel. */
  method ReadEvents(es: seq<JobEvent>, requeue: nat) returns (r: Outcome)
    ensures r == Outcomes(es, requeue)
  {
    var stats := false;
    var failures: seq<string> := [];
    for i := 0 to |es|
      invariant forall j :: 0 <= j < i ==> Interrupts(es[j], requeue).None?
      invariant stats <==> HasStats(es[..i])
      invariant failures == Failures(es[..i])
    {
      var e := es[i];
      assert es[..i + 1] == es[..i] + [e];
      FailuresAppend(es[..i], e);
      StatsAppend(es[..i], e);
      if Interrupts(e, requeue).Some? { FirstInterrupts(es, i, requeue); }
      if e.event.OnStats? {
        if !e.readable { return Returned(Answer(0, true)); }
        stats := true;
      }
      if e.taskAction == Some(QualifiedRequeueAfter) || (e.taskAction == Some(RequeueAfter) && !e.event.OnFailed?) {
        if e.period.Some? {
          match e.period.value {
            case Unparsable => return Returned(Answer(requeue, true));
            case Seconds(n) => return Returned(Answer(n, false));
          }
        }
      }
      if e.event.OnFailed? && !e.ignoreErrors && !e.rescued {
        failures := failures + [e.message];
      }
    }
    assert es[..|es|] == es;
    assert forall e :: e in es ==> Interrupts(e, requeue).None?;
    Uninterrupted(es, requeue);
    r := Completed(stats, failures);
  }
}
