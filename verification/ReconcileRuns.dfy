/** Runs of the reconcile protocol that do happen. */
module ReconcileRuns {
  import opened Common
  import opened JobEvents
  import opened ReconcileSteps
  import Conditions

  lemma {:induction false} Extend(cfg: Config, s: State, actions: seq<Action>, a: Action)
    requires CanRun(cfg, s, actions) && Enabled(Run(cfg, s, actions), a)
    ensures CanRun(cfg, s, actions + [a]) && Run(cfg, s, actions + [a]) == Step(cfg, Run(cfg, s, actions), a)
    decreases |actions|
  {
    if actions == [] {
      assert actions + [a] == [a];
      assert Run(cfg, s, [a]) == Run(cfg, Step(cfg, s, a), []);
    } else {
      assert (actions + [a])[1..] == actions[1..] + [a];
      Extend(cfg, Step(cfg, s, actions[0]), actions[1..], a);
    }
  }

  /** A run and where it leads. */
  datatype Trail = Trail(actions: seq<Action>, end: State)

  ghost predicate Leads(cfg: Config, start: State, t: Trail) {
    CanRun(cfg, start, t.actions) && Run(cfg, start, t.actions) == t.end
  }

  /** Nobody but the worker `w` acts. */
  predicate Alone(w: nat, actions: seq<Action>) {
    forall a :: a in actions ==> TakenBy(a, w)
  }

  lemma Go(cfg: Config, start: State, t: Trail, a: Action) returns (next: Trail)
    requires Leads(cfg, start, t) && Enabled(t.end, a)
    ensures Leads(cfg, start, next) && next == Trail(t.actions + [a], Step(cfg, t.end, a))
  {
    Extend(cfg, start, t.actions, a);
    next := Trail(t.actions + [a], Step(cfg, t.end, a));
  }

  // ----- one worker alone

  /** The worker `w` has come to `pc` alone, in a run that changed neither the
      removals nor the other workers. */
  ghost predicate Reached(cfg: Config, start: State, t: Trail, w: nat, api: Api, pc: Pc) {
    && Leads(cfg, start, t) && Alone(w, t.actions)
    && w < |t.end.workers| && t.end.workers[w] == pc
    && t.end.api == api && t.end.history.removals == start.history.removals
  }

  /** A step that leaves the API server alone. */
  lemma GoQuietly(cfg: Config, start: State, t: Trail, w: nat, api: Api, pc: Pc, a: Action, next: Pc)
    returns (u: Trail)
    requires Reached(cfg, start, t, w, api, pc) && Enabled(t.end, a) && TakenBy(a, w)
    requires WorkerStep(cfg, api, pc, a) == Moved(api, next)
    ensures Reached(cfg, start, u, w, api, next)
  {
    u := Go(cfg, start, t, a);
  }

  /** A write that the finalizer survives. */
  lemma GoWriting(cfg: Config, start: State, t: Trail, w: nat, api: Api, pc: Pc, a: Action, moved: Moved)
    returns (u: Trail)
    requires Reached(cfg, start, t, w, api, pc) && Enabled(t.end, a) && TakenBy(a, w)
    requires WorkerStep(cfg, api, pc, a) == moved && Lost(cfg, api.store, moved.api.store) == {}
    ensures Reached(cfg, start, u, w, moved.api, moved.pc)
  {
    u := Go(cfg, start, t, a);
  }

  /** The ansible run on `ran.subject` starts and ends. */
  lemma Executes(cfg: Config, start: State, t: Trail, w: nat, api: Api, ctx: Ctx, ran: Ran,
      result: Conditions.AnsibleResult) returns (u: Trail)
    requires Reached(cfg, start, t, w, api, Starting(ctx, ran.subject))
    requires AfterStart(cfg, ctx, ran.subject) == Executing(ctx, ran.subject, ran.command)
    requires AfterEvents(ctx, ran, result, true) == Refetching(ctx, ran, result)
    ensures Reached(cfg, start, u, w, api, Refetching(ctx, ran, result))
  {
    var executing := Executing(ctx, ran.subject, ran.command);
    u := GoQuietly(cfg, start, t, w, api, Starting(ctx, ran.subject), Start(w), executing);
    u := GoQuietly(cfg, start, u, w, api, executing, EventsEnd(w, ran.events, result, true),
                   Refetching(ctx, ran, result));
  }

  /** It ends well and the object is read again. */
  lemma RunsThrough(cfg: Config, start: State, t: Trail, w: nat, api: Api, ctx: Ctx, ran: Ran,
      result: Conditions.AnsibleResult) returns (u: Trail)
    requires Reached(cfg, start, t, w, api, Starting(ctx, ran.subject))
    requires ctx.first.deleted && api.store == Some(ran.subject) && cfg.finalizer.Some?
    requires AfterStart(cfg, ctx, ran.subject) == Executing(ctx, ran.subject, ran.command)
    requires Outcomes(ran.events, ctx.requeue) == Completed(true, [])
    ensures Reached(cfg, start, u, w, api, Removing(ctx, ran, result, ran.subject))
  {
    AfterSuccess(cfg, ctx, ran, result);
    u := Executes(cfg, start, t, w, api, ctx, ran, result);
    u := GoQuietly(cfg, start, u, w, api, Refetching(ctx, ran, result), Action.Refetch(w),
                   Removing(ctx, ran, result, ran.subject));
  }

  lemma AfterSuccess(cfg: Config, ctx: Ctx, ran: Ran, result: Conditions.AnsibleResult)
    requires Outcomes(ran.events, ctx.requeue) == Completed(true, []) && ctx.first.deleted && cfg.finalizer.Some?
    ensures AfterEvents(ctx, ran, result, true) == Refetching(ctx, ran, result) && !RunFailed(ran)
    ensures AfterRefetch(cfg, ctx, ran, result, ran.subject) == Removing(ctx, ran, result, ran.subject)
  {
  }

  /** The stored object after its conditions were written. */
  function Stamped(api: Api, o: Obj, conditions: seq<Conditions.Condition>): Obj {
    o.(conditions := conditions, version := api.nextVersion)
  }

  lemma StatusWritten(api: Api, o: Obj, conditions: seq<Conditions.Condition>)
    requires api.store == Some(o)
    ensures UpdateStatus(api, o, conditions) == Some(Put(api, Some(o.(conditions := conditions))))
    ensures Put(api, Some(o.(conditions := conditions))).store == Some(Stamped(api, o, conditions))
  {
  }

  /** A status write on the stored object. */
  lemma WritesStatus(cfg: Config, start: State, t: Trail, w: nat, api: Api, pc: Pc, a: Action, o: Obj)
    returns (u: Trail, p: Obj, after: Api)
    requires Reached(cfg, start, t, w, api, pc) && api.store == Some(o) && TakenBy(a, w)
    requires (a.WriteRunning? && pc.UpdatingRunning?) || (a.WriteDone? && pc.UpdatingDone?)
          || (a.WriteError? && pc.UpdatingError?)
    requires pc.base == o
    ensures Reached(cfg, start, u, w, after, AfterWrite(cfg, pc, p))
    ensures after.store == Some(p) && p == Stamped(api, o, pc.conditions)
  {
    StatusWritten(api, o, pc.conditions);
    p, after := Stamped(api, o, pc.conditions), Put(api, Some(o.(conditions := pc.conditions)));
    u := GoWriting(cfg, start, t, w, api, pc, a, Moved(after, AfterWrite(cfg, pc, p)));
  }

  /** Reading the stored object and marking it as running. */
  lemma MarksRunning(cfg: Config, start: State, t: Trail, w: nat, api: Api, ctx: Ctx, o: Obj, now: int)
    returns (u: Trail, p: Obj, after: Api)
    requires Reached(cfg, start, t, w, api, GettingForRunning(ctx)) && api.store == Some(o)
    ensures Reached(cfg, start, u, w, after, Starting(ctx, p))
    ensures after.store == Some(p) && p.uid == o.uid && p.deleted == o.deleted && p.finalizers == o.finalizers
    ensures p.conditions == Conditions.Apply(o.conditions, Conditions.MarkRunning, now)
  {
    var conditions := Conditions.Apply(o.conditions, Conditions.MarkRunning, now);
    var pc := UpdatingRunning(ctx, o, conditions);
    u := GoQuietly(cfg, start, t, w, api, GettingForRunning(ctx), GetForRunning(w, now), pc);
    u, p, after := WritesStatus(cfg, start, u, w, api, pc, WriteRunning(w), o);
  }

  /** The write that takes the last finalizer off. */
  lemma RemovesLast(cfg: Config, start: State, t: Trail, w: nat, api: Api, ctx: Ctx, ran: Ran,
      result: Conditions.AnsibleResult, o: Obj) returns (u: Trail)
    requires Reached(cfg, start, t, w, api, Removing(ctx, ran, result, o)) && api.store == Some(o)
    requires Name(cfg) in o.finalizers && RemoveFinalizer(o.finalizers, Name(cfg)) == []
    ensures Leads(cfg, start, u) && Alone(w, u.actions) && w < |u.end.workers|
    ensures u.end.workers[w] == AfterRemoval(cfg, ctx, ran, result)
    ensures o.deleted ==> u.end.api.store == None
    ensures u.end.history.removals == start.history.removals + [Removal(w, o.uid, ctx.first, ran)]
  {
    var pc := Removing(ctx, ran, result, o);
    var after := Put(api, if o.deleted then None else Some(o.(finalizers := [])));
    assert WorkerStep(cfg, api, pc, WriteRemoval(w)) == Moved(after, AfterRemoval(cfg, ctx, ran, result));
    RecordsRemoval(cfg, t.end.history, api, after, o, pc, w);
    u := Go(cfg, start, t, WriteRemoval(w));
  }

  lemma RecordsRemoval(cfg: Config, h: History, api: Api, after: Api, o: Obj, pc: Pc, w: nat)
    requires api.store == Some(o) && Name(cfg) in o.finalizers && pc.Removing?
    requires after.store.Some? ==> after.store.value.finalizers == []
    ensures Recorded(cfg, h, api.store, after.store, WriteRemoval(w), pc).removals ==
            h.removals + [Removal(w, o.uid, pc.ctx.first, pc.ran)]
  {
    assert o.uid in Lost(cfg, api.store, after.store);
  }

  /** What is left when the object is gone: the final status finds nothing. */
  lemma ReportsNothing(cfg: Config, start: State, t: Trail, w: nat, ctx: Ctx, ran: Ran,
      result: Conditions.AnsibleResult, now: int) returns (u: Trail)
    requires Leads(cfg, start, t) && Alone(w, t.actions) && w < |t.end.workers| && t.end.api.store == None
    requires t.end.workers[w] == AfterRemoval(cfg, ctx, ran, result) && !RunFailed(ran)
    ensures Leads(cfg, start, u) && Alone(w, u.actions) && w < |u.end.workers| && u.end.api.store == None
    ensures u.end.workers[w] == Finished(Answer(ctx.requeue, false))
    ensures u.end.history.removals == t.end.history.removals
  {
    u := t;
    if cfg.manageStatus { u := Go(cfg, start, t, GetForDone(w, now)); }
  }

  function FirstCtx(cfg: Config, o: Obj): Ctx
    requires o.period != Some(Unparsable)
  {
    Ctx(o, match o.period case Some(p) => p.n case None => cfg.period)
  }

  /** From the first read to the start of ansible. */
  lemma Prepares(cfg: Config, s: State, w: nat, o: Obj, now: int) returns (t: Trail, p: Obj, api: Api)
    requires w < |s.workers| && s.workers[w].Idle?
    requires s.api.past != [] && s.api.past[|s.api.past| - 1] == s.api.store == Some(o)
    requires o.period != Some(Unparsable) && Name(cfg) in o.finalizers
    ensures Reached(cfg, s, t, w, api, Starting(FirstCtx(cfg, o), p))
    ensures api.store == Some(p) && p.uid == o.uid && p.deleted == o.deleted && p.finalizers == o.finalizers
  {
    var ctx := FirstCtx(cfg, o);
    t := Trail([], s);
    assert AfterFirstGet(cfg, o) == AfterFinalizer(cfg, ctx, o);
    t := GoQuietly(cfg, s, t, w, s.api, Idle, FirstGet(w, |s.api.past| - 1), AfterFinalizer(cfg, ctx, o));
    p, api := o, s.api;
    if cfg.manageStatus { t, p, api := MarksRunning(cfg, s, t, w, s.api, ctx, o, now); }
  }

  /** Only the finalizer `f` holds the object. */
  predicate HeldBy(f: string, o: Obj) {
    f in o.finalizers && forall g :: g in o.finalizers ==> g == f
  }

  /** The run ends with its stats, without a failure and without interruption. */
  predicate Succeeds(events: seq<JobEvent>) {
    HasStats(events) && AllHandled(events) && forall e :: e in events ==> Quiet(e)
  }

  lemma SuccessCompletes(events: seq<JobEvent>, requeue: nat)
    requires Succeeds(events)
    ensures Outcomes(events, requeue) == Completed(true, [])
  {
    QuietCompletes(events, requeue);
    NoFailures(events);
  }

  lemma {:induction false} HeldIsLast(f: string, fs: seq<string>)
    requires forall g :: g in fs ==> g == f
    ensures RemoveFinalizer(fs, f) == []
  {
    if fs != [] {
      assert fs[0] in fs && forall g :: g in fs[1..] ==> g in fs;
      HeldIsLast(f, fs[1..]);
    }
  }

  /** Progress: whatever happened before, when an object is deleted and only the
      operator's finalizer holds it, one reconcile by the worker alone, with any
      successful ansible run, finalizes the object, takes the finalizer off, makes
      the object go away and ends without an error. */
  lemma DeletionCompletes(cfg: Config, s: State, w: nat, o: Obj, events: seq<JobEvent>,
      result: Conditions.AnsibleResult, now: int) returns (t: Trail, ran: Ran)
    requires w < |s.workers| && s.workers[w].Idle?
    requires s.api.past != [] && s.api.past[|s.api.past| - 1] == s.api.store == Some(o)
    requires o.deleted && o.period != Some(Unparsable)
    requires cfg.finalizer.Some? && HeldBy(Name(cfg), o) && Succeeds(events)
    ensures Leads(cfg, s, t) && Alone(w, t.actions)
    ensures w < |t.end.workers| && t.end.workers[w] == Finished(Answer(FirstCtx(cfg, o).requeue, false))
    ensures t.end.api.store == None
    ensures t.end.history.removals == s.history.removals + [Removal(w, o.uid, o, ran)]
    ensures ran.command.Finalizing? && ran.subject.uid == o.uid && ran.subject.deleted && ran.events == events
  {
    var ctx, p, api := FirstCtx(cfg, o), o, s.api;
    SuccessCompletes(events, ctx.requeue);
    HeldIsLast(Name(cfg), o.finalizers);
    t, p, api := Prepares(cfg, s, w, o, now);
    ran := Ran(p, Finalizing, events);
    AfterSuccess(cfg, ctx, ran, result);
    t := RunsThrough(cfg, s, t, w, api, ctx, ran, result);
    t := RemovesLast(cfg, s, t, w, api, ctx, ran, result, p);
    t := ReportsNothing(cfg, s, t, w, ctx, ran, result, now);
  }

  // ----- an object that is not deleted

  /** The stored object after its finalizers were written. */
  function Refinalized(api: Api, o: Obj, finalizers: seq<string>): Obj {
    o.(finalizers := finalizers, version := api.nextVersion)
  }

  lemma FinalizersWritten(api: Api, o: Obj, finalizers: seq<string>)
    requires api.store == Some(o) && !o.deleted
    ensures Update(api, o, finalizers) == Some(Put(api, Some(o.(finalizers := finalizers))))
    ensures Put(api, Some(o.(finalizers := finalizers))).store == Some(Refinalized(api, o, finalizers))
  {
    assert o.(finalizers := finalizers, period := o.period) == o.(finalizers := finalizers);
  }

  /** `p` is `o` with the operator's finalizer, if there is one, and nothing else. */
  ghost predicate Guarded(cfg: Config, o: Obj, p: Obj) {
    && p.uid == o.uid && p.deleted == o.deleted
    && (forall f :: f in p.finalizers <==> f in o.finalizers || cfg.finalizer == Some(f))
  }

  /** The first read of an object without the finalizer, and the write that adds it. */
  lemma AddsFinalizer(cfg: Config, s: State, w: nat, o: Obj) returns (t: Trail, p: Obj, api: Api)
    requires w < |s.workers| && s.workers[w].Idle?
    requires s.api.past != [] && s.api.past[|s.api.past| - 1] == s.api.store == Some(o)
    requires o.period != Some(Unparsable) && !o.deleted
    requires cfg.finalizer.Some? && cfg.finalizer.value !in o.finalizers
    ensures Reached(cfg, s, t, w, api, AfterFinalizer(cfg, FirstCtx(cfg, o), p))
    ensures api.store == Some(p) && Guarded(cfg, o, p) && p.conditions == o.conditions
  {
    var ctx, finalizers := FirstCtx(cfg, o), AddFinalizer(o.finalizers, Name(cfg));
    var after := Put(s.api, Some(o.(finalizers := finalizers)));
    FinalizersWritten(s.api, o, finalizers);
    p, api := Refinalized(s.api, o, finalizers), after;
    t := Trail([], s);
    assert AfterFirstGet(cfg, o) == AddingFinalizer(ctx);
    t := GoQuietly(cfg, s, t, w, s.api, Idle, FirstGet(w, |s.api.past| - 1), AddingFinalizer(ctx));
    t := GoWriting(cfg, s, t, w, s.api, AddingFinalizer(ctx), WriteFinalizer(w),
                   Moved(after, AfterFinalizer(cfg, ctx, p)));
  }

  /** Where the status is managed, the object was marked as running. */
  predicate MarkedRunning(cfg: Config, o: Obj, p: Obj, now: int) {
    p.conditions == if cfg.manageStatus then Conditions.Apply(o.conditions, Conditions.MarkRunning, now)
                    else o.conditions
  }

  /** Whatever happened before: a worker alone on an object that is not deleted comes
      to the start of ansible, and the stored object then has its old finalizers and
      the operator's. */
  lemma GuardsNewObject(cfg: Config, s: State, w: nat, o: Obj, now: int) returns (t: Trail, p: Obj, api: Api)
    requires w < |s.workers| && s.workers[w].Idle?
    requires s.api.past != [] && s.api.past[|s.api.past| - 1] == s.api.store == Some(o)
    requires o.period != Some(Unparsable) && !o.deleted
    ensures Reached(cfg, s, t, w, api, Starting(FirstCtx(cfg, o), p))
    ensures api.store == Some(p) && Guarded(cfg, o, p) && MarkedRunning(cfg, o, p, now)
  {
    var ctx := FirstCtx(cfg, o);
    p, api, t := o, s.api, Trail([], s);
    if cfg.finalizer.Some? && cfg.finalizer.value !in o.finalizers {
      t, p, api := AddsFinalizer(cfg, s, w, o);
    } else {
      assert AfterFirstGet(cfg, o) == AfterFinalizer(cfg, ctx, o);
      t := GoQuietly(cfg, s, t, w, s.api, Idle, FirstGet(w, |s.api.past| - 1), AfterFinalizer(cfg, ctx, o));
    }
    if cfg.manageStatus { t, p, api := MarksRunning(cfg, s, t, w, api, ctx, p, now); }
  }

  /** Reading the stored object and writing the final status. */
  lemma MarksDone(cfg: Config, start: State, t: Trail, w: nat, api: Api, ctx: Ctx, ran: Ran,
      result: Conditions.AnsibleResult, o: Obj, now: int) returns (u: Trail, p: Obj, after: Api)
    requires Reached(cfg, start, t, w, api, GettingForDone(ctx, ran, result)) && api.store == Some(o)
    ensures Reached(cfg, start, u, w, after, Finished(Answer(ctx.requeue, RunFailed(ran))))
    ensures after.store == Some(p) && p.uid == o.uid && p.deleted == o.deleted && p.finalizers == o.finalizers
    ensures p.conditions ==
            Conditions.Apply(o.conditions, Conditions.MarkDone(result, Failures(ran.events)), now)
  {
    var conditions := Conditions.Apply(o.conditions, Conditions.MarkDone(result, Failures(ran.events)), now);
    var pc := UpdatingDone(ctx, ran, o, conditions);
    u := GoQuietly(cfg, start, t, w, api, GettingForDone(ctx, ran, result), GetForDone(w, now), pc);
    u, p, after := WritesStatus(cfg, start, u, w, api, pc, WriteDone(w), o);
  }

  /** The run ends with its stats and without interruption; it may have failed. */
  predicate Completes(events: seq<JobEvent>) {
    HasStats(events) && forall e :: e in events ==> Quiet(e)
  }

  lemma RunCompletes(ctx: Ctx, ran: Ran, result: Conditions.AnsibleResult)
    requires Completes(ran.events)
    ensures AfterEvents(ctx, ran, result, true) == Refetching(ctx, ran, result)
  {
    QuietCompletes(ran.events, ctx.requeue);
  }

  /** What the conditions say after a reconcile. */
  predicate StatusReports(cs: seq<Conditions.Condition>, failures: seq<string>, result: Conditions.AnsibleResult) {
    var running := Conditions.Get(cs, Conditions.RUNNING);
    var successful := Conditions.Get(cs, Conditions.SUCCESSFUL);
    var failure := Conditions.Get(cs, Conditions.FAILURE);
    && running.Some? && successful.Some? && failure.Some?
    && if failures == [] then
         running.value.status == successful.value.status == Conditions.TRUE && running.value.result == Some(result)
         && failure.value.status == Conditions.FALSE
       else
         running.value.status == successful.value.status == Conditions.FALSE
         && failure.value.status == Conditions.TRUE && failure.value.result == Some(result)
         && failure.value.message == Join(failures, "\n")
  }

  lemma ReconcileReports(cs: seq<Conditions.Condition>, start: int, failures: seq<string>,
      result: Conditions.AnsibleResult, now: int)
    ensures var running := Conditions.Apply(cs, Conditions.MarkRunning, start);
            StatusReports(Conditions.Apply(running, Conditions.MarkDone(result, failures), now), failures, result)
  {
    var running := Conditions.Apply(cs, Conditions.MarkRunning, start);
    Conditions.ApplyActsOnCells(cs, Conditions.MarkRunning, start, Conditions.RUNNING);
    Conditions.ApplyActsOnCells(running, Conditions.MarkDone(result, failures), now, Conditions.RUNNING);
    Conditions.Outcome(running, Conditions.MarkDone(result, failures), now);
    if failures == [] {
      Conditions.MarkedRunReportsResult(cs, start, result, now);
    } else {
      Conditions.FailuresAreReported(running, result, failures, now);
    }
  }

  /** Ansible runs on an object that is not deleted, and it is read again. */
  lemma RunsRegularly(cfg: Config, start: State, t: Trail, w: nat, api: Api, ctx: Ctx, ran: Ran,
      result: Conditions.AnsibleResult) returns (u: Trail)
    requires Reached(cfg, start, t, w, api, Starting(ctx, ran.subject)) && api.store == Some(ran.subject)
    requires !ran.subject.deleted && !ctx.first.deleted && ran.command.Regular? && Completes(ran.events)
    ensures Reached(cfg, start, u, w, api, AfterRemoval(cfg, ctx, ran, result))
  {
    RunCompletes(ctx, ran, result);
    u := Executes(cfg, start, t, w, api, ctx, ran, result);
    assert AfterRefetch(cfg, ctx, ran, result, ran.subject) == AfterRemoval(cfg, ctx, ran, result);
    u := GoQuietly(cfg, start, u, w, api, Refetching(ctx, ran, result), Action.Refetch(w),
                   AfterRemoval(cfg, ctx, ran, result));
  }

  /** Progress for an object that is not deleted, whatever happened before: one
      reconcile by the worker alone, with any ansible run that comes to its end,
      leaves the object with its finalizers and the operator's, takes nothing off,
      answers with a failure exactly when a failure was left unhandled, and, where
      the status is managed, says so in the conditions. */
  lemma ReconcileCompletes(cfg: Config, s: State, w: nat, o: Obj, events: seq<JobEvent>,
      result: Conditions.AnsibleResult, now: int) returns (t: Trail, q: Obj, api: Api)
    requires w < |s.workers| && s.workers[w].Idle?
    requires s.api.past != [] && s.api.past[|s.api.past| - 1] == s.api.store == Some(o)
    requires o.period != Some(Unparsable) && !o.deleted && Completes(events)
    ensures Reached(cfg, s, t, w, api, Finished(Answer(FirstCtx(cfg, o).requeue, !AllHandled(events))))
    ensures api.store == Some(q) && Guarded(cfg, o, q)
    ensures if cfg.manageStatus then StatusReports(q.conditions, Failures(events), result)
            else q.conditions == o.conditions
  {
    var ctx := FirstCtx(cfg, o);
    t, q, api := GuardsNewObject(cfg, s, w, o, now);
    var ran := Ran(q, Regular, events);
    NoFailures(events);
    t := RunsRegularly(cfg, s, t, w, api, ctx, ran, result);
    if cfg.manageStatus {
      t, q, api := MarksDone(cfg, s, t, w, api, ctx, ran, result, q, now);
      ReconcileReports(o.conditions, now, Failures(events), result, now);
    }
  }

  // ----- errors

  /** `p` is `o` with a failure of this message in its conditions. */
  predicate Reported(o: Obj, p: Obj, message: string) {
    && p.uid == o.uid && p.deleted == o.deleted && p.finalizers == o.finalizers
    && Conditions.FailureIs(p.conditions, message, None)
  }

  lemma ReadsForError(cfg: Config, start: State, t: Trail, w: nat, api: Api, answer: Answer, message: string,
      o: Obj, now: int) returns (u: Trail)
    requires Reached(cfg, start, t, w, api, GettingForError(answer, message)) && api.store == Some(o)
    ensures Reached(cfg, start, u, w, api,
                    UpdatingError(answer, o, Conditions.Apply(o.conditions, Conditions.MarkError(message), now)))
  {
    u := GoQuietly(cfg, start, t, w, api, GettingForError(answer, message), GetForError(w, now),
                   UpdatingError(answer, o, Conditions.Apply(o.conditions, Conditions.MarkError(message), now)));
  }

  /** Reading the stored object and writing the error to it. */
  lemma ReportsError(cfg: Config, start: State, t: Trail, w: nat, api: Api, answer: Answer, message: string,
      o: Obj, now: int) returns (u: Trail, p: Obj, after: Api)
    requires Reached(cfg, start, t, w, api, GettingForError(answer, message)) && api.store == Some(o)
    ensures Reached(cfg, start, u, w, after, Finished(answer))
    ensures after.store == Some(p) && Reported(o, p, message)
  {
    var conditions := Conditions.Apply(o.conditions, Conditions.MarkError(message), now);
    var pc := UpdatingError(answer, o, conditions);
    u := ReadsForError(cfg, start, t, w, api, answer, message, o, now);
    u, p, after := WritesStatus(cfg, start, u, w, api, pc, WriteError(w), o);
    Conditions.ErrorIsReported(o.conditions, message, now);
  }

  /** An annotation that is no period, whatever happened before: nothing is run, the
      object is told, and the answer is a failure after the default period. */
  lemma BadPeriodIsReported(cfg: Config, s: State, w: nat, o: Obj, now: int) returns (t: Trail, p: Obj, api: Api)
    requires w < |s.workers| && s.workers[w].Idle?
    requires s.api.past != [] && s.api.past[|s.api.past| - 1] == s.api.store == Some(o)
    requires o.period == Some(Unparsable)
    ensures Reached(cfg, s, t, w, api, Finished(Answer(cfg.period, true)))
    ensures api.store == Some(p) && Reported(o, p, "Unable to parse reconcile period annotation")
  {
    var answer, message := Answer(cfg.period, true), "Unable to parse reconcile period annotation";
    t := GoQuietly(cfg, s, Trail([], s), w, s.api, Idle, FirstGet(w, |s.api.past| - 1),
                   GettingForError(answer, message));
    t, p, api := ReportsError(cfg, s, t, w, s.api, answer, message, o, now);
  }

  /** So when ansible cannot be started, or is not for a deleted object that the
      finalizer does not hold. */
  lemma FailedStartIsReported(cfg: Config, start: State, t: Trail, w: nat, api: Api, ctx: Ctx, u: Obj, a: Action,
      o: Obj, now: int) returns (end: Trail, p: Obj, after: Api)
    requires Reached(cfg, start, t, w, api, Starting(ctx, u)) && api.store == Some(o)
    requires a == StartFails(w)
          || (a == Start(w) && u.deleted && !(cfg.finalizer.Some? && cfg.finalizer.value in u.finalizers))
    ensures Reached(cfg, start, end, w, after, Finished(Answer(ctx.requeue, true)))
    ensures after.store == Some(p) && Reported(o, p, "Unable to run reconciliation")
  {
    var answer, message := Answer(ctx.requeue, true), "Unable to run reconciliation";
    end := GoQuietly(cfg, start, t, w, api, Starting(ctx, u), a, GettingForError(answer, message));
    end, p, after := ReportsError(cfg, start, end, w, api, answer, message, o, now);
  }

  /** And when ansible ends without its stats and its output cannot be read. */
  lemma LostRunIsReported(cfg: Config, start: State, t: Trail, w: nat, api: Api, ctx: Ctx, u: Obj, command: Command,
      events: seq<JobEvent>, result: Conditions.AnsibleResult, o: Obj, now: int)
    returns (end: Trail, p: Obj, after: Api)
    requires Reached(cfg, start, t, w, api, Executing(ctx, u, command)) && api.store == Some(o)
    requires !HasStats(events) && forall e :: e in events ==> Quiet(e)
    ensures Reached(cfg, start, end, w, after, Finished(Answer(ctx.requeue, true)))
    ensures after.store == Some(p) && Reported(o, p, "Failed to get ansible-runner stdout")
  {
    var answer, message := Answer(ctx.requeue, true), "Failed to get ansible-runner stdout";
    QuietCompletes(events, ctx.requeue);
    end := GoQuietly(cfg, start, t, w, api, Executing(ctx, u, command), EventsEnd(w, events, result, false),
                     GettingForError(answer, message));
    end, p, after := ReportsError(cfg, start, end, w, api, answer, message, o, now);
  }

  // ----- an object recreated within a reconcile

  /** The events of a run that only reports its end. */
  const STATS := JobEvent(OnStats, true, None, None, false, false, "")

  lemma StatsComplete(requeue: nat)
    ensures Outcomes([STATS], requeue) == Completed(true, []) && Failures([STATS]) == []
  {
    Uninterrupted([STATS], requeue);
    assert STATS in [STATS];
    assert [STATS][1..] == [];
  }

  const NO_RESULT := Conditions.AnsibleResult(0, 0, 0, 0, 0)

  /** A step of others, on the API server alone. */
  lemma GoForeign(cfg: Config, start: State, t: Trail, a: Action, api: Api) returns (u: Trail)
    requires Leads(cfg, start, t) && Enabled(t.end, a) && IsForeign(a) && ForeignStep(t.end.api, a) == api
    ensures Leads(cfg, start, u) && u.end.api == api && u.end.workers == t.end.workers
  {
    u := Go(cfg, start, t, a);
  }

  /** An object is created and deleted. */
  lemma CreatedAndDeleted(cfg: Config) returns (t: Trail)
    requires cfg.finalizer == Some("f")
    ensures Leads(cfg, INITIAL, t) && t.end.workers == [Idle]
    ensures var o := Obj(0, 0, false, ["f"], None, []); var p := o.(deleted := true, version := 1);
            t.end.api == Api(Some(p), [None, Some(o), Some(p)], 2, 1)
  {
    var o := Obj(0, 0, false, ["f"], None, []);
    var p := o.(deleted := true, version := 1);
    t := Go(cfg, INITIAL, Trail([], INITIAL), NewWorker);
    t := GoForeign(cfg, INITIAL, t, Create(["f"], None, []), Api(Some(o), [None, Some(o)], 1, 1));
    t := GoForeign(cfg, INITIAL, t, Delete, Api(Some(p), [None, Some(o), Some(p)], 2, 1));
  }

  /** A deleted object is gone and a new one has its name; the old one can still
      be read from the cache. */
  lemma Recreated(cfg: Config) returns (t: Trail, before: Obj, after: Obj)
    requires cfg.finalizer == Some("f")
    ensures Leads(cfg, INITIAL, t) && t.end.workers == [Idle] && |t.end.api.past| > 2
    ensures t.end.api.past[2] == Some(before) && before == Obj(0, 1, true, ["f"], None, [])
    ensures t.end.api.store == Some(after) && after == Obj(1, 3, false, ["f"], None, [])
  {
    before, after := Obj(0, 1, true, ["f"], None, []), Obj(1, 3, false, ["f"], None, []);
    t := CreatedAndDeleted(cfg);
    var past := t.end.api.past + [None];
    t := GoForeign(cfg, INITIAL, t, Edit([], None, []), Api(None, past, 3, 1));
    t := GoForeign(cfg, INITIAL, t, Create(["f"], None, []), Api(Some(after), past + [Some(after)], 4, 2));
  }

  /** From a first read of the old object to the start of ansible on the new one. */
  lemma PreparesBoth(cfg: Config, s: State, gone: Obj, created: Obj) returns (t: Trail, p: Obj, api: Api)
    requires cfg == Config(Some("f"), true, 0) && s.workers == [Idle] && |s.api.past| > 2
    requires s.api.past[2] == Some(gone) && gone.finalizers == ["f"] && gone.period == None
    requires s.api.store == Some(created)
    ensures Reached(cfg, s, t, 0, api, Starting(Ctx(gone, 0), p))
    ensures api.store == Some(p) && p.uid == created.uid && p.deleted == created.deleted
    ensures p.finalizers == created.finalizers
  {
    var ctx := Ctx(gone, 0);
    assert AfterFirstGet(cfg, gone) == GettingForRunning(ctx);
    t := GoQuietly(cfg, s, Trail([], s), 0, s.api, Idle, FirstGet(0, 2), GettingForRunning(ctx));
    t, p, api := MarksRunning(cfg, s, t, 0, s.api, ctx, created, 0);
  }

  /** One reconcile that reads the old object first and the new one afterwards. */
  lemma ReconcilesBoth(cfg: Config, s: State, gone: Obj, created: Obj) returns (t: Trail, ran: Ran)
    requires cfg == Config(Some("f"), true, 0) && s.workers == [Idle] && |s.api.past| > 2
    requires s.api.past[2] == Some(gone) && gone.deleted && gone.finalizers == ["f"] && gone.period == None
    requires s.api.store == Some(created) && !created.deleted && created.finalizers == ["f"]
    ensures Leads(cfg, s, t) && Alone(0, t.actions)
    ensures t.end.history.removals == s.history.removals + [Removal(0, created.uid, gone, ran)]
    ensures ran.command.Regular? && ran.subject.uid == created.uid && !ran.subject.deleted
  {
    var p, api;
    t, p, api := PreparesBoth(cfg, s, gone, created);
    ran := Ran(p, Regular, [STATS]);
    StatsComplete(0);
    t := RunsThrough(cfg, s, t, 0, api, Ctx(gone, 0), ran, NO_RESULT);
    HeldIsLast("f", ["f"]);
    t := RemovesLast(cfg, s, t, 0, api, Ctx(gone, 0), ran, NO_RESULT, p);
  }

  /** Why the object must not be recreated within a reconcile: a stale first read
      of a deleted object and a new object of the same name let the operator take
      its finalizer off the new one, which is not deleted, after a regular run. */
  lemma RecreatedObjectLosesFinalizer() returns (before: Trail, t: Trail, r: Removal)
    ensures var cfg := Config(Some("f"), true, 0);
            Leads(cfg, INITIAL, before) && Leads(cfg, before.end, t) && r in t.end.history.removals
    ensures r.first.uid != r.uid && r.ran.subject.uid == r.uid && !r.ran.subject.deleted && r.ran.command.Regular?
  {
    var cfg := Config(Some("f"), true, 0);
    var gone, created, ran;
    before, gone, created := Recreated(cfg);
    t, ran := ReconcilesBoth(cfg, before.end, gone, created);
    r := Removal(0, created.uid, gone, ran);
    assert t.end.history.removals[|t.end.history.removals| - 1] == r;
  }
}
