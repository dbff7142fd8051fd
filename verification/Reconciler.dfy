/**
 * Reconcile as the straight-line code it is, against a cluster in which others
 * act before each of its calls. It only takes steps of the machine of module
 * ReconcileSteps, so what is proved of the machine's runs holds of this code.
 */
module Reconciler {
  import opened Common
  import opened JobEvents
  import opened ReconcileSteps
  import opened ReconcileRuns
  import opened ReconcileSafety
  import Conditions

  /** Everything a reconcile does not decide itself, by number of the call: what
      others do before it, whether it fails, and whether a failed write takes
      effect all the same; the time; and the ansible run. */
  datatype Env = Env(cached: nat, others: nat -> seq<Action>, fails: nat -> bool, applied: nat -> bool, now: int,
                     kubeconfigFails: bool, runnerFails: bool, events: seq<JobEvent>, stdoutRead: bool,
                     result: Conditions.AnsibleResult)

  datatype Fetched = Found(o: Obj) | NotFound | GetError

  /** A property of states that every step keeps. */
  ghost predicate StepClosed(cfg: Config, kept: State -> bool) {
    forall s, a :: kept(s) && Enabled(s, a) ==> kept(Step(cfg, s, a))
  }

  /** The cluster. `kept` stands for any property that every step keeps: what is
      shown is that the code keeps it too, so the code only takes such steps. */
  class Cluster {
    const cfg: Config
    var state: State
    ghost const kept: State -> bool

    constructor (cfg: Config, state: State, ghost kept: State -> bool)
      requires StepClosed(cfg, kept) && kept(state)
      ensures this.cfg == cfg && this.state == state && this.kept == kept && Valid()
    {
      this.cfg, this.state, this.kept := cfg, state, kept;
    }

    ghost predicate Valid() reads this {
      StepClosed(cfg, kept) && kept(state)
    }

    ghost predicate At(w: nat, pc: Pc) reads this {
      w < |state.workers| && state.workers[w] == pc
    }

    method Act(a: Action)
      requires Valid() && Enabled(state, a)
      modifies this
      ensures Valid() && state == Step(cfg, old(state), a)
    {
      state := Step(cfg, state, a);
    }

    /** A step of the worker itself. */
    method Take(w: nat, a: Action, ghost pc: Pc, ghost next: Pc)
      requires Valid() && At(w, pc) && Enabled(state, a) && TakenBy(a, w)
      requires WorkerStep(cfg, state.api, pc, a).pc == next
      modifies this
      ensures Valid() && At(w, next) && state.api == WorkerStep(cfg, old(state.api), pc, a).api
    {
      state := Step(cfg, state, a);
    }

    /** Others do what they can of `actions`. */
    method Interfere(w: nat, actions: seq<Action>)
      requires Valid() && w < |state.workers|
      modifies this
      ensures Valid() && At(w, old(state.workers[w]))
    {
      for i := 0 to |actions|
        invariant Valid() && At(w, old(state.workers[w]))
      {
        if !TakenBy(actions[i], w) && Enabled(state, actions[i]) { Act(actions[i]); }
      }
    }

    /** A read that may come from the cache. */
    method CachedGet(w: nat, env: Env) returns (got: Fetched)
      requires Valid() && At(w, Idle)
      modifies this
      ensures Valid()
      ensures At(w, match got
                    case Found(o) => AfterFirstGet(cfg, o)
                    case NotFound => Finished(Answer(0, false))
                    case GetError => Finished(Answer(0, true)))
    {
      Interfere(w, env.others(0));
      if env.fails(0) || env.cached >= |state.api.past| {
        Take(w, GetFails(w), Idle, Finished(Answer(0, true)));
        return GetError;
      }
      got := FirstRead(w, env.cached);
    }

    /** A read that answers with something once stored. */
    method FirstRead(w: nat, cached: nat) returns (got: Fetched)
      requires Valid() && At(w, Idle) && cached < |state.api.past|
      modifies this
      ensures Valid()
      ensures match got
              case Found(o) => At(w, AfterFirstGet(cfg, o)) && Some(o) in old(state.api.past)
              case NotFound => At(w, Finished(Answer(0, false)))
              case GetError => false
    {
      var read := state.api.past[cached];
      if read.None? {
        Take(w, FirstGet(w, cached), Idle, Finished(Answer(0, false)));
        return NotFound;
      }
      Take(w, FirstGet(w, cached), Idle, AfterFirstGet(cfg, read.value));
      return Found(read.value);
    }

    /** The end of the ansible run. */
    method EndEvents(w: nat, env: Env, ghost ctx: Ctx, ghost ran: Ran)
      requires Valid() && At(w, Executing(ctx, ran.subject, ran.command)) && ran.events == env.events
      modifies this
      ensures Valid() && At(w, AfterEvents(ctx, ran, env.result, env.stdoutRead))
    {
      Interfere(w, env.others(7));
      Take(w, EventsEnd(w, env.events, env.result, env.stdoutRead), Executing(ctx, ran.subject, ran.command),
           AfterEvents(ctx, ran, env.result, env.stdoutRead));
    }

    /** A read of the stored object; `a` is the step it is part of. */
    method LiveGet(w: nat, env: Env, call: nat, a: Action, ghost pc: Pc) returns (got: Fetched)
      requires Valid() && At(w, pc) && TakenBy(a, w) && IsRead(a, pc)
      modifies this
      ensures Valid()
      ensures got.GetError? ==> At(w, AfterFailure(pc))
      ensures !got.GetError? ==>
        var read := if got.Found? then Some(got.o) else None;
        At(w, AfterRead(cfg, pc, a, read)) && state.api.store == read
    {
      Interfere(w, env.others(call));
      if env.fails(call) {
        Take(w, GetFails(w), pc, AfterFailure(pc));
        return GetError;
      }
      var read := state.api.store;
      Take(w, a, pc, AfterRead(cfg, pc, a, read));
      return match read case Some(o) => Found(o) case None => NotFound;
    }

    /** A write that fails, before or after it took effect. */
    method FailWrite(w: nat, env: Env, call: nat, ghost pc: Pc)
      requires Valid() && At(w, pc) && IsWriting(pc)
      modifies this
      ensures Valid() && At(w, AfterFailure(pc))
    {
      if env.applied(call) {
        Take(w, AnswerLost(w), pc, AfterFailure(pc));
      } else {
        Take(w, UpdateFails(w), pc, AfterFailure(pc));
      }
    }

    /** A write of the object's metadata, based on `base`: it is accepted only when
        that is what is stored, in the state `met` that the call finds. */
    method ClientUpdate(w: nat, env: Env, call: nat, a: Action, base: Obj, finalizers: seq<string>, ghost pc: Pc)
      returns (ok: bool, updated: Obj, ghost met: Api)
      requires Valid() && At(w, pc)
      requires (a == WriteFinalizer(w) && pc.AddingFinalizer? && base == pc.ctx.first
                && finalizers == AddFinalizer(base.finalizers, Name(cfg)))
            || (a == WriteRemoval(w) && pc.Removing? && base == pc.base
                && finalizers == RemoveFinalizer(base.finalizers, Name(cfg)))
      modifies this
      ensures Valid()
      ensures !ok ==> At(w, AfterFailure(pc))
      ensures ok ==> At(w, AfterWrite(cfg, pc, updated))
      ensures ok ==> Current(met, base) && Update(met, base, finalizers) == Some(state.api)
      ensures ok && state.api.store.Some? ==> updated == state.api.store.value
    {
      Interfere(w, env.others(call));
      met := state.api;
      if env.fails(call) {
        FailWrite(w, env, call, pc);
        return false, base, met;
      }
      var attempt := Update(state.api, base, finalizers);
      Take(w, a, pc, Written(cfg, state.api, pc, true).pc);
      return attempt.Some?, attempt.GetOr(state.api).store.GetOr(base), met;
    }

    /** A write of the object's conditions, based on `base`. */
    method StatusUpdate(w: nat, env: Env, call: nat, a: Action, base: Obj, conditions: seq<Conditions.Condition>,
        ghost pc: Pc)
      returns (ok: bool, updated: Obj, ghost met: Api)
      requires Valid() && At(w, pc)
      requires (a == WriteRunning(w) && pc.UpdatingRunning?)
            || (a == WriteDone(w) && pc.UpdatingDone?)
            || (a == WriteError(w) && pc.UpdatingError?)
      requires base == pc.base && conditions == pc.conditions
      modifies this
      ensures Valid()
      ensures !ok ==> At(w, AfterFailure(pc))
      ensures ok ==> At(w, AfterWrite(cfg, pc, updated))
      ensures ok ==> Current(met, base) && UpdateStatus(met, base, conditions) == Some(state.api)
      ensures ok ==> state.api.store == Some(updated)
    {
      Interfere(w, env.others(call));
      met := state.api;
      if env.fails(call) {
        FailWrite(w, env, call, pc);
        return false, base, met;
      }
      var attempt := UpdateStatus(state.api, base, conditions);
      Take(w, a, pc, Written(cfg, state.api, pc, true).pc);
      return attempt.Some?, attempt.GetOr(state.api).store.GetOr(base), met;
    }
  }

  // ----- the code

  /** The write that follows a read for a condition update. */
  function Marking(pc: Pc, base: Obj, conditions: seq<Conditions.Condition>): Pc {
    match pc
    case GettingForRunning(ctx) => UpdatingRunning(ctx, base, conditions)
    case GettingForDone(ctx, ran, _) => UpdatingDone(ctx, ran, base, conditions)
    case GettingForError(answer, _) => UpdatingError(answer, base, conditions)
    case _ => pc
  }

  /** The update a read is made for. */
  predicate MarkFits(mark: Conditions.Mark, a: Action, w: nat, now: int, pc: Pc) {
    match pc
    case GettingForRunning(_) => a == GetForRunning(w, now) && mark == Conditions.MarkRunning
    case GettingForDone(_, ran, result) => a == GetForDone(w, now)
        && mark == Conditions.MarkDone(result, Failures(ran.events))
    case GettingForError(_, message) => a == GetForError(w, now) && mark == Conditions.MarkError(message)
    case _ => false
  }

  /** Reads the latest object and makes the update on its conditions. */
  method ReadMarked(c: Cluster, w: nat, env: Env, call: nat, a: Action, mark: Conditions.Mark, ghost pc: Pc)
    returns (got: Fetched, conditions: seq<Conditions.Condition>)
    requires c.Valid() && c.At(w, pc) && MarkFits(mark, a, w, env.now, pc)
    modifies c
    ensures c.Valid()
    ensures got.Found? ==> c.At(w, Marking(pc, got.o, conditions))
    ensures got.GetError? ==> c.At(w, AfterFailure(pc))
    ensures got.NotFound? ==>
        c.At(w, if pc.GettingForDone? then Finished(Answer(pc.ctx.requeue, RunFailed(pc.ran))) else AfterFailure(pc))
  {
    conditions := [];
    got := c.LiveGet(w, env, call, a, pc);
    if got.Found? { conditions := Conditions.Updated(got.o.conditions, mark, env.now); }
  }

  method MarkRunning(c: Cluster, w: nat, env: Env, stale: Obj, ghost ctx: Ctx) returns (ok: bool, u: Obj)
    requires c.Valid() && c.At(w, GettingForRunning(ctx))
    modifies c
    ensures c.Valid()
    ensures c.At(w, if ok then Starting(ctx, u) else Finished(Answer(ctx.requeue, true)))
  {
    var got, conditions := ReadMarked(c, w, env, 2, GetForRunning(w, env.now), Conditions.MarkRunning,
        GettingForRunning(ctx));
    if !got.Found? { return false, stale; }
    ghost var met;
    ok, u, met :=
      c.StatusUpdate(w, env, 3, WriteRunning(w), got.o, conditions, UpdatingRunning(ctx, got.o, conditions));
  }

  method MarkError(c: Cluster, w: nat, env: Env, ghost answer: Answer, message: string)
    requires c.Valid() && c.At(w, GettingForError(answer, message))
    modifies c
    ensures c.Valid() && c.At(w, Finished(answer))
  {
    var got, conditions :=
      ReadMarked(c, w, env, 4, GetForError(w, env.now), Conditions.MarkError(message),
          GettingForError(answer, message));
    if !got.Found? { return; }
    var ok, u, met :=
      c.StatusUpdate(w, env, 5, WriteError(w), got.o, conditions, UpdatingError(answer, got.o, conditions));
  }

  method MarkDone(c: Cluster, w: nat, env: Env, ghost ctx: Ctx, ghost ran: Ran, failures: seq<string>)
      returns (ok: bool)
    requires c.Valid() && c.At(w, GettingForDone(ctx, ran, env.result)) && failures == Failures(ran.events)
    modifies c
    ensures c.Valid()
    ensures c.At(w, Finished(Answer(ctx.requeue, !ok || failures != [])))
  {
    var got, conditions :=
      ReadMarked(c, w, env, 8, GetForDone(w, env.now), Conditions.MarkDone(env.result, failures),
          GettingForDone(ctx, ran, env.result));
    if got.NotFound? { return true; }
    if got.GetError? { return false; }
    var u;
    ghost var met;
    ok, u, met := c.StatusUpdate(w, env, 9, WriteDone(w), got.o, conditions, UpdatingDone(ctx, ran, got.o, conditions));
  }

  /** What is known when ansible can be run: the object, whether the first read
      saw it deleted, and the period so far. */
  datatype Prepared = Ready(u: Obj, deleted: bool, requeueAfter: nat) | Early(answer: Answer)

  /** The object goes on with its finalizers and the operator's, if there is one; a
      deleted one only when it had that already. */
  predicate HasFinalizer(cfg: Config, first: Obj, u: Obj) {
    && u.uid == first.uid
    && (cfg.finalizer.Some? ==> cfg.finalizer.value in u.finalizers)
    && (first.deleted ==> cfg.finalizer.GetOr("") in first.finalizers)
    && (forall f :: f in first.finalizers ==> f in u.finalizers)
    && (forall f :: f in u.finalizers ==> f in first.finalizers || cfg.finalizer == Some(f))
  }

  /** The first read and the finalizer. */
  method EnsureFinalizer(c: Cluster, w: nat, env: Env) returns (r: Prepared, ghost ctx: Ctx)
    requires c.Valid() && c.At(w, Idle)
    modifies c
    ensures c.Valid()
    ensures r.Early? ==> c.At(w, Finished(r.answer))
    ensures r.Ready? ==>
      c.At(w, AfterFinalizer(c.cfg, ctx, r.u)) && r.deleted == ctx.first.deleted && r.requeueAfter == ctx.requeue
    ensures r.Ready? ==> HasFinalizer(c.cfg, ctx.first, r.u)
  {
    var cfg := c.cfg;
    var requeueAfter := cfg.period;
    ctx := Ctx(Obj(0, 0, false, [], None, []), 0);
    var got := c.CachedGet(w, env);
    if got.NotFound? { return Early(Answer(0, false)), ctx; }
    if got.GetError? { return Early(Answer(0, true)), ctx; }
    var u := got.o;
    if u.period.Some? {
      if u.period.value.Unparsable? {
        MarkError(c, w, env, Answer(requeueAfter, true), "Unable to parse reconcile period annotation");
        return Early(Answer(requeueAfter, true)), ctx;
      }
      requeueAfter := u.period.value.n;
    }
    ctx := Ctx(u, requeueAfter);
    var deleted := u.deleted;
    if Name(cfg) !in u.finalizers {
      if deleted {
        return Early(Answer(0, false)), ctx;
      } else if cfg.finalizer.Some? {
        var ok, updated, met := c.ClientUpdate(w, env, 1, WriteFinalizer(w), u, AddFinalizer(u.finalizers, Name(cfg)),
            AddingFinalizer(ctx));
        if !ok { return Early(Answer(requeueAfter, true)), ctx; }
        u := updated;
      }
    }
    r := Ready(u, deleted, requeueAfter);
  }

  method Prepare(c: Cluster, w: nat, env: Env) returns (r: Prepared, ghost ctx: Ctx)
    requires c.Valid() && c.At(w, Idle)
    modifies c
    ensures c.Valid()
    ensures r.Early? ==> c.At(w, Finished(r.answer))
    ensures r.Ready? ==> c.At(w, Starting(ctx, r.u)) && r.deleted == ctx.first.deleted && r.requeueAfter == ctx.requeue
  {
    r, ctx := EnsureFinalizer(c, w, env);
    if r.Ready? && c.cfg.manageStatus {
      var ok, u := MarkRunning(c, w, env, r.u, ctx);
      r := if ok then r.(u := u) else Early(Answer(r.requeueAfter, true));
    }
  }

  /** Starting ansible, with the command that fits the object. */
  method StartAnsible(c: Cluster, w: nat, env: Env, u: Obj, requeueAfter: nat, ghost ctx: Ctx)
      returns (early: Option<Answer>, command: Command)
    requires c.Valid() && c.At(w, Starting(ctx, u)) && requeueAfter == ctx.requeue
    modifies c
    ensures c.Valid()
    ensures early.Some? ==> c.At(w, Finished(early.value))
    ensures early.None? ==> c.At(w, Executing(ctx, u, command))
  {
    c.Interfere(w, env.others(6));
    command := Regular;
    if env.kubeconfigFails || env.runnerFails {
      c.Take(w, StartFails(w), Starting(ctx, u),
             GettingForError(Answer(ctx.requeue, true), "Unable to run reconciliation"));
    } else {
      c.Take(w, Start(w), Starting(ctx, u), AfterStart(c.cfg, ctx, u));
      if !u.deleted || IsFinalizerRun(c.cfg, u) {
        if IsFinalizerRun(c.cfg, u) { command := Finalizing; }
        return None, command;
      }
    }
    MarkError(c, w, env, Answer(requeueAfter, true), "Unable to run reconciliation");
    early := Some(Answer(requeueAfter, true));
  }

  /** Its events, up to the point where the object is read again. */
  method AwaitAnsible(c: Cluster, w: nat, env: Env, u: Obj, command: Command, requeueAfter: nat, ghost ctx: Ctx)
    returns (early: Option<Answer>, failures: seq<string>)
    requires c.Valid() && c.At(w, Executing(ctx, u, command)) && requeueAfter == ctx.requeue
    modifies c
    ensures c.Valid()
    ensures early.Some? ==> c.At(w, Finished(early.value))
    ensures early.None? ==>
      c.At(w, Refetching(ctx, Ran(u, command, env.events), env.result)) && failures == Failures(env.events)
  {
    c.EndEvents(w, env, ctx, Ran(u, command, env.events));
    failures := [];
    var outcome := ReadEvents(env.events, requeueAfter);
    OutcomeFailures(env.events, requeueAfter);
    if outcome.Returned? { return Some(outcome.answer), failures; }
    failures := outcome.failures;
    if outcome.stats { return None, failures; }
    if !env.stdoutRead {
      MarkError(c, w, env, Answer(requeueAfter, true), "Failed to get ansible-runner stdout");
    }
    early := Some(Answer(requeueAfter, true));
  }

  lemma OutcomeFailures(es: seq<JobEvent>, requeue: nat)
    ensures var o := Outcomes(es, requeue); o.Completed? ==> o.failures == Failures(es)
  {
  }

  /** The read after the run, the removal of the finalizer, the final status. */
  method Finish(c: Cluster, w: nat, env: Env, before: Prepared, failures: seq<string>, ghost ctx: Ctx, ghost ran: Ran)
    returns (answer: Answer)
    requires c.Valid() && c.At(w, Refetching(ctx, ran, env.result)) && failures == Failures(ran.events)
    requires before.Ready? && before.deleted == ctx.first.deleted && before.requeueAfter == ctx.requeue
    modifies c
    ensures c.Valid() && c.At(w, Finished(answer))
  {
    var runSuccessful := |failures| == 0;
    var got := c.LiveGet(w, env, 10, Action.Refetch(w), Refetching(ctx, ran, env.result));
    if got.NotFound? { return Answer(0, false); }
    if got.GetError? { return Answer(0, true); }
    var ok, requeueAfter;
    ghost var last;
    ok, requeueAfter, last := Release(c, w, env, before, got.o, runSuccessful, ctx, ran);
    if !ok { return Answer(requeueAfter, true); }
    if c.cfg.manageStatus {
      ok := MarkDone(c, w, env, last, ran, failures);
      return Answer(requeueAfter, !runSuccessful || !ok);
    }
    return Answer(requeueAfter, !runSuccessful);
  }

  /** Taking the finalizer off, or coming back soon for it. */
  method Release(c: Cluster, w: nat, env: Env, before: Prepared, u: Obj, runSuccessful: bool,
      ghost ctx: Ctx, ghost ran: Ran) returns (ok: bool, requeueAfter: nat, ghost last: Ctx)
    requires c.Valid() && c.At(w, AfterRefetch(c.cfg, ctx, ran, env.result, u))
    requires runSuccessful <==> !RunFailed(ran)
    requires before.Ready? && before.deleted == ctx.first.deleted && before.requeueAfter == ctx.requeue
    modifies c
    ensures c.Valid() && requeueAfter == last.requeue
    ensures c.At(w, if ok then AfterRemoval(c.cfg, last, ran, env.result) else Finished(Answer(requeueAfter, true)))
  {
    requeueAfter, last := before.requeueAfter, ctx;
    var finalizerExists := c.cfg.finalizer.Some?;
    var recentlyDeleted := u.deleted;
    if before.deleted && finalizerExists && runSuccessful {
      var updated;
      ghost var met;
      ok, updated, met := c.ClientUpdate(w, env, 11, WriteRemoval(w), u, RemoveFinalizer(u.finalizers, Name(c.cfg)),
          Removing(ctx, ran, env.result, u));
      return;
    } else if recentlyDeleted && finalizerExists {
      requeueAfter := DELETED_REQUEUE;
      last := ctx.(requeue := DELETED_REQUEUE);
    }
    ok := true;
  }

  /** One reconcile, from the idle worker to its answer. */
  method Reconcile(c: Cluster, w: nat, env: Env) returns (answer: Answer)
    requires c.Valid() && c.At(w, Idle)
    modifies c
    ensures c.Valid() && c.At(w, Finished(answer))
  {
    var before;
    ghost var ctx;
    before, ctx := Prepare(c, w, env);
    if before.Early? { return before.answer; }
    var early, command := StartAnsible(c, w, env, before.u, before.requeueAfter, ctx);
    if early.Some? { return early.value; }
    var failures;
    early, failures := AwaitAnsible(c, w, env, before.u, command, before.requeueAfter, ctx);
    if early.Some? { return early.value; }
    answer := Finish(c, w, env, before, failures, ctx, Ran(before.u, command, env.events));
  }

  /** Some run leads from one state to the other. */
  ghost predicate Reachable(cfg: Config, start: State, state: State) {
    exists t: Trail :: Leads(cfg, start, t) && t.end == state
  }

  lemma StepReachable(cfg: Config, start: State, state: State, a: Action)
    requires Reachable(cfg, start, state) && Enabled(state, a)
    ensures Reachable(cfg, start, Step(cfg, state, a))
  {
    var t: Trail :| Leads(cfg, start, t) && t.end == state;
    var next := Go(cfg, start, t, a);
  }

  /** The code refines the step machine: its effect, with everything others did
      meanwhile, is that of a run; so it keeps the protocol's invariant. */
  method ReconcileOnce(cfg: Config, start: State, w: nat, env: Env) returns (answer: Answer, end: State)
    requires w < |start.workers| && start.workers[w] == Idle
    ensures Reachable(cfg, start, end)
    ensures w < |end.workers| && end.workers[w] == Finished(answer)
    ensures Inv(cfg, start) ==> Inv(cfg, end)
  {
    ghost var kept := (s: State) => Reachable(cfg, start, s) && (Inv(cfg, start) ==> Inv(cfg, s));
    assert Leads(cfg, start, Trail([], start));
    forall s, a | kept(s) && Enabled(s, a) ensures kept(Step(cfg, s, a)) {
      StepReachable(cfg, start, s, a);
      if Inv(cfg, start) { StepKeeps(cfg, s, a); }
    }
    var c := new Cluster(cfg, start, kept);
    answer := Reconcile(c, w, env);
    end := c.state;
  }
}
