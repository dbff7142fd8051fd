/**
 * What every run of the reconcile protocol does before and after ansible: the
 * object has had the finalizer by then, and a failed run is answered as failed.
 */
module ReconcileGuards {
  import opened Common
  import opened JobEvents
  import opened ReconcileSteps
  import opened ReconcileSafety
  import Conditions

  // ----- the finalizer comes before ansible

  /** The reconcile is past the point where the finalizer is put on the object of
      its first read. */
  predicate IsPrepared(pc: Pc) {
    pc.GettingForRunning? || pc.UpdatingRunning? || pc.Starting? || pc.Executing?
    || pc.Refetching? || pc.Removing? || pc.GettingForDone? || pc.UpdatingDone?
  }

  predicate HasGuarded(guarded: set<nat>, pc: Pc) {
    IsPrepared(pc) ==> pc.ctx.first.uid in guarded
  }

  predicate NamedGuarded(cfg: Config, guarded: set<nat>, o: Obj) {
    Name(cfg) in o.finalizers ==> o.uid in guarded
  }

  ghost predicate PastGuarded(cfg: Config, guarded: set<nat>, past: seq<Option<Obj>>) {
    forall o :: InPast(past, o) ==> NamedGuarded(cfg, guarded, o)
  }

  predicate WorkersGuarded(guarded: set<nat>, workers: seq<Pc>) {
    forall w :: 0 <= w < |workers| ==> HasGuarded(guarded, workers[w])
  }

  ghost predicate GuardInv(cfg: Config, s: State) {
    PastGuarded(cfg, s.history.guarded, s.api.past) && WorkersGuarded(s.history.guarded, s.workers)
  }

  /** The API server remembers what is stored. */
  predicate Remembers(api: Api, after: Api) {
    after.past == api.past || after.past == api.past + [after.store]
  }

  lemma StepsRemember(cfg: Config, api: Api, pc: Pc, a: Action)
    ensures Remembers(api, WorkerStep(cfg, api, pc, a).api)
    ensures IsForeign(a) && (a.Create? || api.store.Some?) ==> Remembers(api, ForeignStep(api, a))
  {
    StepHasEffect(cfg, api, pc, a);
  }

  lemma PastStaysGuarded(cfg: Config, h: History, api: Api, after: Api, a: Action, pc: Pc)
    requires PastGuarded(cfg, h.guarded, api.past) && Remembers(api, after)
    ensures PastGuarded(cfg, Recorded(cfg, h, api.store, after.store, a, pc).guarded, after.past)
  {
    var guarded := Recorded(cfg, h, api.store, after.store, a, pc).guarded;
    assert guarded == h.guarded + GuardedBy(cfg, after.store);
    forall o | InPast(after.past, o) ensures NamedGuarded(cfg, guarded, o) {
      if InPast(api.past, o) { assert NamedGuarded(cfg, h.guarded, o); }
    }
  }

  lemma WorkersStayGuarded(guarded: set<nat>, more: set<nat>, workers: seq<Pc>)
    requires WorkersGuarded(guarded, workers) && guarded <= more
    ensures WorkersGuarded(more, workers)
  {
    forall w | 0 <= w < |workers| ensures HasGuarded(more, workers[w]) { assert HasGuarded(guarded, workers[w]); }
  }

  /** A first read of an object without the finalizer leads to the write. */
  lemma FirstGetGuards(cfg: Config, guarded: set<nat>, o: Obj)
    requires cfg.finalizer.Some? && NamedGuarded(cfg, guarded, o)
    ensures HasGuarded(guarded, AfterFirstGet(cfg, o))
  {
  }

  /** The write puts it on the object, whose identity is that of the first read. */
  lemma WriteGuards(cfg: Config, api: Api, pc: Pc, guarded: set<nat>)
    requires pc.AddingFinalizer? && GuardedBy(cfg, Written(cfg, api, pc, true).api.store) <= guarded
    ensures HasGuarded(guarded, Written(cfg, api, pc, true).pc)
  {
  }

  lemma RefetchGuards(cfg: Config, guarded: set<nat>, ctx: Ctx, ran: Ran, result: Conditions.AnsibleResult, o: Obj)
    requires ctx.first.uid in guarded
    ensures HasGuarded(guarded, AfterRefetch(cfg, ctx, ran, result, o))
  {
  }

  lemma EventsGuard(guarded: set<nat>, ctx: Ctx, ran: Ran, result: Conditions.AnsibleResult, stdoutRead: bool)
    requires ctx.first.uid in guarded
    ensures HasGuarded(guarded, AfterEvents(ctx, ran, result, stdoutRead))
  {
  }

  lemma OtherMoveGuards(cfg: Config, api: Api, pc: Pc, a: Action, guarded: set<nat>)
    requires HasGuarded(guarded, pc) && !a.FirstGet? && !pc.AddingFinalizer?
    requires !(a.EventsEnd? && pc.Executing?) && !(a.Refetch? && pc.Refetching?)
    ensures HasGuarded(guarded, WorkerStep(cfg, api, pc, a).pc)
  {
  }

  lemma AddingMoveGuards(cfg: Config, api: Api, pc: Pc, a: Action, guarded: set<nat>)
    requires pc.AddingFinalizer? && !a.FirstGet?
    requires GuardedBy(cfg, WorkerStep(cfg, api, pc, a).api.store) <= guarded
    ensures HasGuarded(guarded, WorkerStep(cfg, api, pc, a).pc)
  {
    if a.WriteFinalizer? { WriteGuards(cfg, api, pc, guarded); }
  }

  lemma FirstMoveGuards(cfg: Config, api: Api, pc: Pc, a: Action, guarded: set<nat>)
    requires cfg.finalizer.Some? && PastGuarded(cfg, guarded, api.past) && a.FirstGet?
    requires HasGuarded(guarded, pc)
    ensures HasGuarded(guarded, WorkerStep(cfg, api, pc, a).pc)
  {
    if a.cached < |api.past| && api.past[a.cached].Some? {
      var o := api.past[a.cached].value;
      assert InPast(api.past, o);
      FirstGetGuards(cfg, guarded, o);
      assert WorkerStep(cfg, api, pc, a).pc == AfterFirstGet(cfg, o);
    }
  }

  lemma EventsMoveGuards(cfg: Config, api: Api, pc: Pc, a: Action, guarded: set<nat>)
    requires HasGuarded(guarded, pc) && a.EventsEnd? && pc.Executing?
    ensures HasGuarded(guarded, WorkerStep(cfg, api, pc, a).pc)
  {
    EventsGuard(guarded, pc.ctx, Ran(pc.subject, pc.command, a.events), a.result, a.stdoutRead);
  }

  lemma RefetchMoveGuards(cfg: Config, api: Api, pc: Pc, a: Action, guarded: set<nat>)
    requires HasGuarded(guarded, pc) && a.Refetch? && pc.Refetching?
    ensures HasGuarded(guarded, WorkerStep(cfg, api, pc, a).pc)
  {
    if api.store.Some? { RefetchGuards(cfg, guarded, pc.ctx, pc.ran, pc.result, api.store.value); }
  }

  lemma MoveGuards(cfg: Config, api: Api, pc: Pc, a: Action, guarded: set<nat>)
    requires cfg.finalizer.Some? && PastGuarded(cfg, guarded, api.past) && HasGuarded(guarded, pc)
    requires GuardedBy(cfg, WorkerStep(cfg, api, pc, a).api.store) <= guarded
    ensures HasGuarded(guarded, WorkerStep(cfg, api, pc, a).pc)
  {
    if a.FirstGet? {
      FirstMoveGuards(cfg, api, pc, a, guarded);
    } else if a.EventsEnd? && pc.Executing? {
      EventsMoveGuards(cfg, api, pc, a, guarded);
    } else if a.Refetch? && pc.Refetching? {
      RefetchMoveGuards(cfg, api, pc, a, guarded);
    } else if pc.AddingFinalizer? {
      AddingMoveGuards(cfg, api, pc, a, guarded);
    } else {
      OtherMoveGuards(cfg, api, pc, a, guarded);
    }
  }

  lemma ForeignGuards(cfg: Config, s: State, a: Action)
    requires GuardInv(cfg, s) && Enabled(s, a) && IsForeign(a)
    ensures GuardInv(cfg, Step(cfg, s, a))
  {
    StepsRemember(cfg, s.api, Idle, a);
    PastStaysGuarded(cfg, s.history, s.api, ForeignStep(s.api, a), a, Idle);
    WorkersStayGuarded(s.history.guarded, Step(cfg, s, a).history.guarded, s.workers);
  }

  lemma WorkerGuards(cfg: Config, s: State, a: Action)
    requires cfg.finalizer.Some? && GuardInv(cfg, s) && Enabled(s, a) && !IsForeign(a) && !a.NewWorker?
    ensures GuardInv(cfg, Step(cfg, s, a))
  {
    var pc := s.workers[a.w];
    var moved := WorkerStep(cfg, s.api, pc, a);
    var guarded := Step(cfg, s, a).history.guarded;
    StepsRemember(cfg, s.api, pc, a);
    PastStaysGuarded(cfg, s.history, s.api, moved.api, a, pc);
    WorkersStayGuarded(s.history.guarded, guarded, s.workers);
    assert HasGuarded(guarded, pc);
    assert PastGuarded(cfg, guarded, s.api.past) by {
      forall o | InPast(s.api.past, o) ensures NamedGuarded(cfg, guarded, o) {
        assert NamedGuarded(cfg, s.history.guarded, o);
      }
    }
    MoveGuards(cfg, s.api, pc, a, guarded);
  }

  lemma StepGuards(cfg: Config, s: State, a: Action)
    requires cfg.finalizer.Some? && GuardInv(cfg, s) && Enabled(s, a)
    ensures GuardInv(cfg, Step(cfg, s, a))
  {
    if IsForeign(a) {
      ForeignGuards(cfg, s, a);
    } else if a.NewWorker? {
      assert HasGuarded(s.history.guarded, Idle);
    } else {
      WorkerGuards(cfg, s, a);
    }
  }

  lemma {:induction false} RunGuards(cfg: Config, s: State, actions: seq<Action>)
    requires cfg.finalizer.Some? && GuardInv(cfg, s) && CanRun(cfg, s, actions)
    ensures GuardInv(cfg, Run(cfg, s, actions))
    decreases |actions|
  {
    if actions != [] {
      StepGuards(cfg, s, actions[0]);
      RunGuards(cfg, Step(cfg, s, actions[0]), actions[1..]);
    }
  }

  /** With a finalizer configured, ansible is never run for an object that did not
      get the finalizer first, in any interleaving: so whenever ansible runs or has
      run, the object first read still has the finalizer, or lost it to somebody
      else or to a justified removal. */
  lemma AnsibleRunsGuarded(cfg: Config, actions: seq<Action>, w: nat)
    requires CanRun(cfg, INITIAL, actions) && cfg.finalizer.Some?
    requires w < |Run(cfg, INITIAL, actions).workers|
    requires var pc := Run(cfg, INITIAL, actions).workers[w]; pc.Executing? || pc.Refetching? || pc.Removing?
    ensures var s := Run(cfg, INITIAL, actions); var uid := s.workers[w].ctx.first.uid;
            && uid in s.history.guarded
            && (Guards(cfg, s.api.store, uid) || uid in s.history.tampered || WasRemoved(s.history, uid))
  {
    RunGuards(cfg, INITIAL, actions);
    FinalizerSafety(cfg, actions);
    assert HasGuarded(Run(cfg, INITIAL, actions).history.guarded, Run(cfg, INITIAL, actions).workers[w]);
  }

  /** The command of a running ansible, in any interleaving: the finalizer's exactly
      when the object given to it is deleted, which is then held by the finalizer. */
  lemma CommandFits(cfg: Config, actions: seq<Action>, w: nat)
    requires CanRun(cfg, INITIAL, actions) && w < |Run(cfg, INITIAL, actions).workers|
    requires Run(cfg, INITIAL, actions).workers[w].Executing?
    ensures var pc := Run(cfg, INITIAL, actions).workers[w];
            && (pc.command.Finalizing? <==> pc.subject.deleted)
            && (pc.subject.deleted ==> cfg.finalizer.Some? && cfg.finalizer.value in pc.subject.finalizers)
            && (pc.ctx.first.deleted && pc.ctx.first.uid == pc.subject.uid ==> pc.command.Finalizing?)
  {
    RunKeeps(cfg, INITIAL, actions);
    var s := Run(cfg, INITIAL, actions);
    assert WorkerInv(cfg, s.api.past, s.workers[w]);
  }

  // ----- what the history records

  lemma RecordsExactly(cfg: Config, h: History, before: Option<Obj>, after: Option<Obj>, a: Action, pc: Pc, uid: nat)
    requires !IsForeign(a) && Lost(cfg, before, after) != {} ==> pc.Removing? && !a.NewWorker?
    ensures var k := Recorded(cfg, h, before, after, a, pc);
            var lost := Guards(cfg, before, uid) && !Guards(cfg, after, uid);
            && (uid in k.guarded <==> uid in h.guarded || Guards(cfg, after, uid))
            && (uid in k.tampered <==> uid in h.tampered || (lost && IsForeign(a)))
            && (lost && !IsForeign(a) ==> k.removals == h.removals + [Removal(a.w, uid, pc.ctx.first, pc.ran)])
            && (IsForeign(a) || Lost(cfg, before, after) == {} ==> k.removals == h.removals)
  {
    if Guards(cfg, before, uid) && !Guards(cfg, after, uid) { assert uid in Lost(cfg, before, after); }
  }

  /** The history is exact, at every step of every run: an object counts as guarded
      from the moment it has the finalizer; when it loses it, that is tampering if
      somebody else did it and a removal by the operator otherwise. */
  lemma HistoryIsExact(cfg: Config, actions: seq<Action>, a: Action, uid: nat)
    requires CanRun(cfg, INITIAL, actions) && Enabled(Run(cfg, INITIAL, actions), a)
    ensures var s := Run(cfg, INITIAL, actions); var t := Step(cfg, s, a);
            var lost := Guards(cfg, s.api.store, uid) && !Guards(cfg, t.api.store, uid);
            && (uid in t.history.guarded <==> uid in s.history.guarded || Guards(cfg, t.api.store, uid))
            && (uid in t.history.tampered <==> uid in s.history.tampered || (lost && IsForeign(a)))
            && (lost && !IsForeign(a) ==> exists r :: t.history.removals == s.history.removals + [r] && r.uid == uid)
            && (IsForeign(a) ==> t.history.removals == s.history.removals)
  {
    RunKeeps(cfg, INITIAL, actions);
    var s := Run(cfg, INITIAL, actions);
    if IsForeign(a) {
      RecordsExactly(cfg, s.history, s.api.store, ForeignStep(s.api, a).store, a, Idle, uid);
    } else if a.NewWorker? {
      assert GuardedBy(cfg, s.api.store) <= s.history.guarded;
    } else {
      WorkerRecordsExactly(cfg, s, a, uid);
    }
  }

  lemma WorkerRecordsExactly(cfg: Config, s: State, a: Action, uid: nat)
    requires Inv(cfg, s) && Enabled(s, a) && !IsForeign(a) && !a.NewWorker?
    ensures var t := Step(cfg, s, a);
            var lost := Guards(cfg, s.api.store, uid) && !Guards(cfg, t.api.store, uid);
            && (uid in t.history.guarded <==> uid in s.history.guarded || Guards(cfg, t.api.store, uid))
            && t.history.tampered == s.history.tampered
            && (lost ==> exists r :: t.history.removals == s.history.removals + [r] && r.uid == uid)
  {
    var pc := s.workers[a.w];
    var after := WorkerStep(cfg, s.api, pc, a).api.store;
    OnlyRemovingLoses(cfg, s.api, pc, a);
    RecordsExactly(cfg, s.history, s.api.store, after, a, pc, uid);
    if Guards(cfg, s.api.store, uid) && !Guards(cfg, after, uid) {
      var r := Removal(a.w, uid, pc.ctx.first, pc.ran);
      assert Step(cfg, s, a).history.removals == s.history.removals + [r];
    }
  }

  // ----- a failed run is answered as failed

  /** Where a reconcile is after the read that follows a run with an unhandled
      failure; `fails` says whether that read found the object, or failed. */
  predicate Reports(pc: Pc, fails: bool) {
    match pc
    case GettingForDone(_, ran, _) => fails && !AllHandled(ran.events)
    case UpdatingDone(_, ran, _, _) => fails && !AllHandled(ran.events)
    case Finished(answer) => answer.failed == fails
    case _ => false
  }

  lemma ReportMove(cfg: Config, api: Api, pc: Pc, a: Action, fails: bool)
    requires Reports(pc, fails) && !a.Restart? && !a.FirstGet?
    ensures Reports(WorkerStep(cfg, api, pc, a).pc, fails)
  {
    if pc.GettingForDone? || pc.UpdatingDone? { NoFailures(pc.ran.events); }
  }

  lemma ReportStep(cfg: Config, s: State, w: nat, a: Action, fails: bool)
    requires Enabled(s, a) && a != Restart(w) && w < |s.workers| && Reports(s.workers[w], fails)
    ensures w < |Step(cfg, s, a).workers| && Reports(Step(cfg, s, a).workers[w], fails)
  {
    if TakenBy(a, w) { ReportMove(cfg, s.api, s.workers[w], a, fails); }
  }

  lemma {:induction false} ReportRun(cfg: Config, s: State, w: nat, actions: seq<Action>, fails: bool)
    requires CanRun(cfg, s, actions) && Restart(w) !in actions && w < |s.workers| && Reports(s.workers[w], fails)
    ensures w < |Run(cfg, s, actions).workers| && Reports(Run(cfg, s, actions).workers[w], fails)
    decreases |actions|
  {
    if actions != [] {
      assert actions[0] in actions && forall a :: a in actions[1..] ==> a in actions;
      ReportStep(cfg, s, w, actions[0], fails);
      ReportRun(cfg, Step(cfg, s, actions[0]), w, actions[1..], fails);
    }
  }

  /** The read after a run that left a failure unhandled. */
  lemma RefetchReports(cfg: Config, s: State, w: nat, a: Action)
    requires w < |s.workers| && s.workers[w].Refetching? && !AllHandled(s.workers[w].ran.events)
    requires a == Action.Refetch(w) || a == GetFails(w)
    ensures Enabled(s, a) && w < |Step(cfg, s, a).workers|
    ensures Reports(Step(cfg, s, a).workers[w], a == GetFails(w) || s.api.store.Some?)
  {
    NoFailures(s.workers[w].ran.events);
  }

  /** In any interleaving, with or without status management: a reconcile whose
      ansible run left a failure unhandled ends with a failure, whatever happens
      until then, exactly when the read after the run finds the object or fails;
      when the object is gone it ends without one. */
  lemma FailedRunFails(cfg: Config, before: seq<Action>, w: nat, a: Action, after: seq<Action>)
    requires CanRun(cfg, INITIAL, before)
    requires var s := Run(cfg, INITIAL, before);
             && w < |s.workers| && s.workers[w].Refetching? && !AllHandled(s.workers[w].ran.events)
             && (a == Action.Refetch(w) || a == GetFails(w))
             && Enabled(s, a) && CanRun(cfg, Step(cfg, s, a), after) && Restart(w) !in after
    ensures var s := Run(cfg, INITIAL, before); var t := Run(cfg, Step(cfg, s, a), after);
            && w < |t.workers|
            && (t.workers[w].Finished? ==> (t.workers[w].answer.failed <==> a == GetFails(w) || s.api.store.Some?))
  {
    var s := Run(cfg, INITIAL, before);
    RefetchReports(cfg, s, w, a);
    ReportRun(cfg, Step(cfg, s, a), w, after, a == GetFails(w) || s.api.store.Some?);
  }

  // ----- when a reconcile ends without a failure

  /** An error that is being reported is answered. */
  predicate ErrorFails(pc: Pc) {
    pc.GettingForError? || pc.UpdatingError? ==> pc.answer.failed
  }

  predicate ErrorsFail(workers: seq<Pc>) {
    forall w :: 0 <= w < |workers| ==> ErrorFails(workers[w])
  }

  lemma EventsErrorFails(ctx: Ctx, ran: Ran, result: Conditions.AnsibleResult, stdoutRead: bool)
    ensures ErrorFails(AfterEvents(ctx, ran, result, stdoutRead))
  {
  }

  lemma MoveErrorFails(cfg: Config, api: Api, pc: Pc, a: Action)
    requires ErrorFails(pc)
    ensures ErrorFails(WorkerStep(cfg, api, pc, a).pc)
  {
    if a.EventsEnd? && pc.Executing? {
      EventsErrorFails(pc.ctx, Ran(pc.subject, pc.command, a.events), a.result, a.stdoutRead);
    }
  }

  lemma StepErrorsFail(cfg: Config, s: State, a: Action)
    requires ErrorsFail(s.workers) && Enabled(s, a)
    ensures ErrorsFail(Step(cfg, s, a).workers)
  {
    if !IsForeign(a) && !a.NewWorker? {
      assert ErrorFails(s.workers[a.w]);
      MoveErrorFails(cfg, s.api, s.workers[a.w], a);
    }
  }

  lemma {:induction false} RunErrorsFail(cfg: Config, s: State, actions: seq<Action>)
    requires ErrorsFail(s.workers) && CanRun(cfg, s, actions)
    ensures ErrorsFail(Run(cfg, s, actions).workers)
    decreases |actions|
  {
    if actions != [] {
      StepErrorsFail(cfg, s, actions[0]);
      RunErrorsFail(cfg, Step(cfg, s, actions[0]), actions[1..]);
    }
  }

  /** The steps that may end a reconcile without a failure: a first read that finds
      nothing to do; a requeue_after with a period; a read after the run that finds
      the object gone, or a run whose failures were all handled; after such a run,
      an accepted removal, an accepted final status, or nothing to write it to. */
  predicate MayEndWell(api: Api, pc: Pc, a: Action) {
    match (a, pc)
    case (FirstGet(_, _), _) => true
    case (EventsEnd(_, events, _, _), Executing(ctx, _, _)) =>
      Outcomes(events, ctx.requeue).Returned? && !Outcomes(events, ctx.requeue).answer.failed
    case (Refetch(_), Refetching(_, ran, _)) => api.store.None? || AllHandled(ran.events)
    case (WriteRemoval(_), Removing(_, _, _, base)) => Current(api, base)
    case (GetForDone(_, _), GettingForDone(_, ran, _)) => AllHandled(ran.events)
    case (WriteDone(_), UpdatingDone(_, ran, base, _)) => Current(api, base) && AllHandled(ran.events)
    case _ => false
  }

  lemma EndMove(cfg: Config, api: Api, pc: Pc, a: Action)
    requires !pc.Finished? && WorkerStep(cfg, api, pc, a).pc.Finished? && ErrorFails(pc)
    requires pc.Removing? ==> AllHandled(pc.ran.events) && (Current(api, pc.base) ==> api.store == Some(pc.base))
    ensures WorkerStep(cfg, api, pc, a).pc.answer.failed <==> !MayEndWell(api, pc, a)
  {
    if pc.Refetching? || pc.Removing? || pc.GettingForDone? || pc.UpdatingDone? { NoFailures(pc.ran.events); }
  }

  /** In any interleaving: the step that ends a reconcile answers with a failure
      exactly when it is none of those. */
  lemma FailsExactly(cfg: Config, actions: seq<Action>, w: nat, a: Action)
    requires CanRun(cfg, INITIAL, actions) && Enabled(Run(cfg, INITIAL, actions), a) && TakenBy(a, w)
    requires w < |Run(cfg, INITIAL, actions).workers| && !Run(cfg, INITIAL, actions).workers[w].Finished?
    requires Step(cfg, Run(cfg, INITIAL, actions), a).workers[w].Finished?
    ensures var s := Run(cfg, INITIAL, actions);
            Step(cfg, s, a).workers[w].answer.failed <==> !MayEndWell(s.api, s.workers[w], a)
  {
    var s := Run(cfg, INITIAL, actions);
    RunKeeps(cfg, INITIAL, actions);
    RunErrorsFail(cfg, INITIAL, actions);
    assert WorkerInv(cfg, s.api.past, s.workers[w]) && ErrorFails(s.workers[w]);
    if s.workers[w].Removing? && Current(s.api, s.workers[w].base) { AcceptedIsCurrent(s.api, s.workers[w].base); }
    EndMove(cfg, s.api, s.workers[w], a);
  }
}
