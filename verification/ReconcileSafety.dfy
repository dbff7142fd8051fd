/** What holds of every run of the reconcile protocol. */
module ReconcileSafety {
  import opened Common
  import opened JobEvents
  import opened ReconcileSteps
  import Conditions

  // ----- the API server

  predicate InPast(past: seq<Option<Obj>>, o: Obj) {
    Some(o) in past
  }

  /** Versions identify what was stored, and a deleted object stays deleted. */
  ghost predicate ApiInv(api: Api) {
    && api.past != [] && api.past[|api.past| - 1] == api.store
    && (forall o :: InPast(api.past, o) ==> o.version < api.nextVersion && o.uid < api.nextUid)
    && (forall o, p :: InPast(api.past, o) && InPast(api.past, p) && o.version == p.version ==> o == p)
    && (forall o :: InPast(api.past, o) ==> Preserved(api.store, o))
    && (api.store.Some? && api.store.value.deleted ==> api.store.value.finalizers != [])
  }

  predicate Preserved(store: Option<Obj>, o: Obj) {
    store.Some? && store.value.uid == o.uid && o.deleted ==> store.value.deleted
  }

  lemma PutKeeps(api: Api, o: Option<Obj>)
    requires ApiInv(api)
    requires o.Some? ==> o.value.uid < api.nextUid && (o.value.deleted ==> o.value.finalizers != [])
    requires forall p :: InPast(api.past, p) ==> Preserved(o, p)
    ensures ApiInv(Put(api, o))
    ensures forall p :: InPast(api.past, p) ==> InPast(Put(api, o).past, p)
  {
    var after := Put(api, o);
    assert forall p :: InPast(after.past, p) <==> InPast(api.past, p) || Some(p) == after.store;
  }

  /** The stored object is the one a write is based on, when it is accepted. */
  lemma AcceptedIsCurrent(api: Api, base: Obj)
    requires ApiInv(api) && InPast(api.past, base) && Current(api, base)
    ensures api.store == Some(base)
  {
    assert InPast(api.past, api.store.value);
  }

  lemma UpdateKeeps(api: Api, base: Obj, finalizers: seq<string>)
    requires ApiInv(api) && Update(api, base, finalizers).Some?
    ensures var after := Update(api, base, finalizers).value;
            ApiInv(after) && (forall p :: InPast(api.past, p) ==> InPast(after.past, p))
  {
    var o := api.store.value;
    assert InPast(api.past, o);
    PutKeeps(api,
        if o.deleted && finalizers == [] then None else Some(o.(finalizers := finalizers, period := base.period)));
  }

  lemma UpdateStatusKeeps(api: Api, base: Obj, conditions: seq<Conditions.Condition>)
    requires ApiInv(api) && UpdateStatus(api, base, conditions).Some?
    ensures var after := UpdateStatus(api, base, conditions).value;
            ApiInv(after) && (forall p :: InPast(api.past, p) ==> InPast(after.past, p))
  {
    assert InPast(api.past, api.store.value);
    PutKeeps(api, Some(api.store.value.(conditions := conditions)));
  }

  lemma ForeignKeeps(api: Api, a: Action)
    requires ApiInv(api) && IsForeign(a) && (a.Create? || api.store.Some?)
    ensures ApiInv(ForeignStep(api, a)) && forall p :: InPast(api.past, p) ==> InPast(ForeignStep(api, a).past, p)
  {
    if api.store.Some? { assert InPast(api.past, api.store.value); }
    match a
    case Create(fs, period, conditions) =>
      PutKeeps(api.(nextUid := api.nextUid + 1), Some(Obj(api.nextUid, 0, false, fs, period, conditions)));
    case Delete =>
      var o := api.store.value;
      PutKeeps(api, if o.finalizers == [] then None else Some(o.(deleted := true)));
    case Edit(fs, period, conditions) =>
      var o := api.store.value;
      PutKeeps(api,
          if o.deleted && fs == [] then None
          else Some(o.(finalizers := fs, period := period, conditions := conditions)));
  }

  // ----- the workers

  /** `o` was read no earlier than `first`: if it is the same object and was
      deleted then, it is deleted. */
  predicate Later(first: Obj, o: Obj) {
    first.uid == o.uid && first.deleted ==> o.deleted
  }

  /** The command fits the object it was chosen for. */
  predicate RunFits(cfg: Config, first: Obj, o: Obj, command: Command) {
    && Later(first, o)
    && (o.deleted <==> command.Finalizing?)
    && (o.deleted ==> IsFinalizerRun(cfg, o))
  }

  predicate RanFits(cfg: Config, first: Obj, ran: Ran) {
    RunFits(cfg, first, ran.subject, ran.command) && HasStats(ran.events)
  }

  ghost predicate IsMarked(before: seq<Conditions.Condition>, after: seq<Conditions.Condition>) {
    exists mark, now :: after == Conditions.Apply(before, mark, now)
  }

  ghost predicate WorkerInv(cfg: Config, past: seq<Option<Obj>>, pc: Pc) {
    match pc
    case AddingFinalizer(ctx) => InPast(past, ctx.first) && !ctx.first.deleted && cfg.finalizer.Some?
    case GettingForRunning(ctx) => InPast(past, ctx.first)
    case UpdatingRunning(ctx, base, conditions) =>
      InPast(past, base) && Later(ctx.first, base) && IsMarked(base.conditions, conditions)
    case Starting(ctx, o) => Later(ctx.first, o)
    case Executing(ctx, o, command) => RunFits(cfg, ctx.first, o, command)
    case Refetching(ctx, ran, _) => RanFits(cfg, ctx.first, ran)
    case Removing(ctx, ran, _, base) =>
      RanFits(cfg, ctx.first, ran) && InPast(past, base) && ctx.first.deleted && cfg.finalizer.Some?
          && AllHandled(ran.events)
    case UpdatingDone(_, _, base, conditions) => InPast(past, base) && IsMarked(base.conditions, conditions)
    case UpdatingError(_, base, conditions) => InPast(past, base) && IsMarked(base.conditions, conditions)
    case _ => true
  }

  lemma WorkerInvGrows(cfg: Config, past: seq<Option<Obj>>, more: seq<Option<Obj>>, pc: Pc)
    requires WorkerInv(cfg, past, pc) && forall p :: InPast(past, p) ==> InPast(more, p)
    ensures WorkerInv(cfg, more, pc)
  {
  }

  lemma FirstGetFits(cfg: Config, past: seq<Option<Obj>>, o: Obj)
    requires InPast(past, o)
    ensures WorkerInv(cfg, past, AfterFirstGet(cfg, o))
  {
  }

  lemma EventsFit(cfg: Config, past: seq<Option<Obj>>, ctx: Ctx, ran: Ran, result: Conditions.AnsibleResult,
      stdoutRead: bool)
    requires RunFits(cfg, ctx.first, ran.subject, ran.command)
    ensures WorkerInv(cfg, past, AfterEvents(ctx, ran, result, stdoutRead))
  {
  }

  lemma RefetchFits(cfg: Config, past: seq<Option<Obj>>, ctx: Ctx, ran: Ran, result: Conditions.AnsibleResult, o: Obj)
    requires RanFits(cfg, ctx.first, ran) && InPast(past, o)
    ensures WorkerInv(cfg, past, AfterRefetch(cfg, ctx, ran, result, o))
  {
    NoFailures(ran.events);
  }

  /** What a worker's step does to the API server: nothing, or an accepted write
      based on the version that is stored. */
  datatype Effect = NoEffect | Metadata(base: Obj, finalizers: seq<string>)
                  | Status(base: Obj, conditions: seq<Conditions.Condition>)

  function EffectOf(cfg: Config, api: Api, pc: Pc, a: Action): Effect {
    if !Writes(a, pc) || Attempt(cfg, api, pc).None? then NoEffect
    else
      match pc
      case AddingFinalizer(ctx) => Metadata(ctx.first, AddFinalizer(ctx.first.finalizers, Name(cfg)))
      case Removing(_, _, _, base) => Metadata(base, RemoveFinalizer(base.finalizers, Name(cfg)))
      case UpdatingRunning(_, base, conditions) => Status(base, conditions)
      case UpdatingDone(_, _, base, conditions) => Status(base, conditions)
      case UpdatingError(_, base, conditions) => Status(base, conditions)
      case _ => NoEffect
  }

  lemma StepHasEffect(cfg: Config, api: Api, pc: Pc, a: Action)
    ensures var after := WorkerStep(cfg, api, pc, a).api;
            match EffectOf(cfg, api, pc, a)
            case NoEffect => after == api
            case Metadata(base, fs) => Update(api, base, fs) == Some(after)
            case Status(base, conditions) => UpdateStatus(api, base, conditions) == Some(after)
  {
  }

  lemma WorkerStepKeepsApi(cfg: Config, api: Api, pc: Pc, a: Action)
    requires ApiInv(api)
    ensures var after := WorkerStep(cfg, api, pc, a).api;
            ApiInv(after) && forall p :: InPast(api.past, p) ==> InPast(after.past, p)
  {
    StepHasEffect(cfg, api, pc, a);
    match EffectOf(cfg, api, pc, a)
    case NoEffect =>
    case Metadata(base, fs) => UpdateKeeps(api, base, fs);
    case Status(base, conditions) => UpdateStatusKeeps(api, base, conditions);
  }

  lemma FailureFits(cfg: Config, past: seq<Option<Obj>>, pc: Pc)
    requires WorkerInv(cfg, past, pc)
    ensures WorkerInv(cfg, past, AfterFailure(pc))
  {
  }

  lemma MarkFits(base: Obj, mark: Conditions.Mark, now: int)
    ensures IsMarked(base.conditions, Conditions.Apply(base.conditions, mark, now))
  {
  }

  lemma GetForRunningFits(cfg: Config, api: Api, pc: Pc, w: nat, now: int)
    requires ApiInv(api) && WorkerInv(cfg, api.past, pc)
    ensures var moved := WorkerStep(cfg, api, pc, GetForRunning(w, now));
        moved.api == api && WorkerInv(cfg, api.past, moved.pc)
  {
    if pc.GettingForRunning? && api.store.Some? {
      assert Preserved(api.store, pc.ctx.first);
      MarkFits(api.store.value, Conditions.MarkRunning, now);
      assert InPast(api.past, api.store.value);
    }
  }

  lemma GetForDoneFits(cfg: Config, api: Api, pc: Pc, w: nat, now: int)
    requires ApiInv(api) && WorkerInv(cfg, api.past, pc)
    ensures var moved := WorkerStep(cfg, api, pc, GetForDone(w, now));
        moved.api == api && WorkerInv(cfg, api.past, moved.pc)
  {
    if pc.GettingForDone? && api.store.Some? {
      MarkFits(api.store.value, Conditions.MarkDone(pc.result, Failures(pc.ran.events)), now);
      assert InPast(api.past, api.store.value);
    }
  }

  lemma GetForErrorFits(cfg: Config, api: Api, pc: Pc, w: nat, now: int)
    requires ApiInv(api) && WorkerInv(cfg, api.past, pc)
    ensures var moved := WorkerStep(cfg, api, pc, GetForError(w, now));
        moved.api == api && WorkerInv(cfg, api.past, moved.pc)
  {
    if pc.GettingForError? && api.store.Some? {
      MarkFits(api.store.value, Conditions.MarkError(pc.message), now);
      assert InPast(api.past, api.store.value);
    }
  }

  lemma RefetchStepFits(cfg: Config, api: Api, pc: Pc, w: nat)
    requires ApiInv(api) && WorkerInv(cfg, api.past, pc)
    ensures var moved := WorkerStep(cfg, api, pc, Action.Refetch(w));
        moved.api == api && WorkerInv(cfg, api.past, moved.pc)
  {
    if pc.Refetching? && api.store.Some? {
      assert InPast(api.past, api.store.value);
      RefetchFits(cfg, api.past, pc.ctx, pc.ran, pc.result, api.store.value);
    }
  }

  lemma WriteStepFits(cfg: Config, api: Api, pc: Pc, a: Action)
    requires ApiInv(api) && WorkerInv(cfg, api.past, pc)
    requires IsWrite(a)
    ensures var moved := WorkerStep(cfg, api, pc, a); WorkerInv(cfg, moved.api.past, moved.pc)
  {
    WorkerStepKeepsApi(cfg, api, pc, a);
    FailureFits(cfg, api.past, pc);
    match (a, pc)
    case (WriteRunning(_), UpdatingRunning(ctx, base, conditions)) =>
      if Current(api, base) { AcceptedIsCurrent(api, base); }
    case _ =>
  }

  predicate IsWrite(a: Action) {
    a.WriteFinalizer? || a.WriteRunning? || a.WriteRemoval? || a.WriteDone? || a.WriteError? || a.AnswerLost?
  }

  lemma OtherStepFits(cfg: Config, api: Api, pc: Pc, a: Action)
    requires ApiInv(api) && WorkerInv(cfg, api.past, pc) && !IsWrite(a)
    ensures WorkerInv(cfg, WorkerStep(cfg, api, pc, a).api.past, WorkerStep(cfg, api, pc, a).pc)
  {
    match a
    case GetForRunning(w, now) => GetForRunningFits(cfg, api, pc, w, now);
    case GetForDone(w, now) => GetForDoneFits(cfg, api, pc, w, now);
    case GetForError(w, now) => GetForErrorFits(cfg, api, pc, w, now);
    case Refetch(w) => RefetchStepFits(cfg, api, pc, w);
    case _ => LocalStepFits(cfg, api, pc, a);
  }

  lemma LocalStepFits(cfg: Config, api: Api, pc: Pc, a: Action)
    requires ApiInv(api) && WorkerInv(cfg, api.past, pc) && !IsWrite(a)
    requires !a.GetForRunning? && !a.GetForDone? && !a.GetForError? && !a.Refetch?
    ensures WorkerInv(cfg, WorkerStep(cfg, api, pc, a).api.past, WorkerStep(cfg, api, pc, a).pc)
  {
    FailureFits(cfg, api.past, pc);
    if a.FirstGet? && a.cached < |api.past| && api.past[a.cached].Some? {
      FirstGetFits(cfg, api.past, api.past[a.cached].value);
    }
    if a.EventsEnd? && pc.Executing? {
      EventsFit(cfg, api.past, pc.ctx, Ran(pc.subject, pc.command, a.events), a.result, a.stdoutRead);
    }
  }

  lemma WorkerStepFits(cfg: Config, api: Api, pc: Pc, a: Action)
    requires ApiInv(api) && WorkerInv(cfg, api.past, pc)
    ensures var moved := WorkerStep(cfg, api, pc, a); WorkerInv(cfg, moved.api.past, moved.pc)
  {
    if IsWrite(a) { WriteStepFits(cfg, api, pc, a); } else { OtherStepFits(cfg, api, pc, a); }
  }

  // ----- the finalizer

  /** A removal happened after a successful run on an object that was first read
      as deleted; the command was the finalizer's exactly when the object the run
      was given was deleted, which it was if it was the object first read. */
  predicate Justified(r: Removal) {
    JustifiedRun(r.first, r.ran)
  }

  predicate JustifiedRun(first: Obj, ran: Ran) {
    && first.deleted
    && HasStats(ran.events) && AllHandled(ran.events)
    && (ran.subject.deleted <==> ran.command.Finalizing?)
    && (first.uid == ran.subject.uid ==> ran.command.Finalizing?)
  }

  predicate WasRemoved(h: History, uid: nat) {
    exists r :: r in h.removals && r.uid == uid
  }

  predicate HistoryInv(cfg: Config, store: Option<Obj>, h: History) {
    && (forall r :: r in h.removals ==> Justified(r))
    && GuardedBy(cfg, store) <= h.guarded
    && (forall uid :: uid in h.guarded ==> uid in GuardedBy(cfg, store) || uid in h.tampered || WasRemoved(h, uid))
  }

  ghost predicate Inv(cfg: Config, s: State) {
    && ApiInv(s.api)
    && (forall w :: 0 <= w < |s.workers| ==> WorkerInv(cfg, s.api.past, s.workers[w]))
    && HistoryInv(cfg, s.api.store, s.history)
  }

  /** A worker takes the finalizer off only where it means to. */
  lemma OnlyRemovingLoses(cfg: Config, api: Api, pc: Pc, a: Action)
    requires ApiInv(api) && WorkerInv(cfg, api.past, pc)
    ensures Lost(cfg, api.store, WorkerStep(cfg, api, pc, a).api.store) != {} ==> pc.Removing?
  {
    StepHasEffect(cfg, api, pc, a);
  }

  lemma RemovalJustified(cfg: Config, api: Api, pc: Pc, a: Action)
    requires ApiInv(api) && WorkerInv(cfg, api.past, pc)
    ensures Lost(cfg, api.store, WorkerStep(cfg, api, pc, a).api.store) != {} ==>
              pc.Removing? && api.store.Some? && JustifiedRun(pc.ctx.first, pc.ran)
  {
    OnlyRemovingLoses(cfg, api, pc, a);
  }

  lemma RecordKeeps(cfg: Config, h: History, before: Option<Obj>, after: Option<Obj>, a: Action, pc: Pc)
    requires HistoryInv(cfg, before, h)
    requires Lost(cfg, before, after) != {} ==>
        IsForeign(a) || (pc.Removing? && !a.NewWorker? && JustifiedRun(pc.ctx.first, pc.ran))
    ensures HistoryInv(cfg, after, Recorded(cfg, h, before, after, a, pc))
  {
    var k := Recorded(cfg, h, before, after, a, pc);
    forall uid | uid in k.guarded ensures uid in GuardedBy(cfg, after) || uid in k.tampered || WasRemoved(k, uid) {
      if uid !in GuardedBy(cfg, after) {
        if WasRemoved(h, uid) {
          var r :| r in h.removals && r.uid == uid;
          assert r in k.removals;
        } else if uid in Lost(cfg, before, after) && !IsForeign(a) {
          assert k.removals[|h.removals|].uid == uid;
        }
      }
    }
  }

  lemma OthersKeep(cfg: Config, past: seq<Option<Obj>>, more: seq<Option<Obj>>, workers: seq<Pc>)
    requires forall w :: 0 <= w < |workers| ==> WorkerInv(cfg, past, workers[w])
    requires forall p :: InPast(past, p) ==> InPast(more, p)
    ensures forall w :: 0 <= w < |workers| ==> WorkerInv(cfg, more, workers[w])
  {
    forall w | 0 <= w < |workers| ensures WorkerInv(cfg, more, workers[w]) {
      WorkerInvGrows(cfg, past, more, workers[w]);
    }
  }

  lemma ForeignStepKeeps(cfg: Config, s: State, a: Action)
    requires Inv(cfg, s) && Enabled(s, a) && IsForeign(a)
    ensures Inv(cfg, Step(cfg, s, a))
  {
    var api := ForeignStep(s.api, a);
    ForeignKeeps(s.api, a);
    RecordKeeps(cfg, s.history, s.api.store, api.store, a, Idle);
    OthersKeep(cfg, s.api.past, api.past, s.workers);
  }

  lemma PartsKeep(cfg: Config, s: State, w: nat, api: Api, pc: Pc, h: History)
    requires Inv(cfg, s) && w < |s.workers| && ApiInv(api) && WorkerInv(cfg, api.past, pc)
    requires HistoryInv(cfg, api.store, h) && forall p :: InPast(s.api.past, p) ==> InPast(api.past, p)
    ensures Inv(cfg, State(api, s.workers[w := pc], h))
  {
    OthersKeep(cfg, s.api.past, api.past, s.workers);
  }

  lemma WorkerStepKeeps(cfg: Config, s: State, a: Action)
    requires Inv(cfg, s) && Enabled(s, a) && !IsForeign(a) && !a.NewWorker?
    ensures Inv(cfg, Step(cfg, s, a))
  {
    var pc := s.workers[a.w];
    var moved := WorkerStep(cfg, s.api, pc, a);
    WorkerStepKeepsApi(cfg, s.api, pc, a);
    WorkerStepFits(cfg, s.api, pc, a);
    RemovalJustified(cfg, s.api, pc, a);
    var h := Recorded(cfg, s.history, s.api.store, moved.api.store, a, pc);
    RecordKeeps(cfg, s.history, s.api.store, moved.api.store, a, pc);
    PartsKeep(cfg, s, a.w, moved.api, moved.pc, h);
  }

  /** Every step keeps the invariant. */
  lemma StepKeeps(cfg: Config, s: State, a: Action)
    requires Inv(cfg, s) && Enabled(s, a)
    ensures Inv(cfg, Step(cfg, s, a))
  {
    if IsForeign(a) {
      ForeignStepKeeps(cfg, s, a);
    } else if !a.NewWorker? {
      WorkerStepKeeps(cfg, s, a);
    }
  }

  lemma {:induction false} RunKeeps(cfg: Config, s: State, actions: seq<Action>)
    requires Inv(cfg, s) && CanRun(cfg, s, actions)
    ensures Inv(cfg, Run(cfg, s, actions))
    decreases |actions|
  {
    if actions != [] {
      StepKeeps(cfg, s, actions[0]);
      RunKeeps(cfg, Step(cfg, s, actions[0]), actions[1..]);
    }
  }

  /** The operator removes its finalizer only with justification, in every
      interleaving; and an object that ever had the finalizer keeps it until
      somebody else takes it off or a justified removal does. */
  lemma FinalizerSafety(cfg: Config, actions: seq<Action>)
    requires CanRun(cfg, INITIAL, actions)
    ensures var s := Run(cfg, INITIAL, actions);
            && (forall r :: r in s.history.removals ==> Justified(r))
            && (forall uid :: uid in s.history.guarded ==>
                  Guards(cfg, s.api.store, uid) || uid in s.history.tampered || WasRemoved(s.history, uid))
  {
    RunKeeps(cfg, INITIAL, actions);
  }

  /** The name was not given to a new object while the reconcile ran. */
  predicate SameObject(r: Removal) {
    r.first.uid == r.uid && r.ran.subject.uid == r.uid
  }

  /** So, when no object is recreated within a reconcile, an object that lost the
      finalizer without outside help was finalized: the finalizer's command ran on
      it after its deletion, to the end and without failure. */
  lemma FinalizedBeforeRelease(cfg: Config, actions: seq<Action>, uid: nat) returns (r: Removal)
    requires CanRun(cfg, INITIAL, actions)
    requires forall x :: x in Run(cfg, INITIAL, actions).history.removals ==> SameObject(x)
    requires uid in Run(cfg, INITIAL, actions).history.guarded - Run(cfg, INITIAL, actions).history.tampered
    requires !Guards(cfg, Run(cfg, INITIAL, actions).api.store, uid)
    ensures r in Run(cfg, INITIAL, actions).history.removals
    ensures r.ran.subject.uid == uid && r.ran.subject.deleted && r.ran.command.Finalizing?
    ensures HasStats(r.ran.events) && AllHandled(r.ran.events)
  {
    FinalizerSafety(cfg, actions);
    var h := Run(cfg, INITIAL, actions).history;
    r :| r in h.removals && r.uid == uid;
  }

  /** Where a reconcile is that found the object deleted only after its run. */
  predicate WrapsUp(pc: Pc) {
    match pc
    case GettingForDone(ctx, _, _) => ctx.requeue == DELETED_REQUEUE
    case UpdatingDone(ctx, _, _, _) => ctx.requeue == DELETED_REQUEUE
    case Finished(answer) => answer.requeueAfter == DELETED_REQUEUE
    case _ => false
  }

  predicate NotBy(w: nat, removals: seq<Removal>) {
    forall r :: r in removals ==> r.worker != w
  }

  lemma WrapUpMove(cfg: Config, api: Api, pc: Pc, a: Action)
    requires WrapsUp(pc) && !a.Restart? && !a.FirstGet?
    ensures WrapsUp(WorkerStep(cfg, api, pc, a).pc)
  {
  }

  /** What a step adds to the removals: at most one, by a worker at its removal. */
  lemma RecordedRemovals(cfg: Config, h: History, before: Option<Obj>, after: Option<Obj>, a: Action, pc: Pc)
    returns (more: seq<Removal>)
    ensures Recorded(cfg, h, before, after, a, pc).removals == h.removals + more
    ensures more != [] ==> !IsForeign(a) && !a.NewWorker? && pc.Removing?
    ensures forall r :: r in more ==> r.worker == a.w
  {
    var removals := Recorded(cfg, h, before, after, a, pc).removals;
    more := removals[|h.removals|..];
  }

  lemma WrapUpStep(cfg: Config, s: State, w: nat, a: Action) returns (more: seq<Removal>)
    requires Enabled(s, a) && a != Restart(w) && w < |s.workers| && WrapsUp(s.workers[w])
    ensures var t := Step(cfg, s, a);
            && w < |t.workers| && WrapsUp(t.workers[w])
            && t.history.removals == s.history.removals + more && NotBy(w, more)
  {
    more := [];
    if IsForeign(a) {
      more := RecordedRemovals(cfg, s.history, s.api.store, ForeignStep(s.api, a).store, a, Idle);
    } else if !a.NewWorker? {
      var pc := s.workers[a.w];
      more := RecordedRemovals(cfg, s.history, s.api.store, WorkerStep(cfg, s.api, pc, a).api.store, a, pc);
      WrapUpMoveOf(cfg, s, w, a);
    }
  }

  lemma WrapUpMoveOf(cfg: Config, s: State, w: nat, a: Action)
    requires Enabled(s, a) && a != Restart(w) && w < |s.workers| && WrapsUp(s.workers[w])
    requires !IsForeign(a) && !a.NewWorker?
    ensures a.w == w ==> WrapsUp(WorkerStep(cfg, s.api, s.workers[w], a).pc) && !s.workers[w].Removing?
  {
    if a.w == w { WrapUpMove(cfg, s.api, s.workers[w], a); }
  }

  lemma {:induction false} WrapUpRun(cfg: Config, s: State, w: nat, actions: seq<Action>) returns (more: seq<Removal>)
    requires CanRun(cfg, s, actions) && Restart(w) !in actions && w < |s.workers| && WrapsUp(s.workers[w])
    ensures var t := Run(cfg, s, actions); w < |t.workers| && WrapsUp(t.workers[w])
    ensures Run(cfg, s, actions).history.removals == s.history.removals + more && NotBy(w, more)
    decreases |actions|
  {
    if actions == [] { return []; }
    assert actions[0] in actions && forall a :: a in actions[1..] ==> a in actions;
    var now := WrapUpStep(cfg, s, w, actions[0]);
    var later := WrapUpRun(cfg, Step(cfg, s, actions[0]), w, actions[1..]);
    more := now + later;
    Reassociate(s.history.removals, now, later);
  }

  /** A deletion that the first read did not see, in any interleaving: from the
      read after the run on, however the run goes on, the worker removes nothing,
      and the reconcile ends with the request to come back in five seconds. */
  lemma DeletedMidReconcile(cfg: Config, before: seq<Action>, w: nat, after: seq<Action>) returns (more: seq<Removal>)
    requires CanRun(cfg, INITIAL, before) && cfg.finalizer.Some?
    requires var s := Run(cfg, INITIAL, before);
             && w < |s.workers| && s.workers[w].Refetching? && !s.workers[w].ctx.first.deleted
             && s.api.store.Some? && s.api.store.value.deleted
             && CanRun(cfg, Step(cfg, s, Action.Refetch(w)), after) && Restart(w) !in after
    ensures var s := Run(cfg, INITIAL, before); var t := Run(cfg, Step(cfg, s, Action.Refetch(w)), after);
            && t.history.removals == s.history.removals + more && NotBy(w, more)
            && w < |t.workers| && (t.workers[w].Finished? ==> t.workers[w].answer.requeueAfter == 5)
  {
    var s := Run(cfg, INITIAL, before);
    RefetchWrapsUp(cfg, s, w);
    more := WrapUpRun(cfg, Step(cfg, s, Action.Refetch(w)), w, after);
  }

  lemma RefetchWrapsUp(cfg: Config, s: State, w: nat)
    requires w < |s.workers| && s.workers[w].Refetching? && !s.workers[w].ctx.first.deleted
    requires s.api.store.Some? && s.api.store.value.deleted && cfg.finalizer.Some?
    ensures Enabled(s, Action.Refetch(w))
    ensures var t := Step(cfg, s, Action.Refetch(w));
            && t.workers == s.workers[w := t.workers[w]] && WrapsUp(t.workers[w])
            && t.history.removals == s.history.removals
  {
  }

  // ----- objects created once

  function CreateCount(a: Action): nat {
    if a.Create? then 1 else 0
  }

  /** How often the object is created. */
  function Creates(actions: seq<Action>): nat {
    if actions == [] then 0 else CreateCount(actions[0]) + Creates(actions[1..])
  }

  /** Every object the worker has in hand is among the first `n` created. */
  predicate HasEarly(pc: Pc, n: nat) {
    match pc
    case AddingFinalizer(ctx) => ctx.first.uid < n
    case GettingForRunning(ctx) => ctx.first.uid < n
    case UpdatingRunning(ctx, base, _) => ctx.first.uid < n && base.uid < n
    case Starting(ctx, o) => ctx.first.uid < n && o.uid < n
    case Executing(ctx, o, _) => ctx.first.uid < n && o.uid < n
    case Refetching(ctx, ran, _) => ctx.first.uid < n && ran.subject.uid < n
    case Removing(ctx, ran, _, _) => ctx.first.uid < n && ran.subject.uid < n
    case _ => true
  }

  predicate Early(r: Removal, n: nat) {
    r.uid < n && r.first.uid < n && r.ran.subject.uid < n
  }

  predicate WorkersEarly(workers: seq<Pc>, n: nat) {
    forall w :: 0 <= w < |workers| ==> HasEarly(workers[w], n)
  }

  predicate RemovalsEarly(removals: seq<Removal>, n: nat) {
    forall r :: r in removals ==> Early(r, n)
  }

  ghost predicate AllEarly(s: State, n: nat) {
    ApiInv(s.api) && s.api.nextUid == n && WorkersEarly(s.workers, n) && RemovalsEarly(s.history.removals, n)
  }

  lemma StepCreates(cfg: Config, api: Api, pc: Pc, a: Action)
    ensures WorkerStep(cfg, api, pc, a).api.nextUid == api.nextUid
  {
    StepHasEffect(cfg, api, pc, a);
  }

  lemma StoredEarly(api: Api)
    requires ApiInv(api)
    ensures api.store.Some? ==> api.store.value.uid < api.nextUid
  {
    if api.store.Some? { assert InPast(api.past, api.store.value); }
  }

  lemma FirstGetEarly(cfg: Config, o: Obj, n: nat)
    requires o.uid < n
    ensures HasEarly(AfterFirstGet(cfg, o), n)
  {
  }

  lemma EventsEarly(ctx: Ctx, ran: Ran, result: Conditions.AnsibleResult, stdoutRead: bool, n: nat)
    requires ctx.first.uid < n && ran.subject.uid < n
    ensures HasEarly(AfterEvents(ctx, ran, result, stdoutRead), n)
  {
  }

  lemma RefetchEarly(cfg: Config, ctx: Ctx, ran: Ran, result: Conditions.AnsibleResult, o: Obj, n: nat)
    requires ctx.first.uid < n && ran.subject.uid < n
    ensures HasEarly(AfterRefetch(cfg, ctx, ran, result, o), n)
  {
  }

  lemma AttemptKeepsUid(cfg: Config, api: Api, pc: Pc)
    requires IsWriting(pc) && Attempt(cfg, api, pc).Some?
    ensures Attempt(cfg, api, pc).value.store.GetOr(Base(pc)).uid == Base(pc).uid
  {
  }

  lemma WriteEarly(cfg: Config, api: Api, pc: Pc, a: Action)
    requires IsWrite(a) && HasEarly(pc, api.nextUid)
    ensures HasEarly(WorkerStep(cfg, api, pc, a).pc, api.nextUid)
  {
    if Writes(a, pc) && Attempt(cfg, api, pc).Some? { AttemptKeepsUid(cfg, api, pc); }
  }

  lemma OtherEarly(cfg: Config, api: Api, pc: Pc, a: Action)
    requires !IsWrite(a) && ApiInv(api) && HasEarly(pc, api.nextUid)
    ensures HasEarly(WorkerStep(cfg, api, pc, a).pc, api.nextUid)
  {
    StoredEarly(api);
    match (a, pc)
    case (FirstGet(_, cached), _) =>
      if cached < |api.past| && api.past[cached].Some? {
        assert InPast(api.past, api.past[cached].value);
        FirstGetEarly(cfg, api.past[cached].value, api.nextUid);
      }
    case (EventsEnd(_, events, result, stdoutRead), Executing(ctx, o, command)) =>
      EventsEarly(ctx, Ran(o, command, events), result, stdoutRead, api.nextUid);
    case (Refetch(_), Refetching(ctx, ran, result)) =>
      if api.store.Some? { RefetchEarly(cfg, ctx, ran, result, api.store.value, api.nextUid); }
    case _ => ShortEarly(cfg, api, pc, a);
  }

  lemma ShortEarly(cfg: Config, api: Api, pc: Pc, a: Action)
    requires !IsWrite(a) && !a.FirstGet? && HasEarly(pc, api.nextUid)
    requires api.store.Some? ==> api.store.value.uid < api.nextUid
    requires !(a.EventsEnd? && pc.Executing?) && !(a.Refetch? && pc.Refetching?)
    ensures HasEarly(WorkerStep(cfg, api, pc, a).pc, api.nextUid)
  {
  }

  lemma RemovalEarly(cfg: Config, s: State, a: Action)
    requires Enabled(s, a) && AllEarly(s, s.api.nextUid) && !IsForeign(a) && !a.NewWorker?
    ensures RemovalsEarly(Step(cfg, s, a).history.removals, s.api.nextUid)
  {
    StoredEarly(s.api);
    var n, pc := s.api.nextUid, s.workers[a.w];
    var more := RecordedRemovals(cfg, s.history, s.api.store, WorkerStep(cfg, s.api, pc, a).api.store, a, pc);
    assert HasEarly(pc, n);
  }

  lemma MoreEarly(s: State, n: nat)
    requires WorkersEarly(s.workers, n) && RemovalsEarly(s.history.removals, n)
    ensures WorkersEarly(s.workers, n + 1) && RemovalsEarly(s.history.removals, n + 1)
  {
    forall w | 0 <= w < |s.workers| ensures HasEarly(s.workers[w], n + 1) { assert HasEarly(s.workers[w], n); }
    forall r | r in s.history.removals ensures Early(r, n + 1) { assert Early(r, n); }
  }

  lemma ForeignEarly(cfg: Config, s: State, a: Action)
    requires Enabled(s, a) && AllEarly(s, s.api.nextUid) && IsForeign(a)
    ensures AllEarly(Step(cfg, s, a), s.api.nextUid + CreateCount(a))
  {
    ForeignKeeps(s.api, a);
    MoreEarly(s, s.api.nextUid);
    var more := RecordedRemovals(cfg, s.history, s.api.store, ForeignStep(s.api, a).store, a, Idle);
  }

  lemma MoveEarly(cfg: Config, s: State, a: Action)
    requires Enabled(s, a) && AllEarly(s, s.api.nextUid) && !IsForeign(a) && !a.NewWorker?
    ensures HasEarly(WorkerStep(cfg, s.api, s.workers[a.w], a).pc, s.api.nextUid)
  {
    assert HasEarly(s.workers[a.w], s.api.nextUid);
    if IsWrite(a) {
      WriteEarly(cfg, s.api, s.workers[a.w], a);
    } else {
      OtherEarly(cfg, s.api, s.workers[a.w], a);
    }
  }

  lemma WorkerEarly(cfg: Config, s: State, a: Action)
    requires Enabled(s, a) && AllEarly(s, s.api.nextUid) && !IsForeign(a) && !a.NewWorker?
    ensures AllEarly(Step(cfg, s, a), s.api.nextUid)
  {
    WorkerStepKeepsApi(cfg, s.api, s.workers[a.w], a);
    StepCreates(cfg, s.api, s.workers[a.w], a);
    MoveEarly(cfg, s, a);
    RemovalEarly(cfg, s, a);
  }

  lemma StepEarly(cfg: Config, s: State, a: Action, n: nat)
    requires Enabled(s, a) && AllEarly(s, n)
    ensures AllEarly(Step(cfg, s, a), n + CreateCount(a))
  {
    if IsForeign(a) {
      ForeignEarly(cfg, s, a);
    } else if a.NewWorker? {
      assert HasEarly(Idle, n);
    } else {
      WorkerEarly(cfg, s, a);
    }
  }

  /** A property of states and the number of objects created, kept by every step. */
  ghost predicate Counts(cfg: Config, kept: (State, nat) -> bool) {
    forall s, a, n: nat :: kept(s, n) && Enabled(s, a) ==> kept(Step(cfg, s, a), n + CreateCount(a))
  }

  lemma StepCounts(cfg: Config, s: State, a: Action, kept: (State, nat) -> bool, n: nat)
    requires Counts(cfg, kept) && kept(s, n) && Enabled(s, a)
    ensures kept(Step(cfg, s, a), n + CreateCount(a))
  {
  }

  lemma {:induction false} RunCounts(cfg: Config, s: State, actions: seq<Action>, kept: (State, nat) -> bool, n: nat)
    requires Counts(cfg, kept) && kept(s, n) && CanRun(cfg, s, actions)
    ensures kept(Run(cfg, s, actions), n + Creates(actions))
    decreases |actions|
  {
    if actions != [] {
      var t := Step(cfg, s, actions[0]);
      StepCounts(cfg, s, actions[0], kept, n);
      RunCounts(cfg, t, actions[1..], kept, n + CreateCount(actions[0]));
    }
  }

  lemma OneIsSame(s: State, n: nat)
    requires AllEarly(s, n) && n <= 1
    ensures forall r :: r in s.history.removals ==> SameObject(r)
  {
    forall r | r in s.history.removals ensures SameObject(r) { assert Early(r, n); }
  }

  /** When the object is created at most once, no reconcile sees two of its name. */
  lemma CreatedOnceIsSame(cfg: Config, actions: seq<Action>)
    requires CanRun(cfg, INITIAL, actions) && Creates(actions) <= 1
    ensures forall r :: r in Run(cfg, INITIAL, actions).history.removals ==> SameObject(r)
  {
    var early := (s: State, n: nat) => AllEarly(s, n);
    forall s, a, n: nat | early(s, n) && Enabled(s, a) ensures early(Step(cfg, s, a), n + CreateCount(a)) {
      StepEarly(cfg, s, a, n);
    }
    assert Counts(cfg, early);
    RunCounts(cfg, INITIAL, actions, early, 0);
    OneIsSame(Run(cfg, INITIAL, actions), Creates(actions));
  }

  // ----- what the operator writes

  lemma {:induction false} RemoveFinalizerAgain(fs: seq<string>, f: string)
    ensures RemoveFinalizer(RemoveFinalizer(fs, f), f) == RemoveFinalizer(fs, f)
    ensures RemoveFinalizer(fs + [f], f) == RemoveFinalizer(fs, f)
  {
    if fs == [] {
      assert fs + [f] == [f];
    } else {
      assert (fs + [f])[1..] == fs[1..] + [f];
      RemoveFinalizerAgain(fs[1..], f);
      var rest := RemoveFinalizer(fs[1..], f);
      assert ([fs[0]] + rest)[1..] == rest && [] + rest == rest;
    }
  }

  /** Nothing of others is lost to a stale read: a step of the operator leaves the
      object's identity, deletion and period, all other finalizers in their order,
      and the conditions as they are in the store, except for its own finalizer
      and one condition update; and it makes an object go away only when that was
      deleted and held by nothing but the operator's finalizer. */
  ghost predicate ExactWrite(cfg: Config, before: Option<Obj>, after: Option<Obj>) {
    match (before, after)
    case (None, None) => true
    case (None, Some(_)) => false
    case (Some(o), None) => o.deleted && RemoveFinalizer(o.finalizers, Name(cfg)) == []
    case (Some(o), Some(p)) =>
      && p.uid == o.uid && p.deleted == o.deleted && p.period == o.period
      && RemoveFinalizer(p.finalizers, Name(cfg)) == RemoveFinalizer(o.finalizers, Name(cfg))
      && (p.conditions == o.conditions || IsMarked(o.conditions, p.conditions))
  }

  lemma WritesAreExact(cfg: Config, api: Api, pc: Pc, a: Action)
    requires ApiInv(api) && WorkerInv(cfg, api.past, pc)
    ensures ExactWrite(cfg, api.store, WorkerStep(cfg, api, pc, a).api.store)
  {
    StepHasEffect(cfg, api, pc, a);
    match EffectOf(cfg, api, pc, a)
    case NoEffect =>
    case Metadata(base, fs) =>
      AcceptedIsCurrent(api, base);
      RemoveFinalizerAgain(base.finalizers, Name(cfg));
    case Status(base, conditions) => AcceptedIsCurrent(api, base);
  }

  lemma OperatorWritesExactly(cfg: Config, actions: seq<Action>, a: Action)
    requires CanRun(cfg, INITIAL, actions) && Enabled(Run(cfg, INITIAL, actions), a) && !IsForeign(a)
    ensures var s := Run(cfg, INITIAL, actions); ExactWrite(cfg, s.api.store, Step(cfg, s, a).api.store)
  {
    RunKeeps(cfg, INITIAL, actions);
    var s := Run(cfg, INITIAL, actions);
    if !a.NewWorker? { WritesAreExact(cfg, s.api, s.workers[a.w], a); }
  }
}
