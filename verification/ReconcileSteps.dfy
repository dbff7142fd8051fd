/**
 * The reconcile protocol: any number of reconciles of one custom resource,
 * interleaved with users and other controllers, over an API server with
 * optimistic concurrency. A reconcile is split at its calls to the API server
 * and to Ansible; everything between two calls is one step.
 */
module ReconcileSteps {
  import opened Common
  import opened JobEvents
  import Conditions

  /** The stored object: identity, version, deletion mark, finalizers, the parsed
      period annotation and the status conditions. */
  datatype Obj = Obj(uid: nat, version: nat, deleted: bool, finalizers: seq<string>, period: Option<Period>,
                     conditions: seq<Conditions.Condition>)

  /** The operator's watch: finalizer name, status management, default period. */
  datatype Config = Config(finalizer: Option<string>, manageStatus: bool, period: nat)

  const DELETED_REQUEUE := 5

  // ----- the API server

  /** The stored object (if any) and everything that was ever stored, which is
      what a cached read may still answer with. */
  datatype Api = Api(store: Option<Obj>, past: seq<Option<Obj>>, nextVersion: nat, nextUid: nat)

  const EMPTY_API := Api(None, [None], 0, 0)

  function Put(api: Api, o: Option<Obj>): Api {
    var stored := match o case Some(x) => Some(x.(version := api.nextVersion)) case None => None;
    api.(store := stored, past := api.past + [stored], nextVersion := api.nextVersion + 1)
  }

  /** A write is accepted only on the version it was based on. */
  predicate Current(api: Api, base: Obj) {
    api.store.Some? && api.store.value.uid == base.uid && api.store.value.version == base.version
  }

  /** Updating metadata: no finalizer may be added to a deleted object, and one
      without finalizers is gone. */
  function Update(api: Api, base: Obj, finalizers: seq<string>): Option<Api> {
    if !Current(api, base) then None
    else
      var o := api.store.value;
      if o.deleted && !(forall f :: f in finalizers ==> f in o.finalizers) then None
      else Some(Put(api,
          if o.deleted && finalizers == [] then None else Some(o.(finalizers := finalizers, period := base.period))))
  }

  function UpdateStatus(api: Api, base: Obj, conditions: seq<Conditions.Condition>): Option<Api> {
    if !Current(api, base) then None else Some(Put(api, Some(api.store.value.(conditions := conditions))))
  }

  function AddFinalizer(fs: seq<string>, f: string): seq<string> {
    if f in fs then fs else fs + [f]
  }

  function RemoveFinalizer(fs: seq<string>, f: string): (r: seq<string>)
    ensures forall g :: g in r <==> g in fs && g != f
  {
    if fs == [] then [] else (if fs[0] == f then [] else [fs[0]]) + RemoveFinalizer(fs[1..], f)
  }

  // ----- one reconcile

  datatype Command = Regular | Finalizing

  /** What was decided from the first read, and the answer's period so far. */
  datatype Ctx = Ctx(first: Obj, requeue: nat)

  /** What the ansible run was: the object it was given, the command, the events. */
  datatype Ran = Ran(subject: Obj, command: Command, events: seq<JobEvent>)

  datatype Pc =
    | Idle
    | AddingFinalizer(ctx: Ctx)
    | GettingForRunning(ctx: Ctx)
    | UpdatingRunning(ctx: Ctx, base: Obj, conditions: seq<Conditions.Condition>)
    | Starting(ctx: Ctx, subject: Obj)
    | Executing(ctx: Ctx, subject: Obj, command: Command)
    | Refetching(ctx: Ctx, ran: Ran, result: Conditions.AnsibleResult)
    | Removing(ctx: Ctx, ran: Ran, result: Conditions.AnsibleResult, base: Obj)
    | GettingForDone(ctx: Ctx, ran: Ran, result: Conditions.AnsibleResult)
    | UpdatingDone(ctx: Ctx, ran: Ran, base: Obj, conditions: seq<Conditions.Condition>)
    | GettingForError(answer: Answer, message: string)
    | UpdatingError(answer: Answer, base: Obj, conditions: seq<Conditions.Condition>)
    | Finished(answer: Answer)

  function Name(cfg: Config): string {
    cfg.finalizer.GetOr("")
  }

  predicate IsFinalizerRun(cfg: Config, o: Obj) {
    cfg.finalizer.Some? && o.deleted && cfg.finalizer.value in o.finalizers
  }

  function AfterFinalizer(cfg: Config, ctx: Ctx, o: Obj): Pc {
    if cfg.manageStatus then GettingForRunning(ctx) else Starting(ctx, o)
  }

  /** From the first read to the next call. */
  function AfterFirstGet(cfg: Config, o: Obj): Pc {
    if o.period == Some(Unparsable) then
      GettingForError(Answer(cfg.period, true), "Unable to parse reconcile period annotation")
    else
      var ctx := Ctx(o, match o.period case Some(p) => p.n case None => cfg.period);
      if Name(cfg) in o.finalizers then AfterFinalizer(cfg, ctx, o)
      else if o.deleted then Finished(Answer(0, false))
      else if cfg.finalizer.Some? then AddingFinalizer(ctx)
      else AfterFinalizer(cfg, ctx, o)
  }

  /** Starting ansible: refused for a deleted object that is no finalizer run. */
  function AfterStart(cfg: Config, ctx: Ctx, o: Obj): Pc {
    if o.deleted && !IsFinalizerRun(cfg, o) then
      GettingForError(Answer(ctx.requeue, true), "Unable to run reconciliation")
    else Executing(ctx, o, if IsFinalizerRun(cfg, o) then Finalizing else Regular)
  }

  /** When the event channel is closed. */
  function AfterOutcome(ctx: Ctx, ran: Ran, result: Conditions.AnsibleResult, stdoutRead: bool, o: Outcome): Pc {
    match o
    case Returned(answer) => Finished(answer)
    case Completed(stats, _) =>
      if stats then Refetching(ctx, ran, result)
      else if stdoutRead then Finished(Answer(ctx.requeue, true))
      else GettingForError(Answer(ctx.requeue, true), "Failed to get ansible-runner stdout")
  }

  function AfterEvents(ctx: Ctx, ran: Ran, result: Conditions.AnsibleResult, stdoutRead: bool): Pc {
    AfterOutcome(ctx, ran, result, stdoutRead, Outcomes(ran.events, ctx.requeue))
  }

  function RunFailed(ran: Ran): bool {
    Failures(ran.events) != []
  }

  function AfterRemoval(cfg: Config, ctx: Ctx, ran: Ran, result: Conditions.AnsibleResult): Pc {
    if cfg.manageStatus then GettingForDone(ctx, ran, result) else Finished(Answer(ctx.requeue, RunFailed(ran)))
  }

  /** From the read after the run: the finalizer is removed when the first read
      saw the deletion; a deletion seen only now makes the operator come back soon. */
  function AfterRefetch(cfg: Config, ctx: Ctx, ran: Ran, result: Conditions.AnsibleResult, o: Obj): Pc {
    if ctx.first.deleted && cfg.finalizer.Some? && !RunFailed(ran) then Removing(ctx, ran, result, o)
    else if o.deleted && cfg.finalizer.Some? then AfterRemoval(cfg, ctx.(requeue := DELETED_REQUEUE), ran, result)
    else AfterRemoval(cfg, ctx, ran, result)
  }

  // ----- the system

  /** A removal of the finalizer that took effect, and the worker that made it. */
  datatype Removal = Removal(worker: nat, uid: nat, first: Obj, ran: Ran)

  /** What happened: the removals by the operator, the objects (by uid) that ever
      had the finalizer, and those from which somebody else took it. */
  datatype History = History(removals: seq<Removal>, guarded: set<nat>, tampered: set<nat>)

  datatype State = State(api: Api, workers: seq<Pc>, history: History)

  const INITIAL := State(EMPTY_API, [], History([], {}, {}))

  datatype Action =
    // reconciles
    | NewWorker
    | Restart(w: nat)
    | FirstGet(w: nat, cached: nat)
    | GetFails(w: nat)
    | UpdateFails(w: nat)
    | AnswerLost(w: nat)  // the write takes effect, but is answered with an error
    | WriteFinalizer(w: nat)
    | GetForRunning(w: nat, now: int)
    | WriteRunning(w: nat)
    | StartFails(w: nat)
    | Start(w: nat)
    | EventsEnd(w: nat, events: seq<JobEvent>, result: Conditions.AnsibleResult, stdoutRead: bool)
    | Refetch(w: nat)
    | WriteRemoval(w: nat)
    | GetForDone(w: nat, now: int)
    | WriteDone(w: nat)
    | GetForError(w: nat, now: int)
    | WriteError(w: nat)
    // users and other controllers
    | Create(finalizers: seq<string>, period: Option<Period>, conditions: seq<Conditions.Condition>)
    | Delete
    | Edit(finalizers: seq<string>, period: Option<Period>, conditions: seq<Conditions.Condition>)

  predicate IsForeign(a: Action) {
    a.Create? || a.Delete? || a.Edit?
  }

  predicate IsWriting(pc: Pc) {
    pc.AddingFinalizer? || pc.UpdatingRunning? || pc.Removing? || pc.UpdatingDone? || pc.UpdatingError?
  }

  /** A step of the worker `w`. */
  predicate TakenBy(a: Action, w: nat) {
    !IsForeign(a) && !a.NewWorker? && a.w == w
  }

  predicate Enabled(s: State, a: Action) {
    match a
    case NewWorker => true
    case Create(_, _, _) => s.api.store.None?
    case Delete => s.api.store.Some?
    case Edit(fs, _, _) =>
      s.api.store.Some? && (s.api.store.value.deleted ==> forall f :: f in fs ==> f in s.api.store.value.finalizers)
    case _ =>
      a.w < |s.workers| &&
      var pc := s.workers[a.w];
      match a
      case Restart(_) => pc.Finished?
      case FirstGet(_, cached) => pc.Idle? && cached < |s.api.past|
      case GetFails(_) => pc.Idle? || pc.GettingForRunning? || pc.Refetching?
                             || pc.GettingForDone? || pc.GettingForError?
      case UpdateFails(_) => IsWriting(pc)
      case AnswerLost(_) => IsWriting(pc)
      case WriteFinalizer(_) => pc.AddingFinalizer?
      case GetForRunning(_, _) => pc.GettingForRunning?
      case WriteRunning(_) => pc.UpdatingRunning?
      case StartFails(_) => pc.Starting?
      case Start(_) => pc.Starting?
      case EventsEnd(_, _, _, _) => pc.Executing?
      case Refetch(_) => pc.Refetching?
      case WriteRemoval(_) => pc.Removing?
      case GetForDone(_, _) => pc.GettingForDone?
      case WriteDone(_) => pc.UpdatingDone?
      case GetForError(_, _) => pc.GettingForError?
      case WriteError(_) => pc.UpdatingError?
      case _ => false
  }

  /** A step of a worker: the API server after it and where the worker goes. */
  datatype Moved = Moved(api: Api, pc: Pc)

  /** Where a failed call leads. */
  function AfterFailure(pc: Pc): Pc {
    match pc
    case Idle => Finished(Answer(0, true))
    case Refetching(_, _, _) => Finished(Answer(0, true))
    case AddingFinalizer(ctx) => Finished(Answer(ctx.requeue, true))
    case GettingForRunning(ctx) => Finished(Answer(ctx.requeue, true))
    case UpdatingRunning(ctx, _, _) => Finished(Answer(ctx.requeue, true))
    case Removing(ctx, _, _, _) => Finished(Answer(ctx.requeue, true))
    case GettingForDone(ctx, _, _) => Finished(Answer(ctx.requeue, true))
    case UpdatingDone(ctx, _, _, _) => Finished(Answer(ctx.requeue, true))
    case GettingForError(answer, _) => Finished(answer)
    case UpdatingError(answer, _, _) => Finished(answer)
    case _ => pc
  }

  /** The write a worker is about to make, if the API server accepts it. */
  function Attempt(cfg: Config, api: Api, pc: Pc): Option<Api> {
    match pc
    case AddingFinalizer(ctx) => Update(api, ctx.first, AddFinalizer(ctx.first.finalizers, Name(cfg)))
    case Removing(_, _, _, base) => Update(api, base, RemoveFinalizer(base.finalizers, Name(cfg)))
    case UpdatingRunning(_, base, conditions) => UpdateStatus(api, base, conditions)
    case UpdatingDone(_, _, base, conditions) => UpdateStatus(api, base, conditions)
    case UpdatingError(_, base, conditions) => UpdateStatus(api, base, conditions)
    case _ => None
  }

  /** A read of the stored object. */
  predicate IsRead(a: Action, pc: Pc) {
    (a.GetForRunning? && pc.GettingForRunning?) || (a.GetForDone? && pc.GettingForDone?)
    || (a.GetForError? && pc.GettingForError?) || (a.Refetch? && pc.Refetching?)
  }

  /** Where it leads. */
  function AfterRead(cfg: Config, pc: Pc, a: Action, read: Option<Obj>): Pc
    requires IsRead(a, pc)
  {
    match a
    case GetForRunning(_, now) =>
      if read.None? then AfterFailure(pc)
      else UpdatingRunning(pc.ctx, read.value, Conditions.Apply(read.value.conditions, Conditions.MarkRunning, now))
    case GetForDone(_, now) =>
      if read.None? then Finished(Answer(pc.ctx.requeue, RunFailed(pc.ran)))
      else UpdatingDone(pc.ctx, pc.ran, read.value,
                        Conditions.Apply(read.value.conditions,
                            Conditions.MarkDone(pc.result, Failures(pc.ran.events)), now))
    case GetForError(_, now) =>
      if read.None? then Finished(pc.answer)
      else UpdatingError(pc.answer, read.value,
          Conditions.Apply(read.value.conditions, Conditions.MarkError(pc.message), now))
    case Refetch(_) =>
      if read.None? then Finished(Answer(0, false)) else AfterRefetch(cfg, pc.ctx, pc.ran, pc.result, read.value)
  }

  /** The step is the write the worker is at. */
  predicate Writes(a: Action, pc: Pc) {
    match pc
    case AddingFinalizer(_) => a.WriteFinalizer? || a.AnswerLost?
    case UpdatingRunning(_, _, _) => a.WriteRunning? || a.AnswerLost?
    case Removing(_, _, _, _) => a.WriteRemoval? || a.AnswerLost?
    case UpdatingDone(_, _, _, _) => a.WriteDone? || a.AnswerLost?
    case UpdatingError(_, _, _) => a.WriteError? || a.AnswerLost?
    case _ => false
  }

  /** What a write is based on. */
  function Base(pc: Pc): Obj
    requires IsWriting(pc)
  {
    if pc.AddingFinalizer? then pc.ctx.first else pc.base
  }

  /** Where an answered write leads. */
  function AfterWrite(cfg: Config, pc: Pc, updated: Obj): Pc {
    match pc
    case AddingFinalizer(ctx) => AfterFinalizer(cfg, ctx, updated)
    case UpdatingRunning(ctx, _, _) => Starting(ctx, updated)
    case Removing(ctx, ran, result, _) => AfterRemoval(cfg, ctx, ran, result)
    case UpdatingDone(ctx, ran, _, _) => Finished(Answer(ctx.requeue, RunFailed(ran)))
    case UpdatingError(answer, _, _) => Finished(answer)
    case _ => pc
  }

  /** A write: a conflict is a failed call, and the answer can be lost. */
  function Written(cfg: Config, api: Api, pc: Pc, answered: bool): Moved
    requires IsWriting(pc)
  {
    match Attempt(cfg, api, pc)
    case None => Moved(api, AfterFailure(pc))
    case Some(after) =>
      Moved(after, if answered then AfterWrite(cfg, pc, after.store.GetOr(Base(pc))) else AfterFailure(pc))
  }

  function WorkerStep(cfg: Config, api: Api, pc: Pc, a: Action): Moved {
    if IsRead(a, pc) then Moved(api, AfterRead(cfg, pc, a, api.store))
    else if Writes(a, pc) then Written(cfg, api, pc, !a.AnswerLost?)
    else
      match (a, pc)
      case (Restart(_), _) => Moved(api, Idle)
      case (FirstGet(_, cached), _) =>
        if cached < |api.past| && api.past[cached].Some? then Moved(api, AfterFirstGet(cfg, api.past[cached].value))
        else Moved(api, Finished(Answer(0, false)))
      case (GetFails(_), _) => Moved(api, AfterFailure(pc))
      case (UpdateFails(_), _) => Moved(api, AfterFailure(pc))
      case (StartFails(_), Starting(ctx, _)) =>
        Moved(api, GettingForError(Answer(ctx.requeue, true), "Unable to run reconciliation"))
      case (Start(_), Starting(ctx, o)) => Moved(api, AfterStart(cfg, ctx, o))
      case (EventsEnd(_, events, result, stdoutRead), Executing(ctx, o, command)) =>
        Moved(api, AfterEvents(ctx, Ran(o, command, events), result, stdoutRead))
      case _ => Moved(api, pc)
  }

  /** Users and other controllers: deleting an object with finalizers only marks it. */
  function ForeignStep(api: Api, a: Action): Api
    requires IsForeign(a) && (a.Create? || api.store.Some?)
  {
    match a
    case Create(fs, period, conditions) =>
      Put(api.(nextUid := api.nextUid + 1), Some(Obj(api.nextUid, 0, false, fs, period, conditions)))
    case Delete =>
      var o := api.store.value;
      Put(api, if o.finalizers == [] then None else Some(o.(deleted := true)))
    case Edit(fs, period, conditions) =>
      var o := api.store.value;
      Put(api,
          if o.deleted && fs == [] then None
          else Some(o.(finalizers := fs, period := period, conditions := conditions)))
  }

  predicate Guards(cfg: Config, store: Option<Obj>, uid: nat) {
    store.Some? && store.value.uid == uid && Name(cfg) in store.value.finalizers
  }

  function GuardedBy(cfg: Config, store: Option<Obj>): set<nat> {
    if store.Some? && Name(cfg) in store.value.finalizers then {store.value.uid} else {}
  }

  /** The objects that lose the finalizer in a step. */
  function Lost(cfg: Config, before: Option<Obj>, after: Option<Obj>): set<nat> {
    GuardedBy(cfg, before) - GuardedBy(cfg, after)
  }

  function Recorded(cfg: Config, h: History, before: Option<Obj>, after: Option<Obj>, a: Action, pc: Pc): History {
    var seen := h.(guarded := h.guarded + GuardedBy(cfg, after));
    if Lost(cfg, before, after) == {} then seen
    else if IsForeign(a) then seen.(tampered := h.tampered + Lost(cfg, before, after))
    else if pc.Removing? && !a.NewWorker? then
      seen.(removals := h.removals + [Removal(a.w, before.value.uid, pc.ctx.first, pc.ran)])
    else seen
  }

  function Step(cfg: Config, s: State, a: Action): State
    requires Enabled(s, a)
  {
    if a.NewWorker? then s.(workers := s.workers + [Idle])
    else if IsForeign(a) then
      var api := ForeignStep(s.api, a);
      s.(api := api, history := Recorded(cfg, s.history, s.api.store, api.store, a, Idle))
    else
      var moved := WorkerStep(cfg, s.api, s.workers[a.w], a);
      State(moved.api, s.workers[a.w := moved.pc],
          Recorded(cfg, s.history, s.api.store, moved.api.store, a, s.workers[a.w]))
  }

  predicate CanRun(cfg: Config, s: State, actions: seq<Action>)
    decreases |actions|
  {
    actions == [] || (Enabled(s, actions[0]) && CanRun(cfg, Step(cfg, s, actions[0]), actions[1..]))
  }

  function Run(cfg: Config, s: State, actions: seq<Action>): State
    requires CanRun(cfg, s, actions)
    decreases |actions|
  {
    if actions == [] then s else Run(cfg, Step(cfg, s, actions[0]), actions[1..])
  }
}
