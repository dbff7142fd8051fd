/**
 * The event receiver: any number of request handlers, one closer, a
 * reader-writer lock, a stopped flag, a bounded channel and its consumer. Every
 * atomic step of a thread is an action; a run is any sequence of enabled ones.
 */
module EventReceiver {
  import opened Common

  const CAPACITY := 1000

  const NO_CONTENT := 204
  const GONE := 410
  const SERVER_ERROR := 500

  /** The answers given before the lock is asked for. */
  const EARLY_ANSWERS := {400, 404, 405, 415, 500}

  datatype Event = Event(uuid: string, payload: nat)

  /** Where a handler is. */
  datatype Phase =
    | Arrived              // before the read lock
    | Locked               // holds the read lock, has not looked at the flag
    | Sending              // saw the flag unset, waits to send or time out
    | Refusing             // saw the flag set, before the explicit release
    | Refused              // answered 410, before the deferred release
    | Answered(code: nat)  // answered otherwise, before the deferred release
    | Done(answer: nat)

  datatype Handler = Handler(event: Event, phase: Phase)

  /** Where Close is. */
  datatype Closer = Open | Waiting | Holding | Stopping | Unlocked | ServerClosed | ChannelClosed

  /** An event with the handler that sent it. */
  datatype Sent = Sent(handler: nat, event: Event)

  datatype Lock = Lock(closer: Closer, readers: nat, stopped: bool, closed: bool)

  /** The channel: what is buffered, what the consumer received and what was ever
      accepted; whether the consumer's loop ended, or was left early. */
  datatype Channel = Channel(buffer: seq<Sent>, consumed: seq<Sent>, accepted: seq<Sent>, finished: bool,
      abandoned: bool)

  /** A send on a closed channel panics; releasing a lock nobody holds crashes. */
  datatype Fate = Running | Panicked | Crashed

  datatype State = State(handlers: seq<Handler>, lock: Lock, channel: Channel, fate: Fate)

  const INITIAL := State([], Lock(Open, 0, false, false), Channel([], [], [], false, false), Running)

  datatype Action =
    | Arrive(event: Event)
    | AnswerEarly(h: nat, code: nat)
    | ReadLock(h: nat)
    | CheckStopped(h: nat)
    | Send(h: nat)
    | Timeout(h: nat)
    | ReleaseExplicitly(h: nat)
    | ReleaseDeferred(h: nat)
    | AskLock | TakeLock | SetStopped | Unlock | CloseServer | CloseChannel
    | Receive | EndOfEvents | Abandon

  predicate At(s: State, h: nat, p: Phase) {
    h < |s.handlers| && s.handlers[h].phase == p
  }

  /** A writer that waits or holds keeps new readers out. */
  predicate Enabled(s: State, a: Action) {
    s.fate.Running? &&
    match a
    case Arrive(_) => true
    case AnswerEarly(h, code) => At(s, h, Arrived) && code in EARLY_ANSWERS
    case ReadLock(h) => At(s, h, Arrived) && !s.lock.closer.Waiting? && !s.lock.closer.Holding?
        && !s.lock.closer.Stopping?
    case CheckStopped(h) => At(s, h, Locked)
    case Send(h) => At(s, h, Sending) && (s.lock.closed || |s.channel.buffer| < CAPACITY)
    case Timeout(h) => At(s, h, Sending)
    case ReleaseExplicitly(h) => At(s, h, Refusing)
    case ReleaseDeferred(h) => h < |s.handlers| && (s.handlers[h].phase.Refused? || s.handlers[h].phase.Answered?)
    case AskLock => s.lock.closer.Open?
    case TakeLock => s.lock.closer.Waiting? && s.lock.readers == 0
    case SetStopped => s.lock.closer.Holding?
    case Unlock => s.lock.closer.Stopping?
    case CloseServer => s.lock.closer.Unlocked?
    case CloseChannel => s.lock.closer.ServerClosed?
    case Receive => s.channel.buffer != [] && !s.channel.finished && !s.channel.abandoned
    case EndOfEvents => s.lock.closed && s.channel.buffer == [] && !s.channel.abandoned
    case Abandon => !s.channel.finished
  }

  function Move(hs: seq<Handler>, h: nat, p: Phase): seq<Handler>
    requires h < |hs|
  {
    hs[h := hs[h].(phase := p)]
  }

  /** Moving on while releasing the read lock, which nobody may be holding. */
  function Release(s: State, h: nat, p: Phase): State
    requires h < |s.handlers|
  {
    if s.lock.readers == 0 then s.(handlers := Move(s.handlers, h, p), fate := Crashed)
    else s.(handlers := Move(s.handlers, h, p), lock := s.lock.(readers := s.lock.readers - 1))
  }

  /** What the look at the flag leads to. */
  function Checked(h: Handler, stopped: bool): Phase {
    if stopped then Refusing else if h.event.uuid == "" then Answered(NO_CONTENT) else Sending
  }

  /** The answer that is complete when the lock is released. */
  function Final(p: Phase): Phase
    requires p.Refused? || p.Answered?
  {
    Done(if p.Refused? then GONE else p.code)
  }

  function Accept(c: Channel, sent: Sent): Channel {
    c.(buffer := c.buffer + [sent], accepted := c.accepted + [sent])
  }

  function Apply(s: State, a: Action): State
    requires Enabled(s, a)
  {
    match a
    case Arrive(event) => s.(handlers := s.handlers + [Handler(event, Arrived)])
    case AnswerEarly(h, code) => s.(handlers := Move(s.handlers, h, Done(code)))
    case ReadLock(h) => s.(handlers := Move(s.handlers, h, Locked), lock := s.lock.(readers := s.lock.readers + 1))
    case CheckStopped(h) => s.(handlers := Move(s.handlers, h, Checked(s.handlers[h], s.lock.stopped)))
    case Send(h) =>
      if s.lock.closed then s.(fate := Panicked)
      else s.(handlers := Move(s.handlers, h, Answered(NO_CONTENT)),
              channel := Accept(s.channel, Sent(h, s.handlers[h].event)))
    case Timeout(h) => s.(handlers := Move(s.handlers, h, Answered(SERVER_ERROR)))
    case ReleaseExplicitly(h) => Release(s, h, Refused)
    case ReleaseDeferred(h) => Release(s, h, Final(s.handlers[h].phase))
    case AskLock => s.(lock := s.lock.(closer := Waiting))
    case TakeLock => s.(lock := s.lock.(closer := Holding))
    case SetStopped => s.(lock := s.lock.(closer := Stopping, stopped := true))
    case Unlock => s.(lock := s.lock.(closer := Unlocked))
    case CloseServer => s.(lock := s.lock.(closer := ServerClosed))
    case CloseChannel => s.(lock := s.lock.(closer := ChannelClosed, closed := true))
    case Receive => s.(channel :=
        s.channel.(buffer := s.channel.buffer[1..], consumed := s.channel.consumed + [s.channel.buffer[0]]))
    case EndOfEvents => s.(channel := s.channel.(finished := true))
    case Abandon => s.(channel := s.channel.(abandoned := true))
  }

  predicate CanRun(s: State, actions: seq<Action>)
    decreases |actions|
  {
    actions == [] || (Enabled(s, actions[0]) && CanRun(Apply(s, actions[0]), actions[1..]))
  }

  function Run(s: State, actions: seq<Action>): State
    requires CanRun(s, actions)
    decreases |actions|
  {
    if actions == [] then s else Run(Apply(s, actions[0]), actions[1..])
  }

  // ----- the invariant

  /** The handler holds the read lock, as long as nothing is stopped. */
  predicate Inside(p: Phase) {
    p.Locked? || p.Sending? || p.Answered?
  }

  function Weight(p: Phase): nat {
    if Inside(p) then 1 else 0
  }

  function CountInside(hs: seq<Handler>): nat {
    if hs == [] then 0 else Weight(hs[0].phase) + CountInside(hs[1..])
  }

  /** The handler's event is in the channel's history. */
  predicate HasSent(h: Handler) {
    h.event.uuid != "" && (h.phase == Answered(NO_CONTENT) || h.phase == Done(NO_CONTENT))
  }

  /** Lock and flag: before the stop the lock counts the handlers inside, and
      from the stop on nobody is waiting to send. */
  predicate LockInv(hs: seq<Handler>, lock: Lock) {
    && (lock.stopped <==> lock.closer.Stopping? || lock.closer.Unlocked? || lock.closer.ServerClosed?
                          || lock.closer.ChannelClosed?)
    && (lock.closed <==> lock.closer.ChannelClosed?)
    && (!lock.stopped ==> lock.readers == CountInside(hs))
    && (lock.closer.Holding? ==> lock.readers == 0)
    && (forall h :: 0 <= h < |hs| ==> PhaseFits(hs[h].phase, lock.stopped))
  }

  /** The phases possible before and after the stop. */
  predicate PhaseFits(p: Phase, stopped: bool) {
    && (stopped ==> !p.Sending?)
    && (!stopped ==> !p.Refusing? && !p.Refused? && p != Done(GONE))
    && (p.Answered? ==> p.code == NO_CONTENT || p.code == SERVER_ERROR)
  }

  /** The channel's history: in order, within capacity, each handler at most
      once, and exactly the handlers that answered 204 to a job event. */
  predicate ChannelInv(hs: seq<Handler>, c: Channel) {
    && c.accepted == c.consumed + c.buffer
    && |c.buffer| <= CAPACITY
    && (forall i :: 0 <= i < |c.accepted| ==> SentBy(hs, c.accepted[i]))
    && (forall i, j :: 0 <= i < j < |c.accepted| ==> c.accepted[i].handler != c.accepted[j].handler)
    && (forall h :: 0 <= h < |hs| && HasSent(hs[h]) ==> Sent(h, hs[h].event) in c.accepted)
  }

  predicate SentBy(hs: seq<Handler>, sent: Sent) {
    sent.handler < |hs| && HasSent(hs[sent.handler]) && hs[sent.handler].event == sent.event
  }

  predicate Inv(s: State) {
    && LockInv(s.handlers, s.lock)
    && ChannelInv(s.handlers, s.channel)
    && !s.fate.Panicked?
    && (s.fate.Crashed? ==> s.lock.stopped)
    && (s.channel.finished ==> s.lock.closed && s.channel.buffer == [])
  }

  lemma {:induction false} CountUpdate(hs: seq<Handler>, i: nat, h: Handler)
    requires i < |hs|
    ensures CountInside(hs[i := h]) ==
        CountInside(hs) - Weight(hs[i].phase) + Weight(h.phase)
    ensures Inside(hs[i].phase) ==> CountInside(hs) > 0
  {
    if i > 0 {
      assert hs[i := h][1..] == hs[1..][i - 1 := h];
      CountUpdate(hs[1..], i - 1, h);
    } else {
      assert hs[i := h][1..] == hs[1..];
    }
  }

  lemma {:induction false} CountAppend(hs: seq<Handler>, h: Handler)
    requires !Inside(h.phase)
    ensures CountInside(hs + [h]) == CountInside(hs)
  {
    if hs != [] {
      assert (hs + [h])[1..] == hs[1..] + [h];
      CountAppend(hs[1..], h);
    } else {
      assert hs + [h] == [h];
    }
  }

  /** A handler's move, with the lock count it leaves behind. */
  lemma MoveKeepsLock(hs: seq<Handler>, lock: Lock, h: nat, p: Phase, readers: nat)
    requires LockInv(hs, lock) && h < |hs| && PhaseFits(p, lock.stopped)
    requires !lock.stopped ==> readers == lock.readers + Weight(p) - Weight(hs[h].phase)
    requires lock.closer.Holding? ==> !Inside(p)
    ensures LockInv(Move(hs, h, p), lock.(readers := readers))
  {
    CountUpdate(hs, h, hs[h].(phase := p));
    if lock.closer.Holding? { NobodyInside(hs, lock); }
  }

  /** Close holds the lock only when no handler is inside. */
  lemma NobodyInside(hs: seq<Handler>, lock: Lock)
    requires LockInv(hs, lock) && lock.closer.Holding?
    ensures forall h :: 0 <= h < |hs| ==> !Inside(hs[h].phase)
  {
    forall h | 0 <= h < |hs| ensures !Inside(hs[h].phase) { CountUpdate(hs, h, hs[h]); }
  }

  lemma HandlerStepKeepsLock(s: State, a: Action)
    requires Inv(s) && Enabled(s, a) && (a.AnswerEarly? || a.ReadLock? || a.CheckStopped? || a.Send? || a.Timeout?)
    ensures LockInv(Apply(s, a).handlers, Apply(s, a).lock) && Apply(s, a).fate.Running?
  {
    var hs, lock := s.handlers, s.lock;
    assert PhaseFits(hs[a.h].phase, lock.stopped);
    if lock.closer.Holding? { NobodyInside(hs, lock); }
    match a
    case AnswerEarly(h, code) => MoveKeepsLock(hs, lock, h, Done(code), lock.readers);
    case ReadLock(h) => MoveKeepsLock(hs, lock, h, Locked, lock.readers + 1);
    case CheckStopped(h) => MoveKeepsLock(hs, lock, h, Checked(hs[h], lock.stopped), lock.readers);
    case Send(h) => MoveKeepsLock(hs, lock, h, Answered(NO_CONTENT), lock.readers);
    case Timeout(h) => MoveKeepsLock(hs, lock, h, Answered(SERVER_ERROR), lock.readers);
  }

  lemma ReleaseKeepsLock(s: State, h: nat, p: Phase)
    requires Inv(s) && h < |s.handlers| && PhaseFits(p, s.lock.stopped) && !Inside(p)
    requires Inside(s.handlers[h].phase) || s.lock.stopped
    ensures var t := Release(s, h, p);
            LockInv(t.handlers, t.lock) && !t.fate.Panicked? && (t.fate.Crashed? ==> t.lock.stopped)
  {
    CountUpdate(s.handlers, h, s.handlers[h]);
    MoveKeepsLock(s.handlers, s.lock, h, p, if s.lock.readers == 0 then 0 else s.lock.readers - 1);
  }

  /** A move that neither makes nor unmakes a handler one that has sent. */
  lemma MoveKeepsChannel(hs: seq<Handler>, c: Channel, h: nat, p: Phase)
    requires ChannelInv(hs, c) && h < |hs|
    requires HasSent(hs[h]) <==> HasSent(hs[h].(phase := p))
    ensures ChannelInv(Move(hs, h, p), c)
  {
    var ks := Move(hs, h, p);
    forall i | 0 <= i < |c.accepted| ensures SentBy(ks, c.accepted[i]) { assert SentBy(hs, c.accepted[i]); }
    forall k | 0 <= k < |ks| && HasSent(ks[k]) ensures Sent(k, ks[k].event) in c.accepted { assert HasSent(hs[k]); }
  }

  lemma SendKeepsChannel(hs: seq<Handler>, c: Channel, h: nat)
    requires ChannelInv(hs, c) && h < |hs| && hs[h].phase.Sending? && hs[h].event.uuid != "" && |c.buffer| < CAPACITY
    ensures ChannelInv(Move(hs, h, Answered(NO_CONTENT)), Accept(c, Sent(h, hs[h].event)))
  {
    var ks, sent := Move(hs, h, Answered(NO_CONTENT)), Sent(h, hs[h].event);
    var d := Accept(c, sent);
    forall i | 0 <= i < |c.accepted| ensures c.accepted[i].handler != h && SentBy(ks, c.accepted[i]) {
      assert SentBy(hs, c.accepted[i]);
    }
    assert SentBy(ks, sent);
    forall k | 0 <= k < |ks| && HasSent(ks[k]) ensures Sent(k, ks[k].event) in d.accepted {
      if k == h { assert d.accepted[|c.accepted|] == sent; } else { assert HasSent(hs[k]); }
    }
    Reassociate(c.consumed, c.buffer, [sent]);
  }

  /** Only handlers with a job event wait to send. */
  predicate SendersHaveEvents(hs: seq<Handler>) {
    forall h :: 0 <= h < |hs| && hs[h].phase.Sending? ==> hs[h].event.uuid != ""
  }

  lemma HandlerStepKeepsChannel(s: State, a: Action)
    requires Inv(s) && SendersHaveEvents(s.handlers) && Enabled(s, a)
    requires a.AnswerEarly? || a.ReadLock? || a.CheckStopped? || a.Send? || a.Timeout?
    ensures ChannelInv(Apply(s, a).handlers, Apply(s, a).channel) && SendersHaveEvents(Apply(s, a).handlers)
  {
    var hs, c := s.handlers, s.channel;
    assert PhaseFits(hs[a.h].phase, s.lock.stopped);
    match a
    case AnswerEarly(h, code) => MoveKeepsChannel(hs, c, h, Done(code));
    case ReadLock(h) => MoveKeepsChannel(hs, c, h, Locked);
    case CheckStopped(h) => MoveKeepsChannel(hs, c, h, Checked(hs[h], s.lock.stopped));
    case Send(h) => SendKeepsChannel(hs, c, h);
    case Timeout(h) => MoveKeepsChannel(hs, c, h, Answered(SERVER_ERROR));
  }

  predicate Safe(s: State) {
    Inv(s) && SendersHaveEvents(s.handlers)
  }

  lemma ReleaseKeeps(s: State, h: nat, p: Phase)
    requires Safe(s) && h < |s.handlers| && s.fate.Running? && PhaseFits(p, s.lock.stopped) && !Inside(p)
    requires Inside(s.handlers[h].phase) || s.lock.stopped
    requires HasSent(s.handlers[h]) <==> HasSent(s.handlers[h].(phase := p))
    ensures Safe(Release(s, h, p))
  {
    ReleaseKeepsLock(s, h, p);
    MoveKeepsChannel(s.handlers, s.channel, h, p);
  }

  lemma ArriveKeeps(s: State, event: Event)
    requires Safe(s) && Enabled(s, Arrive(event))
    ensures Safe(Apply(s, Arrive(event)))
  {
    var hs, ks := s.handlers, s.handlers + [Handler(event, Arrived)];
    CountAppend(hs, Handler(event, Arrived));
    forall i | 0 <= i < |s.channel.accepted|
        ensures SentBy(ks, s.channel.accepted[i]) { assert SentBy(hs, s.channel.accepted[i]); }
    forall k | 0 <= k < |ks| && HasSent(ks[k])
        ensures Sent(k, ks[k].event) in s.channel.accepted { assert HasSent(hs[k]); }
  }

  /** Every step keeps the invariant. */
  lemma StepKeeps(s: State, a: Action)
    requires Safe(s) && Enabled(s, a)
    ensures Safe(Apply(s, a))
  {
    match a
    case Arrive(event) => ArriveKeeps(s, event);
    case ReleaseExplicitly(h) =>
      assert PhaseFits(s.handlers[h].phase, s.lock.stopped);
      ReleaseKeeps(s, h, Refused);
    case ReleaseDeferred(h) =>
      assert PhaseFits(s.handlers[h].phase, s.lock.stopped);
      ReleaseKeeps(s, h, Final(s.handlers[h].phase));
    case SetStopped => NobodyInside(s.handlers, s.lock);
    case Receive => assert s.channel.buffer == [s.channel.buffer[0]] + s.channel.buffer[1..];
    case AnswerEarly(_, _) => HandlerStepKeepsLock(s, a); HandlerStepKeepsChannel(s, a);
    case ReadLock(_) => HandlerStepKeepsLock(s, a); HandlerStepKeepsChannel(s, a);
    case CheckStopped(_) => HandlerStepKeepsLock(s, a); HandlerStepKeepsChannel(s, a);
    case Send(_) => HandlerStepKeepsLock(s, a); HandlerStepKeepsChannel(s, a);
    case Timeout(_) => HandlerStepKeepsLock(s, a); HandlerStepKeepsChannel(s, a);
    case _ =>
  }

  lemma {:induction false} RunKeeps(s: State, actions: seq<Action>)
    requires Safe(s) && CanRun(s, actions)
    ensures Safe(Run(s, actions))
    decreases |actions|
  {
    if actions != [] {
      StepKeeps(s, actions[0]);
      RunKeeps(Apply(s, actions[0]), actions[1..]);
    }
  }

  // ----- the results, for every run

  /** No run sends on the closed channel: nothing panics, and once the channel is
      closed (or only stopped) no handler is past the check and still to send. */
  lemma NoSendOnClosed(actions: seq<Action>)
    requires CanRun(INITIAL, actions)
    ensures var s := Run(INITIAL, actions);
            && !s.fate.Panicked?
            && (s.lock.closed ==> s.lock.stopped)
            && (s.lock.stopped ==> forall h :: 0 <= h < |s.handlers| ==> !s.handlers[h].phase.Sending?)
  {
    RunKeeps(INITIAL, actions);
    SafeNeverSends(Run(INITIAL, actions));
  }

  lemma SafeNeverSends(s: State)
    requires Safe(s)
    ensures !s.fate.Panicked? && (s.lock.closed ==> s.lock.stopped)
    ensures s.lock.stopped ==> forall h :: 0 <= h < |s.handlers| ==> !s.handlers[h].phase.Sending?
  {
    assert forall h :: 0 <= h < |s.handlers| ==> PhaseFits(s.handlers[h].phase, s.lock.stopped);
  }

  /** Before the stop the lock is balanced: it is never released by someone who
      does not hold it. */
  lemma BalancedUntilStopped(actions: seq<Action>)
    requires CanRun(INITIAL, actions) && !Run(INITIAL, actions).lock.stopped
    ensures var s := Run(INITIAL, actions); s.fate.Running? && s.lock.readers == CountInside(s.handlers)
  {
    RunKeeps(INITIAL, actions);
  }

  /** After it the branch for stopped receivers releases twice: a handler that
      looks at the flag alone ends in releasing a lock nobody holds. */
  lemma SecondReleaseAfterStop(s: State, h: nat)
    requires Enabled(s, CheckStopped(h)) && s.lock.stopped && s.lock.readers == 1
    ensures var actions := [CheckStopped(h), ReleaseExplicitly(h), ReleaseDeferred(h)];
            CanRun(s, actions) && Run(s, actions).fate.Crashed?
  {
    var s1 := Apply(s, CheckStopped(h));
    var s2 := Apply(s1, ReleaseExplicitly(h));
    var s3 := Apply(s2, ReleaseDeferred(h));
    RunsTo(s2, [ReleaseDeferred(h)], s3);
    RunsTo(s1, [ReleaseExplicitly(h), ReleaseDeferred(h)], s3);
    RunsTo(s, [CheckStopped(h), ReleaseExplicitly(h), ReleaseDeferred(h)], s3);
  }

  lemma RunsTo(s: State, actions: seq<Action>, t: State)
    requires actions != [] && Enabled(s, actions[0]) && CanRun(Apply(s, actions[0]), actions[1..])
    requires Run(Apply(s, actions[0]), actions[1..]) == t
    ensures CanRun(s, actions) && Run(s, actions) == t
  {
  }

  // ----- exactly when the lock is released too often

  /** What a handler adds to the lock's count once the receiver is stopped: one
      that was refused has released it twice. */
  function Share(p: Phase): int {
    if p.Locked? || p.Refusing? then 1 else if p == Done(GONE) then -1 else 0
  }

  function Balance(hs: seq<Handler>): int {
    if hs == [] then 0 else Share(hs[0].phase) + Balance(hs[1..])
  }

  predicate WasRefused(h: Handler) {
    h.phase.Refused? || h.phase == Done(GONE)
  }

  /** From the stop on: no handler answers any more, the lock's count is the
      balance until the crash, and a crash comes from a refusal. */
  predicate Balanced(s: State) {
    s.lock.stopped ==>
      && (forall h :: 0 <= h < |s.handlers| ==> !s.handlers[h].phase.Sending? && !s.handlers[h].phase.Answered?)
      && (s.fate.Running? ==> s.lock.readers == Balance(s.handlers))
      && (s.fate.Crashed? ==> exists h :: 0 <= h < |s.handlers| && WasRefused(s.handlers[h]))
  }

  lemma {:induction false} BalanceUpdate(hs: seq<Handler>, i: nat, h: Handler)
    requires i < |hs|
    ensures Balance(hs[i := h]) == Balance(hs) - Share(hs[i].phase) + Share(h.phase)
  {
    if i > 0 {
      assert hs[i := h][1..] == hs[1..][i - 1 := h];
      BalanceUpdate(hs[1..], i - 1, h);
    } else {
      assert hs[i := h][1..] == hs[1..];
    }
  }

  lemma {:induction false} BalanceAppend(hs: seq<Handler>, h: Handler)
    ensures Balance(hs + [h]) == Balance(hs) + Share(h.phase)
  {
    if hs != [] {
      assert (hs + [h])[1..] == hs[1..] + [h];
      BalanceAppend(hs[1..], h);
    } else {
      assert hs + [h] == [h];
    }
  }

  lemma {:induction false} BalanceOfOutsiders(hs: seq<Handler>)
    requires forall h :: 0 <= h < |hs| ==> Share(hs[h].phase) == 0
    ensures Balance(hs) == 0
  {
    if hs != [] { BalanceOfOutsiders(hs[1..]); }
  }

  /** With nobody at work the balance counts the refusals. */
  lemma {:induction false} BalanceOfSettled(hs: seq<Handler>)
    requires forall h :: 0 <= h < |hs| ==> hs[h].phase.Arrived? || hs[h].phase.Done?
    ensures Balance(hs) <= 0
    ensures Balance(hs) == 0 <==> forall h :: 0 <= h < |hs| ==> hs[h].phase != Done(GONE)
  {
    if hs != [] {
      BalanceOfSettled(hs[1..]);
      assert forall h :: 0 < h < |hs| ==> hs[h] == hs[1..][h - 1];
      assert forall h :: 0 <= h < |hs| - 1 ==> hs[1..][h] == hs[h + 1];
    }
  }

  /** A handler's move after the stop, other than a release. */
  lemma MoveBalances(s: State, h: nat, p: Phase, readers: nat)
    requires s.lock.stopped && s.fate.Running? && Balanced(s) && h < |s.handlers| && !p.Sending? && !p.Answered?
    requires readers == s.lock.readers - Share(s.handlers[h].phase) + Share(p)
    ensures Balanced(s.(handlers := Move(s.handlers, h, p), lock := s.lock.(readers := readers)))
  {
    BalanceUpdate(s.handlers, h, s.handlers[h].(phase := p));
  }

  lemma ReleaseBalances(s: State, h: nat, p: Phase)
    requires s.lock.stopped && s.fate.Running? && Balanced(s) && h < |s.handlers|
    requires p.Refused? || p == Done(GONE)
    requires Share(p) == Share(s.handlers[h].phase) - 1
    ensures Balanced(Release(s, h, p))
  {
    if s.lock.readers == 0 {
      var hs := Move(s.handlers, h, p);
      assert WasRefused(hs[h]);
    } else {
      MoveBalances(s, h, p, s.lock.readers - 1);
    }
  }

  lemma HandlerBalances(s: State, a: Action)
    requires Safe(s) && Balanced(s) && Enabled(s, a) && s.lock.stopped
    requires !a.Arrive?
    ensures Balanced(Apply(s, a))
  {
    match a
    case AnswerEarly(h, code) => MoveBalances(s, h, Done(code), s.lock.readers);
    case ReadLock(h) => MoveBalances(s, h, Locked, s.lock.readers + 1);
    case CheckStopped(h) => MoveBalances(s, h, Refusing, s.lock.readers);
    case ReleaseExplicitly(h) => ReleaseBalances(s, h, Refused);
    case ReleaseDeferred(h) => ReleaseBalances(s, h, Done(GONE));
    case _ =>
  }

  lemma StepBalances(s: State, a: Action)
    requires Safe(s) && Balanced(s) && Enabled(s, a)
    ensures Balanced(Apply(s, a))
  {
    if a.SetStopped? {
      NobodyInside(s.handlers, s.lock);
      assert forall h :: 0 <= h < |s.handlers| ==> PhaseFits(s.handlers[h].phase, false);
      BalanceOfOutsiders(s.handlers);
    } else if s.lock.stopped {
      if a.Arrive? {
        BalanceAppend(s.handlers, Handler(a.event, Arrived));
      } else {
        HandlerBalances(s, a);
      }
    }
  }

  lemma {:induction false} RunBalances(s: State, actions: seq<Action>)
    requires Safe(s) && Balanced(s) && CanRun(s, actions)
    ensures Balanced(Run(s, actions))
    decreases |actions|
  {
    if actions != [] {
      StepKeeps(s, actions[0]);
      StepBalances(s, actions[0]);
      RunBalances(Apply(s, actions[0]), actions[1..]);
    }
  }

  predicate AtRest(s: State) {
    forall h :: 0 <= h < |s.handlers| ==> s.handlers[h].phase.Arrived? || s.handlers[h].phase.Done?
  }

  predicate NobodyRefused(s: State) {
    forall h :: 0 <= h < |s.handlers| ==> s.handlers[h].phase != Done(GONE)
  }

  lemma RunsExactlyUnrefused(s: State)
    requires Safe(s) && Balanced(s) && AtRest(s)
    ensures s.fate.Running? <==> NobodyRefused(s)
  {
    BalanceOfSettled(s.handlers);
    assert forall h :: 0 <= h < |s.handlers| ==> PhaseFits(s.handlers[h].phase, s.lock.stopped);
  }

  /** Whenever no handler is at work: the lock has been released unheld exactly if
      some handler was refused because the receiver had stopped. */
  lemma CrashedExactlyAfterRefusal(actions: seq<Action>)
    requires CanRun(INITIAL, actions)
    requires AtRest(Run(INITIAL, actions))
    ensures Run(INITIAL, actions).fate.Running? <==> NobodyRefused(Run(INITIAL, actions))
  {
    RunKeeps(INITIAL, actions);
    RunBalances(INITIAL, actions);
    RunsExactlyUnrefused(Run(INITIAL, actions));
  }

  /** A run that crashes: a request that arrives after the stop. */
  lemma LateRequestCrashes(event: Event) returns (actions: seq<Action>)
    ensures CanRun(INITIAL, actions) && Run(INITIAL, actions).fate.Crashed?
  {
    var refused := [CheckStopped(0), ReleaseExplicitly(0), ReleaseDeferred(0)];
    var stopped := State([], Lock(Unlocked, 0, true, false), INITIAL.channel, Running);
    var locked := stopped.(handlers := [Handler(event, Locked)], lock := stopped.lock.(readers := 1));
    SecondReleaseAfterStop(locked, 0);
    actions := LateRequest(event, stopped, locked, refused);
    actions := StopsFirst(stopped, actions);
  }

  lemma LateRequest(event: Event, stopped: State, locked: State, rest: seq<Action>) returns (actions: seq<Action>)
    requires stopped == State([], Lock(Unlocked, 0, true, false), INITIAL.channel, Running)
    requires locked == stopped.(handlers := [Handler(event, Locked)], lock := stopped.lock.(readers := 1))
    requires CanRun(locked, rest)
    ensures CanRun(stopped, actions) && Run(stopped, actions) == Run(locked, rest)
  {
    var arrived := stopped.(handlers := [Handler(event, Arrived)]);
    var end := Run(locked, rest);
    assert Apply(stopped, Arrive(event)) == arrived && Apply(arrived, ReadLock(0)) == locked;
    actions := Before(arrived, ReadLock(0), rest, end);
    actions := Before(stopped, Arrive(event), actions, end);
  }

  lemma StopsFirst(stopped: State, rest: seq<Action>) returns (actions: seq<Action>)
    requires stopped == State([], Lock(Unlocked, 0, true, false), INITIAL.channel, Running) && CanRun(stopped, rest)
    ensures CanRun(INITIAL, actions) && Run(INITIAL, actions) == Run(stopped, rest)
  {
    var end := Run(stopped, rest);
    var waiting := INITIAL.(lock := Lock(Waiting, 0, false, false));
    var holding := INITIAL.(lock := Lock(Holding, 0, false, false));
    var stopping := INITIAL.(lock := Lock(Stopping, 0, true, false));
    actions := Before(stopping, Unlock, rest, end);
    actions := Before(holding, SetStopped, actions, end);
    actions := Before(waiting, TakeLock, actions, end);
    actions := Before(INITIAL, AskLock, actions, end);
  }

  lemma Before(s: State, a: Action, rest: seq<Action>, end: State) returns (actions: seq<Action>)
    requires Enabled(s, a) && CanRun(Apply(s, a), rest) && Run(Apply(s, a), rest) == end
    ensures CanRun(s, actions) && Run(s, actions) == end
  {
    actions := [a] + rest;
    assert actions[1..] == rest;
  }

  /** How often a handler's event was accepted. */
  function TimesAccepted(sent: seq<Sent>, h: nat): nat {
    if sent == [] then 0 else (if sent[0].handler == h then 1 else 0) + TimesAccepted(sent[1..], h)
  }

  lemma {:induction false} AcceptedOnce(sent: seq<Sent>, h: nat)
    requires forall i, j :: 0 <= i < j < |sent| ==> sent[i].handler != sent[j].handler
    ensures TimesAccepted(sent, h) == if exists i :: 0 <= i < |sent| && sent[i].handler == h then 1 else 0
  {
    if sent != [] {
      AcceptedOnce(sent[1..], h);
      if i :| 0 <= i < |sent| && sent[i].handler == h {
        if i > 0 { assert sent[1..][i - 1].handler == h; }
      }
      if j :| 0 <= j < |sent[1..]| && sent[1..][j].handler == h { assert sent[j + 1].handler == h; }
    }
  }

  /** In every reachable state: accepted is consumed followed by buffered, in
      order and within capacity; a job event answered 204 was accepted exactly
      once, every other answer means that the event never was. */
  lemma Delivery(actions: seq<Action>, h: nat)
    requires CanRun(INITIAL, actions) && h < |Run(INITIAL, actions).handlers|
    ensures var s := Run(INITIAL, actions); var c, handler := s.channel, s.handlers[h];
            && c.accepted == c.consumed + c.buffer && |c.buffer| <= 1000
            && (handler.phase.Done? ==>
                  TimesAccepted(c.accepted, h) ==
                    if handler.event.uuid != "" && handler.phase.answer == 204 then 1 else 0)
            && (handler.phase == Done(410) ==> s.lock.stopped)
  {
    RunKeeps(INITIAL, actions);
    SafeDelivers(Run(INITIAL, actions), h);
  }

  lemma SafeDelivers(s: State, h: nat)
    requires Safe(s) && h < |s.handlers|
    ensures var c, handler := s.channel, s.handlers[h];
            && c.accepted == c.consumed + c.buffer && |c.buffer| <= 1000
            && (handler.phase.Done? ==>
                  TimesAccepted(c.accepted, h) ==
                    if handler.event.uuid != "" && handler.phase.answer == 204 then 1 else 0)
            && (handler.phase == Done(410) ==> s.lock.stopped)
  {
    assert PhaseFits(s.handlers[h].phase, s.lock.stopped);
    HistoryOf(s.handlers, s.channel, h);
  }

  lemma HistoryOf(hs: seq<Handler>, c: Channel, h: nat)
    requires ChannelInv(hs, c) && h < |hs|
    ensures TimesAccepted(c.accepted, h) == if HasSent(hs[h]) then 1 else 0
  {
    AcceptedOnce(c.accepted, h);
    if HasSent(hs[h]) {
      var i :| 0 <= i < |c.accepted| && c.accepted[i] == Sent(h, hs[h].event);
      assert c.accepted[i].handler == h;
    } else {
      forall i | 0 <= i < |c.accepted| ensures c.accepted[i].handler != h { assert SentBy(hs, c.accepted[i]); }
    }
  }

  // ----- what becomes of a handler that has the lock

  /** Three steps of one handler. */
  lemma ThreeSteps(s: State, a: Action, b: Action, c: Action)
    requires Enabled(s, a) && Enabled(Apply(s, a), b) && Enabled(Apply(Apply(s, a), b), c)
    ensures CanRun(s, [a, b, c]) && Run(s, [a, b, c]) == Apply(Apply(Apply(s, a), b), c)
  {
    var s1 := Apply(s, a);
    var s2 := Apply(s1, b);
    var t := Apply(s2, c);
    RunsTo(s2, [c], t);
    RunsTo(s1, [b, c], t);
    RunsTo(s, [a, b, c], t);
  }

  lemma TwoSteps(s: State, a: Action, b: Action)
    requires Enabled(s, a) && Enabled(Apply(s, a), b)
    ensures CanRun(s, [a, b]) && Run(s, [a, b]) == Apply(Apply(s, a), b)
  {
    var s1 := Apply(s, a);
    RunsTo(s1, [b], Apply(s1, b));
    RunsTo(s, [a, b], Apply(s1, b));
  }

  /** The state after `h` has been answered and has released the lock. */
  function Served(s: State, h: nat, answer: nat, channel: Channel): State
    requires h < |s.handlers| && s.lock.readers > 0
  {
    State(s.handlers[h := Handler(s.handlers[h].event, Done(answer))],
          s.lock.(readers := s.lock.readers - 1), channel, s.fate)
  }

  lemma LockedIsCounted(s: State, h: nat)
    requires Safe(s) && At(s, h, Locked) && !s.lock.stopped
    ensures s.lock.readers > 0 && !s.lock.closed
  {
    CountUpdate(s.handlers, h, s.handlers[h]);
  }

  /** Progress: in every reachable state of a receiver that runs and is not stopped,
      a handler that has the lock and a job event, alone and with room in the
      channel, puts the event at the end of the channel and answers 204, and nothing
      else changes but its release of the lock. */
  lemma JobEventIsSent(actions: seq<Action>, h: nat)
    requires CanRun(INITIAL, actions)
    requires var s := Run(INITIAL, actions);
             && s.fate.Running? && !s.lock.stopped && At(s, h, Locked)
             && s.handlers[h].event.uuid != "" && |s.channel.buffer| < 1000
    ensures var s := Run(INITIAL, actions); var alone := [CheckStopped(h), Send(h), ReleaseDeferred(h)];
            var sent := Sent(h, s.handlers[h].event);
            && CanRun(s, alone) && s.lock.readers > 0
            && Run(s, alone) == Served(s, h, 204, s.channel.(buffer := s.channel.buffer + [sent],
                                                             accepted := s.channel.accepted + [sent]))
  {
    RunKeeps(INITIAL, actions);
    LockedIsSent(Run(INITIAL, actions), h);
  }

  lemma LockedIsSent(s: State, h: nat)
    requires Safe(s) && s.fate.Running? && !s.lock.stopped && At(s, h, Locked)
    requires s.handlers[h].event.uuid != "" && |s.channel.buffer| < CAPACITY
    ensures var alone := [CheckStopped(h), Send(h), ReleaseDeferred(h)]; var sent := Sent(h, s.handlers[h].event);
            && CanRun(s, alone) && s.lock.readers > 0
            && Run(s, alone) == Served(s, h, 204, s.channel.(buffer := s.channel.buffer + [sent],
                                                             accepted := s.channel.accepted + [sent]))
  {
    LockedIsCounted(s, h);
    ThreeSteps(s, CheckStopped(h), Send(h), ReleaseDeferred(h));
  }

  /** Serving a handler that took the lock leaves the lock as it was. */
  lemma EnterAndLeave(s: State, h: nat, channel: Channel)
    requires Enabled(s, ReadLock(h))
    ensures Apply(s, ReadLock(h)).lock.readers > 0 && At(Apply(s, ReadLock(h)), h, Locked)
    ensures Served(Apply(s, ReadLock(h)), h, 204, channel) ==
            s.(handlers := s.handlers[h := Handler(s.handlers[h].event, Done(204))], channel := channel)
  {
    var locked := Apply(s, ReadLock(h));
    assert locked.handlers[h := Handler(s.handlers[h].event, Done(204))] ==
           s.handlers[h := Handler(s.handlers[h].event, Done(204))];
  }

  lemma ArrivedGoesThrough(s: State, h: nat)
    requires Safe(s) && s.fate.Running? && s.lock.closer.Open? && At(s, h, Arrived)
    requires s.handlers[h].event.uuid != "" && |s.channel.buffer| < CAPACITY
    ensures var alone := [ReadLock(h), CheckStopped(h), Send(h), ReleaseDeferred(h)];
            var sent := Sent(h, s.handlers[h].event);
            && CanRun(s, alone)
            && Run(s, alone) == s.(handlers := s.handlers[h := Handler(s.handlers[h].event, Done(204))],
                  channel := s.channel.(buffer := s.channel.buffer + [sent], accepted := s.channel.accepted + [sent]))
  {
    var sent := Sent(h, s.handlers[h].event);
    var inside := [CheckStopped(h), Send(h), ReleaseDeferred(h)];
    var alone := [ReadLock(h), CheckStopped(h), Send(h), ReleaseDeferred(h)];
    var channel := s.channel.(buffer := s.channel.buffer + [sent], accepted := s.channel.accepted + [sent]);
    StepKeeps(s, ReadLock(h));
    EnterAndLeave(s, h, channel);
    LockedIsSent(Apply(s, ReadLock(h)), h);
    assert alone[1..] == inside;
    RunsTo(s, alone, Served(Apply(s, ReadLock(h)), h, 204, channel));
  }

  /** So is the event of a request that has arrived before Close was called. */
  lemma ArrivedIsSent(actions: seq<Action>, h: nat)
    requires CanRun(INITIAL, actions)
    requires var s := Run(INITIAL, actions);
             && s.fate.Running? && s.lock.closer.Open? && At(s, h, Arrived)
             && s.handlers[h].event.uuid != "" && |s.channel.buffer| < 1000
    ensures var s := Run(INITIAL, actions);
            var alone := [ReadLock(h), CheckStopped(h), Send(h), ReleaseDeferred(h)];
            var sent := Sent(h, s.handlers[h].event);
            && CanRun(s, alone)
            && Run(s, alone) == s.(handlers := s.handlers[h := Handler(s.handlers[h].event, Done(204))],
                  channel := s.channel.(buffer := s.channel.buffer + [sent], accepted := s.channel.accepted + [sent]))
  {
    RunKeeps(INITIAL, actions);
    ArrivedGoesThrough(Run(INITIAL, actions), h);
  }

  /** What is no job event is answered 204 and dropped. */
  lemma OtherEventIsDropped(actions: seq<Action>, h: nat)
    requires CanRun(INITIAL, actions)
    requires var s := Run(INITIAL, actions);
             && s.fate.Running? && !s.lock.stopped && At(s, h, Locked) && s.handlers[h].event.uuid == ""
    ensures var s := Run(INITIAL, actions); var alone := [CheckStopped(h), ReleaseDeferred(h)];
            CanRun(s, alone) && s.lock.readers > 0 && Run(s, alone) == Served(s, h, 204, s.channel)
  {
    var s := Run(INITIAL, actions);
    RunKeeps(INITIAL, actions);
    LockedIsCounted(s, h);
    TwoSteps(s, CheckStopped(h), ReleaseDeferred(h));
  }

  /** An answer given inside: 204, with a job event accepted, or 500 after a timeout. */
  predicate Accounted(s: State, h: nat, event: Event, code: nat, timedOut: bool) {
    (code == 204 && (event.uuid != "" ==> Sent(h, event) in s.channel.accepted)) || (code == 500 && timedOut)
  }

  /** On its way from the lock to its answer. */
  predicate InService(s: State, h: nat, event: Event, timedOut: bool) {
    && h < |s.handlers| && s.handlers[h].event == event
    && match s.handlers[h].phase
       case Locked => !s.lock.stopped
       case Sending => true
       case Answered(code) => Accounted(s, h, event, code, timedOut)
       case Done(code) => Accounted(s, h, event, code, timedOut)
       case _ => false
  }

  lemma AcceptedStays(s: State, a: Action, sent: Sent)
    requires Enabled(s, a) && sent in s.channel.accepted
    ensures sent in Apply(s, a).channel.accepted
  {
  }

  lemma InsideStaysUnstopped(s: State, h: nat, a: Action)
    requires Safe(s) && Enabled(s, a) && At(s, h, Locked) && !s.lock.stopped
    ensures !Apply(s, a).lock.stopped
  {
    if a.SetStopped? { NobodyInside(s.handlers, s.lock); }
  }

  lemma OwnStepServes(s: State, h: nat, event: Event, timedOut: bool, a: Action)
    requires Safe(s) && InService(s, h, event, timedOut) && Enabled(s, a)
    requires a.CheckStopped? || a.Send? || a.Timeout? || a.ReleaseDeferred?
    requires a.h == h
    ensures InService(Apply(s, a), h, event, timedOut || a == Timeout(h))
  {
    assert PhaseFits(s.handlers[h].phase, s.lock.stopped);
  }

  lemma OthersStepServes(s: State, h: nat, event: Event, timedOut: bool, a: Action)
    requires Safe(s) && InService(s, h, event, timedOut) && Enabled(s, a)
    requires !((a.CheckStopped? || a.Send? || a.Timeout? || a.ReleaseDeferred?) && a.h == h)
    ensures InService(Apply(s, a), h, event, timedOut)
  {
    if Sent(h, event) in s.channel.accepted { AcceptedStays(s, a, Sent(h, event)); }
    if At(s, h, Locked) { InsideStaysUnstopped(s, h, a); }
  }

  lemma {:induction false} RunServes(s: State, h: nat, event: Event, timedOut: bool, actions: seq<Action>)
    requires Safe(s) && InService(s, h, event, timedOut) && CanRun(s, actions)
    ensures InService(Run(s, actions), h, event, timedOut || Timeout(h) in actions)
    decreases |actions|
  {
    if actions != [] {
      var a := actions[0];
      StepKeeps(s, a);
      if (a.CheckStopped? || a.Send? || a.Timeout? || a.ReleaseDeferred?) && a.h == h {
        OwnStepServes(s, h, event, timedOut, a);
      } else {
        OthersStepServes(s, h, event, timedOut, a);
      }
      assert Timeout(h) in actions <==> a == Timeout(h) || Timeout(h) in actions[1..];
      RunServes(Apply(s, a), h, event, timedOut || a == Timeout(h), actions[1..]);
    }
  }

  /** In any interleaving: a handler that had the lock before the stop is never
      refused. It answers 204, and then a job event was accepted, or 500, and then
      it waited until its timeout. */
  lemma LockedIsServed(before: seq<Action>, h: nat, after: seq<Action>)
    requires CanRun(INITIAL, before) && CanRun(Run(INITIAL, before), after)
    requires At(Run(INITIAL, before), h, Locked) && !Run(INITIAL, before).lock.stopped
    ensures var event := Run(INITIAL, before).handlers[h].event; var t := Run(Run(INITIAL, before), after);
            && h < |t.handlers|
            && (t.handlers[h].phase.Done? ==>
                  || (t.handlers[h].phase.answer == 204 && (event.uuid != "" ==> Sent(h, event) in t.channel.accepted))
                  || (t.handlers[h].phase.answer == 500 && Timeout(h) in after))
  {
    var s := Run(INITIAL, before);
    RunKeeps(INITIAL, before);
    RunServes(s, h, s.handlers[h].event, false, after);
  }

  /** On its way out after the stop. */
  predicate IsTurnedAway(s: State, h: nat) {
    && s.lock.stopped && h < |s.handlers|
    && match s.handlers[h].phase
       case Arrived => true
       case Locked => true
       case Refusing => true
       case Refused => true
       case Done(code) => code == 410 || code in {400, 404, 405, 415, 500}
       case _ => false
  }

  lemma {:induction false} RunTurnsAway(s: State, h: nat, actions: seq<Action>)
    requires IsTurnedAway(s, h) && CanRun(s, actions)
    ensures IsTurnedAway(Run(s, actions), h)
    decreases |actions|
  {
    if actions != [] { RunTurnsAway(Apply(s, actions[0]), h, actions[1..]); }
  }

  lemma TurnedAwayUnsent(t: State, h: nat)
    requires Safe(t) && IsTurnedAway(t, h)
    ensures TimesAccepted(t.channel.accepted, h) == 0
  {
    HistoryOf(t.handlers, t.channel, h);
  }

  /** In any interleaving: a handler that gets no further than the lock before the
      stop is answered 410, or with an error of its own request, and its event is
      never accepted. */
  lemma LateIsRefused(before: seq<Action>, h: nat, after: seq<Action>)
    requires CanRun(INITIAL, before) && CanRun(Run(INITIAL, before), after)
    requires At(Run(INITIAL, before), h, Arrived) || At(Run(INITIAL, before), h, Locked)
    requires Run(INITIAL, before).lock.stopped
    ensures var t := Run(Run(INITIAL, before), after);
            && h < |t.handlers| && TimesAccepted(t.channel.accepted, h) == 0
            && (t.handlers[h].phase.Done? ==> t.handlers[h].phase.answer in {410, 400, 404, 405, 415, 500})
  {
    var s := Run(INITIAL, before);
    RunKeeps(INITIAL, before);
    RunKeeps(s, after);
    RunTurnsAway(s, h, after);
    TurnedAwayUnsent(Run(s, after), h);
  }

  lemma {:induction false} NothingAcceptedAfterClose(s: State, actions: seq<Action>)
    requires Safe(s) && s.lock.closed && CanRun(s, actions)
    ensures Run(s, actions).channel.accepted == s.channel.accepted
    decreases |actions|
  {
    if actions != [] {
      StepKeeps(s, actions[0]);
      NothingAcceptedAfterClose(Apply(s, actions[0]), actions[1..]);
    }
  }

  /** Events buffered when the channel is closed are still delivered: however the
      run goes on, when the consumer's loop ends it has received all of them. */
  lemma BufferedAtCloseDelivered(before: seq<Action>, after: seq<Action>)
    requires CanRun(INITIAL, before) && Run(INITIAL, before).lock.closed
    requires CanRun(Run(INITIAL, before), after) && Run(Run(INITIAL, before), after).channel.finished
    ensures var c := Run(INITIAL, before).channel;
            Run(Run(INITIAL, before), after).channel.consumed == c.consumed + c.buffer
  {
    RunKeeps(INITIAL, before);
    var s := Run(INITIAL, before);
    NothingAcceptedAfterClose(s, after);
    RunKeeps(s, after);
    var d := Run(s, after).channel;
    assert d.consumed + [] == d.consumed;
  }

  lemma {:induction false} SomeoneInside(hs: seq<Handler>) returns (h: nat)
    requires CountInside(hs) > 0
    ensures h < |hs| && Inside(hs[h].phase)
  {
    if Inside(hs[0].phase) { return 0; }
    h := SomeoneInside(hs[1..]);
    h := h + 1;
  }

  lemma InsideCanMove(s: State, h: nat) returns (a: Action)
    requires s.fate.Running? && h < |s.handlers| && Inside(s.handlers[h].phase)
    ensures Enabled(s, a) && (a.CheckStopped? || a.Timeout? || a.ReleaseDeferred?)
  {
    a := match s.handlers[h].phase
         case Locked => CheckStopped(h)
         case Sending => Timeout(h)
         case _ => ReleaseDeferred(h);
  }

  /** Close is not kept waiting for good: while it waits, it can take the lock or
      some handler inside can take a step of its own, whatever the consumer does. */
  lemma WaitingCloseCanProceed(actions: seq<Action>) returns (a: Action)
    requires CanRun(INITIAL, actions) && Run(INITIAL, actions).lock.closer.Waiting?
    ensures Enabled(Run(INITIAL, actions), a)
    ensures a == TakeLock || a.CheckStopped? || a.Timeout? || a.ReleaseDeferred?
  {
    RunKeeps(INITIAL, actions);
    var s := Run(INITIAL, actions);
    if s.lock.readers == 0 { return TakeLock; }
    var h := SomeoneInside(s.handlers);
    a := InsideCanMove(s, h);
  }

  // ----- how long Close can wait

  /** The steps a handler inside still has to take. */
  function Left(p: Phase): nat {
    match p case Locked => 3 case Sending => 2 case Answered(_) => 1 case _ => 0
  }

  function AllLeft(hs: seq<Handler>): nat {
    if hs == [] then 0 else Left(hs[0].phase) + AllLeft(hs[1..])
  }

  lemma {:induction false} LeftUpdate(hs: seq<Handler>, i: nat, h: Handler)
    requires i < |hs|
    ensures AllLeft(hs[i := h]) == AllLeft(hs) - Left(hs[i].phase) + Left(h.phase)
  {
    if i > 0 {
      assert hs[i := h][1..] == hs[1..][i - 1 := h];
      LeftUpdate(hs[1..], i - 1, h);
    } else {
      assert hs[i := h][1..] == hs[1..];
    }
  }

  lemma {:induction false} LeftAppend(hs: seq<Handler>, h: Handler)
    ensures AllLeft(hs + [h]) == AllLeft(hs) + Left(h.phase)
  {
    if hs == [] {
      assert hs + [h] == [h];
    } else {
      assert (hs + [h])[1..] == hs[1..] + [h];
      LeftAppend(hs[1..], h);
    }
  }

  lemma {:induction false} LeftByInside(hs: seq<Handler>)
    ensures AllLeft(hs) <= 3 * CountInside(hs)
  {
    if hs != [] { LeftByInside(hs[1..]); }
  }

  predicate IsInsideStep(a: Action) {
    a.CheckStopped? || a.Send? || a.Timeout? || a.ReleaseDeferred?
  }

  /** How many steps are taken by handlers inside. */
  function InsideSteps(actions: seq<Action>): nat {
    if actions == [] then 0 else (if IsInsideStep(actions[0]) then 1 else 0) + InsideSteps(actions[1..])
  }

  lemma WaitingStep(s: State, a: Action)
    requires Safe(s) && s.lock.closer.Waiting? && Enabled(s, a) && a != TakeLock
    ensures var t := Apply(s, a);
            t.lock.closer.Waiting? && AllLeft(t.handlers) + (if IsInsideStep(a) then 1 else 0) <= AllLeft(s.handlers)
  {
    assert forall h :: 0 <= h < |s.handlers| ==> PhaseFits(s.handlers[h].phase, false);
    match a
    case Arrive(event) => LeftAppend(s.handlers, Handler(event, Arrived));
    case AnswerEarly(h, code) => LeftUpdate(s.handlers, h, s.handlers[h].(phase := Done(code)));
    case CheckStopped(h) =>
      LeftUpdate(s.handlers, h, s.handlers[h].(phase := Checked(s.handlers[h], s.lock.stopped)));
    case Send(h) => LeftUpdate(s.handlers, h, s.handlers[h].(phase := Answered(NO_CONTENT)));
    case Timeout(h) => LeftUpdate(s.handlers, h, s.handlers[h].(phase := Answered(SERVER_ERROR)));
    case ReleaseDeferred(h) => ReleasingStep(s, h);
    case _ =>
  }

  lemma ReleasingStep(s: State, h: nat)
    requires Safe(s) && s.lock.closer.Waiting? && Enabled(s, ReleaseDeferred(h))
    ensures Apply(s, ReleaseDeferred(h)).lock.closer.Waiting?
    ensures AllLeft(Apply(s, ReleaseDeferred(h)).handlers) + 1 <= AllLeft(s.handlers)
  {
    assert PhaseFits(s.handlers[h].phase, s.lock.stopped);
    LeftUpdate(s.handlers, h, s.handlers[h].(phase := Final(s.handlers[h].phase)));
  }

  lemma {:induction false} WaitingRun(s: State, actions: seq<Action>)
    requires Safe(s) && s.lock.closer.Waiting? && CanRun(s, actions) && TakeLock !in actions
    ensures AllLeft(Run(s, actions).handlers) + InsideSteps(actions) <= AllLeft(s.handlers)
    decreases |actions|
  {
    if actions != [] {
      assert actions[0] in actions && forall a :: a in actions[1..] ==> a in actions;
      StepKeeps(s, actions[0]);
      WaitingStep(s, actions[0]);
      WaitingRun(Apply(s, actions[0]), actions[1..]);
    }
  }

  /** Close waits for the handlers that were inside when it asked for the lock, and
      for nobody else: in any interleaving, however many requests arrive meanwhile,
      at most three steps of each of them are taken before Close has the lock or
      nobody is left inside. */
  lemma CloseWaitIsBounded(before: seq<Action>, after: seq<Action>)
    requires CanRun(INITIAL, before) && Run(INITIAL, before).lock.closer.Waiting?
    requires CanRun(Run(INITIAL, before), after) && TakeLock !in after
    ensures InsideSteps(after) <= 3 * CountInside(Run(INITIAL, before).handlers)
  {
    RunKeeps(INITIAL, before);
    WaitingRun(Run(INITIAL, before), after);
    LeftByInside(Run(INITIAL, before).handlers);
  }
}
