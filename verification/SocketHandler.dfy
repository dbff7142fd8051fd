/**
 * The attach-socket handler: incremental reading of framed output and
 * buffered writing with partial sends.
 */
module SocketHandler {
  import opened Common
  import opened FrameStream

  /** One receive: nothing available, data (empty at end of stream), or the
      TLS layer's end-of-stream exception. */
  datatype Recv = NoData | Data(data: bytes) | ZeroReturn

  /** One send: the number of bytes the socket took, or an exception. */
  datatype Send = Accepted(n: nat) | Raised

  /** What one select reports for the socket. */
  datatype Ready = Ready(recv: Option<Recv>, send: Option<Send>)

  predicate Ends(r: Ready) {
    r.recv == Some(ZeroReturn) || r.recv == Some(Data([]))
  }

  /** The data received up to the end of the stream. */
  function Received(es: seq<Ready>): bytes {
    if es == [] || Ends(es[0]) then []
    else (match es[0].recv case Some(Data(data)) => data case _ => []) + Received(es[1..])
  }

  predicate Ended(es: seq<Ready>) {
    exists i :: 0 <= i < |es| && Ends(es[i])
  }

  function AfterRecv(d: Demux, recv: Recv): Demux
    requires Settled(d)
  {
    match recv case Data(data) => Feed(d, data) case _ => d
  }

  /** The demultiplexer after the data of one event. */
  function Fed(d: Demux, r: Ready): Demux
    requires Settled(d)
  {
    match r.recv case Some(recv) => AfterRecv(d, recv) case None => d
  }

  /** What consume must answer from `d` on: nothing more is read at the end. */
  function Expected(d: Demux, ended: bool, es: seq<Ready>): Consumed
    requires Settled(d)
  {
    if ended then ConsumeResult(d, [], true) else ConsumeResult(d, Received(es), Ended(es))
  }

  function ChunkOf(r: Ready): bytes {
    match r.recv case Some(Data(data)) => data case _ => []
  }

  lemma EndedLater(es: seq<Ready>)
    requires es != [] && !Ends(es[0])
    ensures Ended(es) <==> Ended(es[1..])
  {
    var rest := es[1..];
    if Ended(rest) {
      var k :| 0 <= k < |rest| && Ends(rest[k]);
      assert Ends(es[k + 1]);
    }
    if Ended(es) {
      var k :| 0 <= k < |es| && Ends(es[k]);
      assert Ends(rest[k - 1]);
    }
  }

  lemma FedIsFold(d: Demux, r: Ready)
    requires Settled(d)
    ensures Settled(Fed(d, r)) && Fed(d, r) == Fold(d, ChunkOf(r))
  {
    FeedIsFold(d, ChunkOf(r));
    FoldNothing(d);
  }

  lemma FoldNothing(d: Demux)
    requires Settled(d)
    ensures Fold(d, []) == d
  {
  }

  lemma FedThenFed(d: Demux, r: Ready, more: bytes)
    requires Settled(d)
    ensures Settled(Fed(d, r)) && Feed(Fed(d, r), more) == Feed(d, ChunkOf(r) + more)
    ensures !AllKnown(Fed(d, r).blocks) ==> !AllKnown(Feed(d, ChunkOf(r) + more).blocks)
  {
    FedIsFold(d, r);
    FeedIsFold(d, ChunkOf(r) + more);
    FeedIsFold(Fed(d, r), more);
    FoldAppend(d, ChunkOf(r), more);
    FoldExtendsBlocks(Fed(d, r), more);
    if !AllKnown(Fed(d, r).blocks) { StaysUnknown(Fed(d, r).blocks, Feed(d, ChunkOf(r) + more).blocks); }
  }

  lemma StaysUnknown(some: seq<Block>, all: seq<Block>)
    requires some <= all && !AllKnown(some)
    ensures !AllKnown(all)
  {
    assert forall b :: b in some ==> b in all;
  }

  lemma EndStep(d: Demux, es: seq<Ready>)
    requires Settled(d) && es != [] && Ends(es[0])
    ensures Fed(d, es[0]) == d && Expected(d, false, es) == ConsumeResult(d, [], true)
  {
    FedIsFold(d, es[0]);
    FoldNothing(d);
    assert Ended(es);
  }

  /** Taking one event off the front changes neither the answer nor whether it
      is there yet; a block on an unknown stream decides it. */
  lemma ReceiveStep(d: Demux, es: seq<Ready>)
    requires Settled(d) && es != []
    ensures Settled(Fed(d, es[0]))
    ensures Expected(d, false, es) == Expected(Fed(d, es[0]), Ends(es[0]), es[1..])
    ensures !AllKnown(Fed(d, es[0]).blocks) ==> Expected(d, false, es) == InvalidStream
  {
    FedThenFed(d, es[0], Received(es[1..]));
    if Ends(es[0]) {
      EndStep(d, es);
      FedThenFed(d, es[0], []);
    } else {
      EndedLater(es);
    }
  }

  // ----- the writing side

  /** The point a shutdown was made at: bytes sent and bytes given so far. */
  datatype Shutdown = Shutdown(sent: nat, given: nat)

  datatype Writer = Writer(buffer: bytes, ending: bool, asksWrite: bool,
                           sent: bytes, given: bytes, shutdowns: seq<Shutdown>)

  const IDLE := Writer([], false, false, [], [], [])

  datatype WriterOp = Write(data: bytes, outcome: Send) | Writable(outcome: Send) | EndOfWriting

  function EndIfDrained(w: Writer): Writer {
    if w.ending && w.buffer == []
    then w.(ending := false, shutdowns := w.shutdowns + [Shutdown(|w.sent|, |w.given|)])
    else w
  }

  function Flush(w: Writer, outcome: Send): Writer {
    if w.buffer == [] || outcome.Raised? then w else
    var n := if outcome.n < |w.buffer| then outcome.n else |w.buffer|;
    EndIfDrained(w.(buffer := w.buffer[n..], sent := w.sent + w.buffer[..n], asksWrite := n < |w.buffer|))
  }

  /** A selector reports write readiness only when it was asked for it. */
  function Apply(w: Writer, op: WriterOp): Writer {
    match op
    case Write(data, outcome) =>
      var w' := w.(buffer := w.buffer + data, given := w.given + data);
      if |w'.buffer| == |data| then Flush(w', outcome) else w'
    case Writable(outcome) => if w.asksWrite then Flush(w, outcome) else w
    case EndOfWriting => EndIfDrained(w.(ending := true))
  }

  function Run(w: Writer, ops: seq<WriterOp>): Writer
    decreases |ops|
  {
    if ops == [] then w else Run(Apply(w, ops[0]), ops[1..])
  }

  /** Nothing lost, repeated or reordered; writing was only ever shut down when
      everything given had been sent, and a requested shutdown is outstanding
      only while bytes are. */
  predicate Sound(w: Writer) {
    && w.sent + w.buffer == w.given
    && (w.asksWrite ==> w.buffer != [])
    && (w.ending ==> w.buffer != [])
    && (forall s :: s in w.shutdowns ==> s.sent == s.given)
  }

  lemma FlushSound(w: Writer, outcome: Send)
    requires w.sent + w.buffer == w.given && (w.asksWrite ==> w.buffer != []) && (w.ending ==> w.buffer != [])
    requires forall s :: s in w.shutdowns ==> s.sent == s.given
    ensures Sound(Flush(w, outcome))
  {
    if w.buffer != [] && !outcome.Raised? {
      var n := if outcome.n < |w.buffer| then outcome.n else |w.buffer|;
      assert w.sent + w.buffer[..n] + w.buffer[n..] == w.sent + w.buffer;
    }
  }

  lemma ApplySound(w: Writer, op: WriterOp)
    requires Sound(w)
    ensures Sound(Apply(w, op))
  {
    match op
    case Write(data, outcome) =>
      assert w.sent + (w.buffer + data) == w.given + data;
      FlushSound(w.(buffer := w.buffer + data, given := w.given + data), outcome);
    case Writable(outcome) => FlushSound(w, outcome);
    case EndOfWriting =>
  }

  lemma {:induction false} RunSound(w: Writer, ops: seq<WriterOp>)
    requires Sound(w)
    ensures Sound(Run(w, ops))
    decreases |ops|
  {
    if ops != [] {
      ApplySound(w, ops[0]);
      RunSound(Apply(w, ops[0]), ops[1..]);
    }
  }

  /** The send that `write` itself makes raises: the bytes stay buffered and the
      selector is never told. */
  predicate Stalls(w: Writer, op: WriterOp) {
    op.Write? && w.buffer == [] && op.data != [] && op.outcome.Raised?
  }

  predicate NeverStalls(w: Writer, ops: seq<WriterOp>)
    decreases |ops|
  {
    ops == [] || (!Stalls(w, ops[0]) && NeverStalls(Apply(w, ops[0]), ops[1..]))
  }

  lemma {:induction false} StalledForever(w: Writer, ops: seq<WriterOp>)
    requires w.buffer != [] && !w.asksWrite
    ensures Run(w, ops).buffer != [] && !Run(w, ops).asksWrite && Run(w, ops).sent == w.sent
    decreases |ops|
  {
    if ops != [] { StalledForever(Apply(w, ops[0]), ops[1..]); }
  }

  /** At the end of a run the selector is asked for write readiness exactly when
      bytes are buffered, if and only if no send made by `write` raised. */
  lemma {:induction false} AsksExactlyWhenBuffered(w: Writer, ops: seq<WriterOp>)
    requires Sound(w) && (w.asksWrite <==> w.buffer != [])
    ensures (Run(w, ops).asksWrite <==> Run(w, ops).buffer != []) <==> NeverStalls(w, ops)
    decreases |ops|
  {
    if ops != [] {
      ApplySound(w, ops[0]);
      if Stalls(w, ops[0]) {
        assert w.buffer + ops[0].data == ops[0].data;
        StalledForever(Apply(w, ops[0]), ops[1..]);
      } else {
        AsksExactlyWhenBuffered(Apply(w, ops[0]), ops[1..]);
      }
    }
  }

  // ----- the end of writing

  lemma {:induction false} RunAppend(w: Writer, some: seq<WriterOp>, more: seq<WriterOp>)
    ensures Run(w, some + more) == Run(Run(w, some), more)
    decreases |some|
  {
    if some == [] {
      assert some + more == more;
    } else {
      assert (some + more)[1..] == some[1..] + more;
      RunAppend(Apply(w, some[0]), some[1..], more);
    }
  }

  /** Writing is to end, or was ended after the first `n` times. */
  predicate EndDue(w: Writer, n: nat) {
    w.ending || |w.shutdowns| > n
  }

  lemma {:induction false} EndStaysDue(w: Writer, ops: seq<WriterOp>, n: nat)
    requires n <= |w.shutdowns|
    ensures w.shutdowns <= Run(w, ops).shutdowns
    ensures EndDue(w, n) ==> EndDue(Run(w, ops), n)
    decreases |ops|
  {
    if ops != [] {
      assert EndDue(w, n) ==> EndDue(Apply(w, ops[0]), n);
      EndStaysDue(Apply(w, ops[0]), ops[1..], n);
    }
  }

  /** A request to end writing is never dropped, over any writes and partial sends:
      it is outstanding, with bytes still to send, or writing was shut down since. */
  lemma EndOfWritingIsMade(before: seq<WriterOp>, after: seq<WriterOp>)
    ensures var v := Run(IDLE, before + [EndOfWriting] + after);
            && Run(IDLE, before).shutdowns <= v.shutdowns
            && (v.ending || |v.shutdowns| > |Run(IDLE, before).shutdowns|)
            && (v.buffer == [] ==> !v.ending && |v.shutdowns| > |Run(IDLE, before).shutdowns|)
  {
    var w := Run(IDLE, before);
    RunAppend(IDLE, before, [EndOfWriting] + after);
    assert before + [EndOfWriting] + after == before + ([EndOfWriting] + after);
    assert ([EndOfWriting] + after)[1..] == after;
    assert Run(w, [EndOfWriting] + after) == Run(Apply(w, EndOfWriting), after);
    EndStaysDue(Apply(w, EndOfWriting), after, |w.shutdowns|);
    RunSound(IDLE, before + [EndOfWriting] + after);
  }

  function Requests(ops: seq<WriterOp>): nat {
    if ops == [] then 0 else (if ops[0].EndOfWriting? then 1 else 0) + Requests(ops[1..])
  }

  function EndsMade(w: Writer): nat {
    |w.shutdowns| + if w.ending then 1 else 0
  }

  /** And nothing is shut down unasked. */
  lemma {:induction false} NoMoreEndsThanRequests(w: Writer, ops: seq<WriterOp>)
    ensures EndsMade(Run(w, ops)) <= EndsMade(w) + Requests(ops)
    decreases |ops|
  {
    if ops != [] {
      assert EndsMade(Apply(w, ops[0])) <= EndsMade(w) + if ops[0].EndOfWriting? then 1 else 0;
      NoMoreEndsThanRequests(Apply(w, ops[0]), ops[1..]);
    }
  }

  // ----- what is sent

  /** One send takes from the buffer what the socket took, and no more. */
  lemma SendsWhatIsTaken(w: Writer, n: nat)
    requires Sound(w) && w.asksWrite
    ensures var v := Apply(w, Writable(Accepted(n))); var taken := Min(n, |w.buffer|);
            && v.sent == w.sent + w.buffer[..taken] && v.buffer == w.buffer[taken..] && v.given == w.given
            && (v.asksWrite <==> taken < |w.buffer|)
  {
  }

  predicate Progresses(op: WriterOp) {
    op.Writable? && op.outcome.Accepted? && op.outcome.n > 0
  }

  /** Progress: from any state in which the selector is asked for readiness while
      bytes are buffered, as many sends as there are bytes, each taking at least
      one, send everything given; a shutdown that was asked for is then made. */
  lemma {:induction false} SendsEverything(w: Writer, ops: seq<WriterOp>)
    requires Sound(w) && (w.asksWrite <==> w.buffer != [])
    requires |ops| >= |w.buffer| && forall op :: op in ops ==> Progresses(op)
    ensures var v := Run(w, ops);
            && v.buffer == [] && v.sent == v.given == w.given && !v.asksWrite && !v.ending
            && |v.shutdowns| == |w.shutdowns| + if w.ending then 1 else 0
    decreases |ops|
  {
    if ops == [] {
      assert w.sent + [] == w.sent;
    } else {
      assert Progresses(ops[0]) && forall op :: op in ops[1..] ==> op in ops;
      ApplySound(w, ops[0]);
      SendsEverything(Apply(w, ops[0]), ops[1..]);
    }
  }

  // ----- the handler

  datatype Outcome = Fine | BadStream | SendRaised

  /** What one select does to the writer leaves an end of writing due. */
  lemma SelectKeepsEnd(w: Writer, r: Ready, n: nat)
    requires Sound(w) && n <= |w.shutdowns|
    ensures r.send.Some? ==> var v := Apply(w, Writable(r.send.value));
              Sound(v) && w.shutdowns <= v.shutdowns && (EndDue(w, n) ==> EndDue(v, n))
  {
    if r.send.Some? { ApplySound(w, Writable(r.send.value)); }
  }

  class DockerSocketHandler {
    var eof: bool
    var readBuffer: bytes
    var writeBuffer: bytes
    var endOfWriting: bool
    var currentStream: Option<byte>
    var currentMissing: nat
    var currentBuffer: bytes
    var asksWrite: bool
    var stdout: seq<bytes>
    var stderr: seq<bytes>

    ghost var blocks: seq<Block>
    ghost var sent: bytes
    ghost var given: bytes
    ghost var shutdowns: seq<Shutdown>

    ghost function Reading(): Demux reads this {
      Demux(currentStream, currentMissing, currentBuffer, readBuffer, blocks)
    }

    ghost function Writing(): Writer reads this {
      Writer(writeBuffer, endOfWriting, asksWrite, sent, given, shutdowns)
    }

    ghost predicate OutputsMatch() reads this {
      Concat(stdout) == Payloads(blocks, STDOUT) && Concat(stderr) == Payloads(blocks, STDERR)
    }

    ghost predicate Readable() reads this {
      Settled(Reading()) && OutputsMatch() && AllKnown(blocks)
    }

    ghost predicate Valid() reads this {
      Readable() && Sound(Writing())
    }

    constructor ()
      ensures Valid() && !eof && Reading() == FRESH && Writing() == IDLE
    {
      eof, readBuffer, writeBuffer, endOfWriting := false, [], [], false;
      currentStream, currentMissing, currentBuffer, asksWrite := None, 0, [], false;
      stdout, stderr := [], [];
      blocks, sent, given, shutdowns := [], [], [], [];
    }

    /** consume's callback: keep the block or reject its stream id. */
    method AddBlock(id: byte, data: bytes) returns (ok: bool)
      requires OutputsMatch() && AllKnown(blocks)
      modifies `stdout, `stderr, `blocks
      ensures ok <==> Known(Block(id, data))
      ensures blocks == old(blocks) + [Block(id, data)]
      ensures ok ==> OutputsMatch() && AllKnown(blocks)
    {
      ConcatAppend(stdout, data);
      ConcatAppend(stderr, data);
      PayloadsAppend(blocks, Block(id, data), STDOUT);
      PayloadsAppend(blocks, Block(id, data), STDERR);
      blocks := blocks + [Block(id, data)];
      ok := true;
      if id == STDOUT {
        stdout := stdout + [data];
      } else if id == STDERR {
        stderr := stderr + [data];
      } else {
        ok := false;
      }
      assert Concat(stdout) == Payloads(blocks, STDOUT) || !ok;
    }

    /** The payload part of one round of the reading loop. */
    method FillBlock() returns (ok: bool)
      requires currentMissing > 0 && currentStream.Some? && readBuffer != []
      requires OutputsMatch() && AllKnown(blocks)
      modifies `readBuffer, `currentMissing, `currentBuffer, `stdout, `stderr, `blocks
      ensures blocks == TakePayload(old(Reading())).blocks
      ensures ok <==> AllKnown(blocks)
      ensures ok ==> Reading() == TakePayload(old(Reading())) && OutputsMatch()
    {
      var n := if |readBuffer| < currentMissing then |readBuffer| else currentMissing;
      currentBuffer := currentBuffer + readBuffer[..n];
      readBuffer := readBuffer[n..];
      currentMissing := currentMissing - n;
      ok := true;
      if currentMissing == 0 {
        ok := AddBlock(currentStream.value, currentBuffer);
        if ok {
          currentBuffer := [];
        } else {
          assert blocks[|blocks| - 1] in blocks;
        }
      }
    }

    /** The reading loop over everything buffered. */
    method ParseBuffer() returns (ok: bool)
      requires currentMissing > 0 ==> currentStream.Some?
      requires currentMissing == 0 ==> currentBuffer == []
      requires OutputsMatch() && AllKnown(blocks)
      modifies `readBuffer, `currentStream, `currentMissing, `currentBuffer, `stdout, `stderr, `blocks
      ensures ok <==> AllKnown(Drain(old(Reading())).blocks)
      ensures ok ==> Reading() == Drain(old(Reading())) && OutputsMatch()
    {
      ghost var goal := Drain(Reading());
      while |readBuffer| > 0
        invariant currentMissing > 0 ==> currentStream.Some?
        invariant currentMissing == 0 ==> currentBuffer == []
        invariant Drain(Reading()) == goal
        invariant OutputsMatch() && AllKnown(blocks)
        decreases |readBuffer|
      {
        ghost var d := Reading();
        DrainRound(d);
        if currentMissing > 0 {
          ok := FillBlock();
          if !ok {
            StaysUnknown(blocks, goal.blocks);
            return false;
          }
        }
        assert Reading() == Filled(d);
        if |readBuffer| < 8 { break; }
        currentStream, currentMissing := Some(readBuffer[0]), BigEndian(readBuffer[4..8]);
        readBuffer := readBuffer[8..];
        assert Reading() == ParseHeader(Filled(d));
      }
      ok := true;
    }

    /** One read; `ok` is false when the callback raised. The length is unsigned,
        so the test for a negative length never holds and is not modelled. */
    method Read(recv: Recv) returns (ok: bool)
      requires Readable()
      modifies `eof, `readBuffer, `currentStream, `currentMissing, `currentBuffer, `stdout, `stderr, `blocks
      ensures old(eof) ==> ok && unchanged(this)
      ensures !old(eof) ==> eof == (recv == ZeroReturn || recv == Data([]))
      ensures !old(eof) ==> (ok <==> AllKnown(AfterRecv(old(Reading()), recv).blocks))
      ensures !old(eof) && ok ==> Reading() == AfterRecv(old(Reading()), recv) && Readable()
    {
      if eof { return true; }
      if recv.ZeroReturn? { eof := true; return true; }
      if recv.NoData? { return true; }
      FeedSettled(Reading(), recv.data);
      if |recv.data| == 0 {
        eof := true;
        return true;
      }
      readBuffer := readBuffer + recv.data;
      ok := ParseBuffer();
    }

    method HandleEndOfWriting()
      modifies `endOfWriting, `shutdowns
      ensures Writing() == EndIfDrained(old(Writing()))
    {
      if endOfWriting && |writeBuffer| == 0 {
        endOfWriting := false;
        shutdowns := shutdowns + [Shutdown(|sent|, |given|)];
      }
    }

    /** Sends what the socket takes; `ok` is false when the send raised. */
    method FlushBuffer(outcome: Send) returns (ok: bool)
      modifies `writeBuffer, `endOfWriting, `asksWrite, `sent, `shutdowns
      ensures Writing() == Flush(old(Writing()), outcome)
      ensures ok <==> old(writeBuffer) == [] || outcome.Accepted?
    {
      ok := true;
      if |writeBuffer| > 0 {
        if outcome.Raised? { return false; }
        var written := if outcome.n < |writeBuffer| then outcome.n else |writeBuffer|;
        sent := sent + writeBuffer[..written];
        writeBuffer := writeBuffer[written..];
        asksWrite := |writeBuffer| > 0;
        HandleEndOfWriting();
      }
    }

    method Write(data: bytes, outcome: Send) returns (ok: bool)
      requires Valid()
      modifies `writeBuffer, `endOfWriting, `asksWrite, `sent, `given, `shutdowns
      ensures Valid() && Writing() == Apply(old(Writing()), WriterOp.Write(data, outcome))
      ensures !ok ==> outcome.Raised?
    {
      ApplySound(Writing(), WriterOp.Write(data, outcome));
      given := given + data;
      writeBuffer := writeBuffer + data;
      ok := true;
      if |writeBuffer| == |data| {
        ok := FlushBuffer(outcome);
      }
    }

    method RequestEndOfWriting()
      requires Valid()
      modifies `endOfWriting, `shutdowns
      ensures Valid() && Writing() == Apply(old(Writing()), EndOfWriting)
      ensures old(shutdowns) <= shutdowns && (endOfWriting || |shutdowns| > |old(shutdowns)|)
    {
      ApplySound(Writing(), EndOfWriting);
      endOfWriting := true;
      HandleEndOfWriting();
    }

    /** One select: the read event first, then the write event if it was asked for. */
    method Select(r: Ready) returns (outcome: Outcome)
      requires Valid() && !eof
      modifies this
      ensures eof <==> Ends(r)
      ensures var next := Fed(old(Reading()), r);
              && (outcome == BadStream <==> !AllKnown(next.blocks))
              && (outcome != BadStream ==> Reading() == next && Valid())
      ensures outcome == SendRaised ==> r.send == Some(Raised)
      ensures outcome != BadStream ==>
                Writing() == if r.send.Some? then Apply(old(Writing()), Writable(r.send.value)) else old(Writing())
      ensures outcome == BadStream ==> Writing() == old(Writing())
    {
      if r.recv.Some? {
        var ok := Read(r.recv.value);
        if !ok { return BadStream; }
      }
      if r.send.Some? && asksWrite {
        ApplySound(Writing(), Writable(r.send.value));
        var ok := FlushBuffer(r.send.value);
        if !ok { return SendRaised; }
      }
      outcome := Fine;
    }

    /** The loop of consume: selects until the end of the stream. */
    method Pump(events: seq<Ready>) returns (outcome: Outcome)
      requires Valid() && !eof
      modifies this
      ensures outcome == SendRaised ==> exists r :: r in events && r.send == Some(Raised)
      ensures outcome == BadStream ==> Expected(old(Reading()), false, events) == InvalidStream
      ensures outcome == Fine ==>
                Valid() && Expected(old(Reading()), false, events) == Expected(Reading(), eof, [])
      ensures Sound(Writing()) && old(shutdowns) <= shutdowns
      ensures old(endOfWriting) ==> endOfWriting || |shutdowns| > |old(shutdowns)|
    {
      ghost var goal := Expected(Reading(), false, events);
      outcome := Fine;
      var i := 0;
      assert events[0..] == events;
      while !eof && i < |events|
        invariant 0 <= i <= |events| && outcome == Fine
        invariant Valid()
        invariant goal == Expected(Reading(), eof, events[i..])
        invariant old(shutdowns) <= shutdowns
        invariant old(endOfWriting) ==> EndDue(Writing(), |old(shutdowns)|)
      {
        assert events[i..][1..] == events[i + 1..];
        ReceiveStep(Reading(), events[i..]);
        SelectKeepsEnd(Writing(), events[i], |old(shutdowns)|);
        outcome := Select(events[i]);
        if outcome != Fine { return; }
        i := i + 1;
      }
      assert events[|events|..] == [];
    }

    /** Reads to the end of the stream. The answer is a function of the bytes
        received alone, however they arrived, unless a send raised. */
    method Consume(events: seq<Ready>) returns (sendRaised: bool, result: Consumed)
      requires Valid()
      modifies this
      ensures sendRaised ==> exists r :: r in events && r.send == Some(Raised)
      ensures !sendRaised && old(eof) ==> result == Done([], [])
      ensures !sendRaised && !old(eof) ==>
                result == ConsumeResult(old(Reading()).(blocks := []), Received(events), Ended(events))
      ensures !sendRaised && result != InvalidStream ==> Valid()
      ensures Sound(Writing())
      ensures endOfWriting || |shutdowns| > |old(shutdowns)|
      ensures writeBuffer == [] ==> |shutdowns| > |old(shutdowns)|
    {
      RequestEndOfWriting();
      stdout, stderr, blocks := [], [], [];
      if !eof {
        var outcome := Pump(events);
        if outcome == BadStream { return false, InvalidStream; }
        if outcome == SendRaised { return true, Waiting; }
      }
      sendRaised := false;
      FeedSettled(Reading(), []);
      result := if eof then Done(Concat(stdout), Concat(stderr)) else Waiting;
    }
  }
}
