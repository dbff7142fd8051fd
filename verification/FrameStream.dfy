/**
 * The framing of Docker's attach stream: an 8-byte header (stream id, three
 * ignored bytes, big-endian payload length) followed by the payload.
 *
 * `Drain` is what the reading loop computes; `Fold` is an independent
 * byte-at-a-time automaton that it is proved equal to.
 */
module FrameStream {
  import opened Common

  const HEADER := 8

  datatype Block = Block(stream: byte, data: bytes)

  /** The reading side: current stream, payload bytes still missing, payload
      collected so far, unparsed bytes, and the blocks handed to the callback. */
  datatype Demux = Demux(stream: Option<byte>, missing: nat, partial: bytes, leftover: bytes, blocks: seq<Block>)

  const FRESH := Demux(None, 0, [], [], [])

  /** What holds between two reads. */
  predicate Settled(d: Demux) {
    && (d.missing > 0 ==> d.leftover == [])
    && (d.missing == 0 ==> d.partial == [] && |d.leftover| < HEADER)
    && (d.missing > 0 ==> d.stream.Some?)
  }

  function BigEndian(h: bytes): (n: nat)
    requires |h| == 4
  {
    var (a: int, b: int, c: int) := (h[0], h[1], h[2]);
    a * 0x100_0000 + b * 0x1_0000 + c * 0x100 + h[3]
  }

  function ToBigEndian(n: nat): (h: bytes)
    requires n < 0x1_0000_0000
    ensures |h| == 4 && BigEndian(h) == n
  {
    var q := n / 0x100;
    var p := q / 0x100;
    [p / 0x100, p % 0x100, q % 0x100, n % 0x100]
  }

  /** Moves payload bytes from the unparsed bytes to the current block and
      delivers the block when it is complete. */
  function TakePayload(d: Demux): Demux
    requires d.missing > 0 && d.stream.Some?
  {
    var n := if |d.leftover| < d.missing then |d.leftover| else d.missing;
    var data := d.partial + d.leftover[..n];
    if n == d.missing then
      d.(leftover := d.leftover[n..], missing := 0, partial := [], blocks := d.blocks + [Block(d.stream.value, data)])
    else
      d.(leftover := d.leftover[n..], missing := d.missing - n, partial := data)
  }

  function ParseHeader(d: Demux): Demux
    requires |d.leftover| >= HEADER
  {
    d.(stream := Some(d.leftover[0]), missing := BigEndian(d.leftover[4..8]), leftover := d.leftover[HEADER..])
  }

  /** The payload part of a round of the loop. */
  function Filled(d: Demux): Demux
    requires d.missing > 0 ==> d.stream.Some?
  {
    if d.missing > 0 then TakePayload(d) else d
  }

  /** The reading loop: payload, header, payload, header, ... */
  function Drain(d: Demux): Demux
    requires d.missing > 0 ==> d.stream.Some?
    decreases |d.leftover|
  {
    if d.leftover == [] then d else
    var e := Filled(d);
    if |e.leftover| < HEADER then e else Drain(ParseHeader(e))
  }

  /** One read of `data`. */
  function Feed(d: Demux, data: bytes): Demux
    requires Settled(d)
  {
    Drain(d.(leftover := d.leftover + data))
  }

  // ----- the byte-at-a-time automaton

  function Step(d: Demux, b: byte): (r: Demux)
    requires Settled(d)
    ensures Settled(r)
  {
    if d.missing > 1 then
      d.(missing := d.missing - 1, partial := d.partial + [b])
    else if d.missing == 1 then
      d.(missing := 0, partial := [], blocks := d.blocks + [Block(d.stream.value, d.partial + [b])])
    else if |d.leftover| == HEADER - 1 then
      var h := d.leftover + [b];
      d.(stream := Some(h[0]), missing := BigEndian(h[4..8]), leftover := [])
    else
      d.(leftover := d.leftover + [b])
  }

  function Fold(d: Demux, data: bytes): (r: Demux)
    requires Settled(d)
    ensures Settled(r)
    decreases |data|
  {
    if data == [] then d else Fold(Step(d, data[0]), data[1..])
  }

  lemma {:induction false} FoldAppend(d: Demux, a: bytes, b: bytes)
    requires Settled(d)
    ensures Fold(d, a + b) == Fold(Fold(d, a), b)
    decreases |a|
  {
    if a == [] {
      assert a + b == b;
    } else {
      assert (a + b)[1..] == a[1..] + b;
      FoldAppend(Step(d, a[0]), a[1..], b);
    }
  }

  /** Fewer bytes than a header completes are only kept. */
  lemma {:induction false} FoldShort(d: Demux, data: bytes)
    requires Settled(d) && d.missing == 0 && |d.leftover| + |data| < HEADER
    ensures Fold(d, data) == d.(leftover := d.leftover + data)
    decreases |data|
  {
    if data == [] {
      assert d.leftover + data == d.leftover;
    } else {
      FoldShort(Step(d, data[0]), data[1..]);
      assert d.leftover + [data[0]] + data[1..] == d.leftover + data;
    }
  }

  lemma {:induction false} FoldHeader(d: Demux, h: bytes)
    requires Settled(d) && d.missing == 0 && d.leftover == [] && |h| == HEADER
    ensures Fold(d, h) == d.(stream := Some(h[0]), missing := BigEndian(h[4..8]))
  {
    FoldAppend(d, h[..7], h[7..]);
    assert h[..7] + h[7..] == h;
    FoldShort(d, h[..7]);
    var e := Fold(d, h[..7]);
    assert e.leftover == h[..7];
    assert h[..7] + [h[7]] == h;
    assert Fold(e, h[7..]) == Step(e, h[7]);
  }

  /** Payload bytes up to the end of the block. */
  lemma {:induction false} FoldPayload(d: Demux, data: bytes)
    requires Settled(d) && d.missing > 0 && |data| <= d.missing
    ensures |data| < d.missing ==> Fold(d, data) == d.(missing := d.missing - |data|, partial := d.partial + data)
    ensures |data| == d.missing ==>
              Fold(d, data) ==
                d.(missing := 0, partial := [], blocks := d.blocks + [Block(d.stream.value, d.partial + data)])
    decreases |data|
  {
    if data == [] {
      assert d.partial + data == d.partial;
    } else {
      assert d.partial + [data[0]] + data[1..] == d.partial + data;
      if d.missing > 1 {
        FoldPayload(Step(d, data[0]), data[1..]);
      } else {
        assert data == [data[0]];
      }
    }
  }

  /** The loop computes what the automaton computes. */
  lemma {:induction false} DrainIsFold(d: Demux)
    requires d.missing > 0 ==> d.stream.Some?
    requires d.missing == 0 ==> d.partial == []
    ensures Drain(d) == Fold(d.(leftover := []), d.leftover)
    decreases |d.leftover|
  {
    if d.leftover == [] { return; }
    var bare := d.(leftover := []);
    if d.missing > 0 {
      var n := if |d.leftover| < d.missing then |d.leftover| else d.missing;
      FoldPayload(bare, d.leftover[..n]);
      FoldAppend(bare, d.leftover[..n], d.leftover[n..]);
      assert d.leftover[..n] + d.leftover[n..] == d.leftover;
      var e := TakePayload(d);
      assert Fold(bare, d.leftover[..n]) == e.(leftover := []);
      DrainAfterPayload(e);
    } else {
      DrainAfterPayload(d);
    }
  }

  lemma {:induction false} DrainAfterPayload(e: Demux)
    requires e.missing > 0 ==> e.leftover == []
    requires e.missing == 0 ==> e.partial == []
    requires e.missing > 0 ==> e.stream.Some?
    ensures (if |e.leftover| < HEADER then e else Drain(ParseHeader(e))) == Fold(e.(leftover := []), e.leftover)
    decreases |e.leftover|, 0
  {
    if |e.leftover| >= HEADER {
      var h, rest := e.leftover[..HEADER], e.leftover[HEADER..];
      assert h + rest == e.leftover;
      assert h[4..8] == e.leftover[4..8];
      FoldHeader(e.(leftover := []), h);
      FoldAppend(e.(leftover := []), h, rest);
      DrainIsFold(ParseHeader(e));
    } else if e.missing == 0 {
      FoldShort(e.(leftover := []), e.leftover);
    }
  }

  lemma {:induction false} FeedIsFold(d: Demux, data: bytes)
    requires Settled(d)
    ensures Feed(d, data) == Fold(d, data)
  {
    var all := d.leftover + data;
    DrainIsFold(d.(leftover := all));
    FoldAppend(d.(leftover := []), d.leftover, data);
    if d.missing == 0 {
      FoldShort(d.(leftover := []), d.leftover);
      assert [] + d.leftover == d.leftover;
    } else {
      assert all == data;
    }
  }

  lemma FeedSettled(d: Demux, data: bytes)
    requires Settled(d)
    ensures Settled(Feed(d, data)) && Feed(d, []) == d
  {
    FeedIsFold(d, data);
    FeedIsFold(d, []);
  }

  function FeedAll(d: Demux, chunks: seq<bytes>): (r: Demux)
    requires Settled(d)
    decreases |chunks|
  {
    if chunks == [] then d else
    FeedSettled(d, chunks[0]); FeedAll(Feed(d, chunks[0]), chunks[1..])
  }

  /** Chunk boundaries do not matter: the whole state after any sequence of
      reads is the state after one read of everything. */
  lemma {:induction false} ChunkingIrrelevant(d: Demux, chunks: seq<bytes>)
    requires Settled(d)
    ensures FeedAll(d, chunks) == Feed(d, Concat(chunks))
    decreases |chunks|
  {
    FeedIsFold(d, Concat(chunks));
    if chunks != [] {
      FeedIsFold(d, chunks[0]);
      var e := Feed(d, chunks[0]);
      ChunkingIrrelevant(e, chunks[1..]);
      FeedIsFold(e, Concat(chunks[1..]));
      FoldAppend(d, chunks[0], Concat(chunks[1..]));
    }
  }

  lemma {:induction false} FoldExtendsBlocks(d: Demux, data: bytes)
    requires Settled(d)
    ensures d.blocks <= Fold(d, data).blocks
    decreases |data|
  {
    if data != [] { FoldExtendsBlocks(Step(d, data[0]), data[1..]); }
  }

  /** One round of the loop. */
  lemma {:induction false} DrainRound(d: Demux)
    requires d.leftover != [] && (d.missing > 0 ==> d.stream.Some?) && (d.missing == 0 ==> d.partial == [])
    ensures Drain(d) == if |Filled(d).leftover| < HEADER then Filled(d) else Drain(ParseHeader(Filled(d)))
    ensures Filled(d).missing > 0 ==> Filled(d).stream.Some? && Filled(d).leftover == []
    ensures Filled(d).missing == 0 ==> Filled(d).partial == []
    ensures |Filled(d).leftover| <= |d.leftover| && Filled(d).blocks <= Drain(d).blocks
  {
    if d.missing > 0 { PayloadDelivered(d); } else { DrainExtends(d); }
  }

  lemma DrainExtends(d: Demux)
    requires (d.missing > 0 ==> d.stream.Some?) && (d.missing == 0 ==> d.partial == [])
    ensures d.blocks <= Drain(d).blocks
  {
    DrainIsFold(d);
    FoldExtendsBlocks(d.(leftover := []), d.leftover);
  }

  /** A block delivered in a round of the loop is among the final blocks. */
  lemma PayloadDelivered(d: Demux)
    requires d.missing > 0 && d.stream.Some? && d.leftover != []
    ensures TakePayload(d).blocks <= Drain(d).blocks
  {
    var e := TakePayload(d);
    DrainAfterPayload(e);
    FoldExtendsBlocks(e.(leftover := []), e.leftover);
  }

  // ----- frames

  /** A frame as the Docker Engine API's attach stream carries it. */
  datatype Frame = Frame(stream: byte, payload: bytes)

  predicate Encodable(f: Frame) {
    |f.payload| < 0x1_0000_0000
  }

  function EncodeFrame(f: Frame): (e: bytes)
    requires Encodable(f)
  {
    [f.stream, 0, 0, 0] + ToBigEndian(|f.payload|) + f.payload
  }

  function Encode(fs: seq<Frame>): bytes
    requires forall f :: f in fs ==> Encodable(f)
  {
    if fs == [] then [] else EncodeFrame(fs[0]) + Encode(fs[1..])
  }

  /** The blocks a list of frames stands for: empty payloads are not delivered. */
  function BlocksOf(fs: seq<Frame>): seq<Block> {
    if fs == [] then []
    else (if fs[0].payload == [] then [] else [Block(fs[0].stream, fs[0].payload)]) + BlocksOf(fs[1..])
  }

  predicate AtBoundary(d: Demux) {
    d.missing == 0 && d.partial == [] && d.leftover == []
  }

  lemma {:induction false} FoldFrame(d: Demux, f: Frame)
    requires AtBoundary(d) && Encodable(f)
    ensures Fold(d, EncodeFrame(f)) == d.(stream := Some(f.stream), blocks := d.blocks + BlocksOf([f]))
  {
    var h := [f.stream, 0, 0, 0] + ToBigEndian(|f.payload|);
    assert h[4..8] == ToBigEndian(|f.payload|);
    FoldHeader(d, h);
    FoldAppend(d, h, f.payload);
    assert h + f.payload == EncodeFrame(f);
    assert BlocksOf([f]) == if f.payload == [] then [] else [Block(f.stream, f.payload)];
    if f.payload != [] {
      FoldPayload(Fold(d, h), f.payload);
      assert [] + f.payload == f.payload;
    }
  }

  /** A frame that is cut short delivers nothing. */
  lemma {:induction false} FoldCutFrame(d: Demux, f: Frame, cut: bytes)
    requires AtBoundary(d) && Encodable(f) && cut < EncodeFrame(f)
    ensures Fold(d, cut).blocks == d.blocks
  {
    if |cut| < HEADER {
      FoldShort(d, cut);
    } else {
      var h := [f.stream, 0, 0, 0] + ToBigEndian(|f.payload|);
      assert cut[..HEADER] == EncodeFrame(f)[..HEADER] == h;
      assert h[4..8] == ToBigEndian(|f.payload|);
      assert cut == h + cut[HEADER..];
      FoldHeader(d, h);
      FoldAppend(d, h, cut[HEADER..]);
      FoldPayload(Fold(d, h), cut[HEADER..]);
    }
  }

  /** Any list of frames, followed by a cut frame or nothing, delivers exactly
      the non-empty payloads, in order, each under its own stream id. */
  lemma {:induction false} FoldFrames(d: Demux, fs: seq<Frame>, last: Frame, cut: bytes)
    requires AtBoundary(d) && (forall f :: f in fs ==> Encodable(f))
    requires Encodable(last) && cut < EncodeFrame(last)
    ensures Fold(d, Encode(fs) + cut).blocks == d.blocks + BlocksOf(fs)
    decreases |fs|
  {
    if fs == [] {
      assert Encode(fs) + cut == cut;
      FoldCutFrame(d, last, cut);
    } else {
      Reassociate(EncodeFrame(fs[0]), Encode(fs[1..]), cut);
      FoldFrame(d, fs[0]);
      FoldAppend(d, EncodeFrame(fs[0]), Encode(fs[1..]) + cut);
      FoldFrames(Fold(d, EncodeFrame(fs[0])), fs[1..], last, cut);
      assert BlocksOf(fs) == BlocksOf([fs[0]]) + BlocksOf(fs[1..]);
      Reassociate(d.blocks, BlocksOf([fs[0]]), BlocksOf(fs[1..]));
    }
  }

  // ----- the two outputs of consume

  const STDOUT: byte := 1
  const STDERR: byte := 2

  predicate Known(b: Block) {
    b.stream == STDOUT || b.stream == STDERR
  }

  predicate AllKnown(bs: seq<Block>) {
    forall b :: b in bs ==> Known(b)
  }

  /** Every frame that carries anything belongs to a known stream. */
  predicate AllDeliverable(fs: seq<Frame>) {
    forall f :: f in fs && f.payload != [] ==> f.stream == 1 || f.stream == 2
  }

  /** The payloads of one stream, joined in order of delivery. */
  function Payloads(bs: seq<Block>, id: byte): bytes {
    if bs == [] then [] else (if bs[0].stream == id then bs[0].data else []) + Payloads(bs[1..], id)
  }

  lemma {:induction false} PayloadsAppend(bs: seq<Block>, b: Block, id: byte)
    ensures Payloads(bs + [b], id) == Payloads(bs, id) + (if b.stream == id then b.data else [])
  {
    if bs == [] {
      assert bs + [b] == [b];
    } else {
      assert (bs + [b])[1..] == bs[1..] + [b];
      PayloadsAppend(bs[1..], b, id);
      Reassociate(if bs[0].stream == id then bs[0].data else [], Payloads(bs[1..], id),
                  if b.stream == id then b.data else []);
    }
  }

  /** The frame payloads of one stream, joined. */
  function FramePayloads(fs: seq<Frame>, id: byte): bytes {
    if fs == [] then [] else (if fs[0].stream == id then fs[0].payload else []) + FramePayloads(fs[1..], id)
  }

  lemma {:induction false} BlocksKeepPayloads(fs: seq<Frame>, id: byte)
    ensures Payloads(BlocksOf(fs), id) == FramePayloads(fs, id)
    ensures AllKnown(BlocksOf(fs)) <==> AllDeliverable(fs)
  {
    if fs != [] {
      BlocksKeepPayloads(fs[1..], id);
      assert forall f :: f in fs <==> f == fs[0] || f in fs[1..];
      var rest := BlocksOf(fs[1..]);
      if fs[0].payload != [] {
        var b := Block(fs[0].stream, fs[0].payload);
        assert BlocksOf(fs) == [b] + rest;
        assert BlocksOf(fs)[1..] == rest && BlocksOf(fs)[0] == b;
        assert forall x :: x in BlocksOf(fs) <==> x == b || x in rest;
        assert Known(b) <==> b.stream == STDOUT || b.stream == STDERR;
      } else {
        assert BlocksOf(fs) == rest;
      }
    }
  }

  datatype Consumed = Done(stdout: bytes, stderr: bytes) | InvalidStream | Waiting

  /** What consume answers after the bytes `data`, when the peer has (or has
      not yet) ended the stream. */
  function ConsumeResult(d: Demux, data: bytes, ended: bool): Consumed
    requires Settled(d)
  {
    var bs := Feed(d, data).blocks;
    if !AllKnown(bs) then InvalidStream
    else if ended then Done(Payloads(bs, STDOUT), Payloads(bs, STDERR))
    else Waiting
  }

  /** Round trip through the wire format, for every split into reads: the two
      outputs are the two streams' payloads, or the call fails, and it fails
      exactly when a non-empty frame belongs to no known stream. */
  lemma {:induction false} ConsumeRoundTrip(fs: seq<Frame>, last: Frame, cut: bytes, chunks: seq<bytes>)
    requires forall f :: f in fs ==> Encodable(f)
    requires Encodable(last) && cut < EncodeFrame(last)
    requires Concat(chunks) == Encode(fs) + cut
    ensures FeedAll(FRESH, chunks).blocks == BlocksOf(fs)
    ensures ConsumeResult(FRESH, Concat(chunks), true) ==
            if AllDeliverable(fs)
            then Done(FramePayloads(fs, 1), FramePayloads(fs, 2)) else InvalidStream
  {
    ChunkingIrrelevant(FRESH, chunks);
    FeedIsFold(FRESH, Concat(chunks));
    FoldFrames(FRESH, fs, last, cut);
    assert FRESH.blocks + BlocksOf(fs) == BlocksOf(fs);
    BlocksKeepPayloads(fs, STDOUT);
    BlocksKeepPayloads(fs, STDERR);
  }
}
