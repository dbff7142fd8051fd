/** A raw reader over a generator of byte chunks. */
module ChunkReader {
  import opened Common

  /** Bytes held back from the last chunk, and the chunks not yet generated. */
  datatype Source = Source(held: bytes, chunks: seq<bytes>)

  /** Everything that is still to be delivered. */
  function Pending(s: Source): bytes {
    s.held + Concat(s.chunks)
  }

  /** The bytes one read of at most `length` delivers: it takes a new chunk only
      when what is held does not fill the buffer. */
  function Delivered(s: Source, length: nat): bytes {
    if length <= |s.held| || s.chunks == [] then s.held[..Min(length, |s.held|)]
    else (s.held + s.chunks[0])[..Min(length, |s.held| + |s.chunks[0]|)]
  }

  function After(s: Source, length: nat): Source {
    if length <= |s.held| || s.chunks == [] then Source(s.held[Min(length, |s.held|)..], s.chunks)
    else Source((s.held + s.chunks[0])[Min(length, |s.held| + |s.chunks[0]|)..], s.chunks[1..])
  }

  /** The next read is at the end of the stream, or the generator yields an
      empty chunk right there. */
  predicate Starved(s: Source) {
    s.held == [] && (s.chunks == [] || s.chunks[0] == [])
  }

  /** Nothing is lost or repeated by a read, and a read into a non-empty buffer
      delivers nothing exactly when it is starved. */
  lemma ReadConserves(s: Source, length: nat)
    ensures Delivered(s, length) + Pending(After(s, length)) == Pending(s)
    ensures |Delivered(s, length)| <= length
    ensures length > 0 ==> (Delivered(s, length) == [] <==> Starved(s))
  {
    if length <= |s.held| || s.chunks == [] {
      var n := Min(length, |s.held|);
      assert s.held[..n] + (s.held[n..] + Concat(s.chunks)) == s.held + Concat(s.chunks);
    } else {
      var all := s.held + s.chunks[0];
      var n := Min(length, |all|);
      assert all[..n] + (all[n..] + Concat(s.chunks[1..])) == all + Concat(s.chunks[1..]);
      assert all + Concat(s.chunks[1..]) == s.held + (s.chunks[0] + Concat(s.chunks[1..]));
    }
  }

  /** How much one read delivers: all there is room for from what is held and, when
      that does not fill the buffer, from one more chunk, which is then taken. Being
      the front of what was pending (`ReadConserves`), it is determined by that. */
  lemma ReadDeliversExactly(s: Source, length: nat)
    ensures var n, t := |Delivered(s, length)|, After(s, length);
            if length <= |s.held| then n == length && t.chunks == s.chunks
            else if s.chunks == [] then n == |s.held| && t == Source([], [])
            else
              && t.chunks == s.chunks[1..]
              && n == Min(length, |s.held| + |s.chunks[0]|)
              && (n < length ==> t.held == [])
    ensures Delivered(s, length) <= Pending(s)
  {
    ReadConserves(s, length);
  }

  /** Enough reads into buffers that are not empty deliver the whole stream. */
  lemma {:induction false} ReadsFinish(s: Source, lengths: seq<nat>)
    requires NoEmptyChunk(s) && |lengths| >= |Pending(s)| && forall n :: n in lengths ==> n > 0
    ensures DeliveredBy(s, lengths) == Pending(s)
    decreases |lengths|
  {
    if lengths == [] {
      assert Pending(s) == [];
    } else {
      var t := After(s, lengths[0]);
      assert lengths[0] in lengths && forall n :: n in lengths[1..] ==> n in lengths;
      assert forall c :: c in t.chunks ==> c in s.chunks;
      ReadConserves(s, lengths[0]);
      StarvedAtEnd(s);
      assert |Pending(s)| == |Delivered(s, lengths[0])| + |Pending(t)|;
      ReadsFinish(t, lengths[1..]);
    }
  }

  function DeliveredBy(s: Source, lengths: seq<nat>): bytes
    decreases |lengths|
  {
    if lengths == [] then [] else Delivered(s, lengths[0]) + DeliveredBy(After(s, lengths[0]), lengths[1..])
  }

  function AfterAll(s: Source, lengths: seq<nat>): Source
    decreases |lengths|
  {
    if lengths == [] then s else AfterAll(After(s, lengths[0]), lengths[1..])
  }

  predicate NoEmptyChunk(s: Source) {
    forall c :: c in s.chunks ==> c != []
  }

  /** Over any series of buffer lengths, delivered plus still pending is the
      whole stream. */
  lemma {:induction false} ReadsConserve(s: Source, lengths: seq<nat>)
    ensures DeliveredBy(s, lengths) + Pending(AfterAll(s, lengths)) == Pending(s)
    decreases |lengths|
  {
    if lengths != [] {
      var t := After(s, lengths[0]);
      ReadConserves(s, lengths[0]);
      ReadsConserve(t, lengths[1..]);
      Reassociate(Delivered(s, lengths[0]), DeliveredBy(t, lengths[1..]), Pending(AfterAll(t, lengths[1..])));
    }
  }

  lemma {:induction false} ReadsKeepChunks(s: Source, lengths: seq<nat>)
    requires NoEmptyChunk(s)
    ensures NoEmptyChunk(AfterAll(s, lengths))
    decreases |lengths|
  {
    if lengths != [] {
      assert forall c :: c in After(s, lengths[0]).chunks ==> c in s.chunks;
      ReadsKeepChunks(After(s, lengths[0]), lengths[1..]);
    }
  }

  lemma StarvedAtEnd(s: Source)
    requires NoEmptyChunk(s)
    ensures Starved(s) <==> Pending(s) == []
  {
    if s.chunks != [] {
      assert s.chunks[0] in s.chunks;
      assert |Concat(s.chunks)| >= |s.chunks[0]|;
    }
  }

  lemma NothingPending(delivered: bytes, pending: bytes, all: bytes)
    requires delivered + pending == all
    ensures pending == [] <==> delivered == all
  {
    assert |all| == |delivered| + |pending|;
  }

  /** With non-empty chunks, after any series of reads an empty answer for a
      non-empty buffer means exactly that everything had been delivered. */
  lemma EmptyOnlyAtEnd(s: Source, lengths: seq<nat>, next: nat)
    requires NoEmptyChunk(s) && next > 0
    ensures Delivered(AfterAll(s, lengths), next) == [] <==> DeliveredBy(s, lengths) == Pending(s)
  {
    var t := AfterAll(s, lengths);
    ReadsConserve(s, lengths);
    ReadsKeepChunks(s, lengths);
    ReadConserves(t, next);
    StarvedAtEnd(t);
    NothingPending(DeliveredBy(s, lengths), Pending(t), Pending(s));
  }

  lemma TakeAcross(h: bytes, c: bytes, n: nat)
    requires |h| <= n <= |h| + |c|
    ensures (h + c)[..n] == h + c[..n - |h|] && (h + c)[n..] == c[n - |h|..]
  {
  }

  class RawGeneratorFileobj {
    var stream: seq<bytes>
    var buf: bytes

    ghost function State(): Source reads this {
      Source(buf, stream)
    }

    constructor (chunks: seq<bytes>)
      ensures State() == Source([], chunks)
    {
      stream, buf := chunks, [];
    }

    method ReadIntoFromBuf(b: array<byte>, index: nat, length: nat) returns (next: nat)
      requires index <= length == b.Length
      modifies b, `buf
      ensures next == index + Min(length - index, |old(buf)|)
      ensures b[..] == old(b[..index]) + old(buf)[..next - index] + old(b[next..])
      ensures buf == old(buf)[next - index..]
    {
      var cpy := if length - index < |buf| then length - index else |buf|;
      if cpy != 0 {
        forall k | 0 <= k < cpy { b[index + k] := buf[k]; }
        buf := buf[cpy..];
      }
      next := index + cpy;
    }

    /** Fills `b` from the front and leaves the rest of it alone. */
    method ReadInto(b: array<byte>) returns (n: nat)
      modifies b, this
      ensures n <= b.Length
      ensures b[..n] == Delivered(old(State()), b.Length) && State() == After(old(State()), b.Length)
      ensures b[n..] == old(b[n..])
    {
      var length := b.Length;
      var index := ReadIntoFromBuf(b, 0, length);
      assert b[..index] == old(buf)[..index];
      if index == length { return index; }
      if stream == [] { return index; }
      ghost var held, chunk := old(buf), stream[0];
      n := ReadNextChunk(b, index, length);
      TakeAcross(held, chunk, n);
    }

    /** The rest of the buffer from the next chunk. */
    method ReadNextChunk(b: array<byte>, index: nat, length: nat) returns (n: nat)
      requires index < length == b.Length && stream != [] && buf == []
      modifies b, this
      ensures n == index + Min(length - index, |old(stream[0])|)
      ensures b[..n] == old(b[..index]) + old(stream[0])[..n - index] && b[n..] == old(b[n..])
      ensures buf == old(stream[0])[n - index..] && stream == old(stream)[1..]
    {
      buf := buf + stream[0];
      assert buf == old(stream[0]);
      stream := stream[1..];
      n := ReadIntoFromBuf(b, index, length);
    }
  }
}
