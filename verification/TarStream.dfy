/** The tar streams that upload one regular file. */
module TarStream {
  import opened Common

  const BLOCKSIZE := 512
  const RECORDSIZE := 10240
  const READSIZE := 65536

  function Zeros(n: nat): (z: bytes)
    ensures |z| == n && forall i :: 0 <= i < n ==> z[i] == 0
  {
    seq(n, _ => 0)
  }

  /** The zeros that fill `n` bytes up to a multiple of `unit`. */
  function Padding(n: nat, unit: nat): (p: nat)
    requires unit == BLOCKSIZE || unit == RECORDSIZE
    ensures p < unit && (n + p) % unit == 0
  {
    if unit == BLOCKSIZE then
      (if n % BLOCKSIZE == 0 then 0 else BLOCKSIZE - n % BLOCKSIZE)
    else
      (if n % RECORDSIZE == 0 then 0 else RECORDSIZE - n % RECORDSIZE)
  }

  /** What the reads deliver while `size` bytes are still wanted: `answers[i]` is
      what the i-th read could return, and an empty read is end of file. */
  function ReadBytes(answers: seq<bytes>, size: nat): (data: bytes)
    ensures |data| <= size
    decreases |answers|
  {
    if size == 0 || answers == [] || answers[0] == [] then []
    else
      var n := Min(|answers[0]|, Min(size, READSIZE));
      answers[0][..n] + ReadBytes(answers[1..], size - n)
  }

  /** Block padding, the two zero blocks that end an archive, record padding. */
  function Trailer(headerSize: nat, size: nat): (t: bytes) {
    var blocks := Padding(size, BLOCKSIZE) + 2 * BLOCKSIZE;
    Zeros(blocks + Padding(headerSize + size + blocks, RECORDSIZE))
  }

  /** Everything the file generator yields. */
  function FileStream(header: bytes, size: nat, answers: seq<bytes>): bytes {
    var data := ReadBytes(answers, size);
    header + data + Zeros(size - |data|) + Trailer(|header|, size)
  }

  /** Everything the content generator yields. */
  function ContentStream(header: bytes, content: bytes): bytes {
    header + content + Trailer(|header|, |content|)
  }

  /** Streaming the file from disk; `size` was announced in the header. */
  method FileTar(header: bytes, size: nat, answers: seq<bytes>) returns (out: bytes)
    ensures out == FileStream(header, size, answers)
  {
    var totalSize := |header|;
    out := header;
    totalSize := totalSize + size;
    var data := StreamReads(size, answers);
    out := out + data;
    if |data| != size {
      out := out + Zeros(size - |data|);
    } else {
      assert Zeros(0) == [];
    }
    out := CloseArchive(out, totalSize, size);
  }

  /** The reading loop: what it yields, joined. */
  method StreamReads(size: nat, answers: seq<bytes>) returns (data: bytes)
    ensures data == ReadBytes(answers, size)
  {
    data := [];
    var left := size;
    var i := 0;
    assert answers[0..] == answers;
    while left > 0
      invariant 0 <= i <= |answers| && 0 <= left <= size
      invariant data + ReadBytes(answers[i..], left) == ReadBytes(answers, size)
      decreases |answers| - i
    {
      var toRead := if left < READSIZE then left else READSIZE;
      if i == |answers| || answers[i] == [] { break; }
      var buf := answers[i][..Min(|answers[i]|, toRead)];
      assert answers[i..][1..] == answers[i + 1..];
      Reassociate(data, buf, ReadBytes(answers[i + 1..], left - |buf|));
      left := left - |buf|;
      data := data + buf;
      i := i + 1;
    }
  }

  /** Sending content that is already in memory. */
  method ContentTar(header: bytes, content: bytes) returns (out: bytes)
    ensures out == ContentStream(header, content)
  {
    out := header + content;
    out := CloseArchive(out, |header| + |content|, |content|);
  }

  /** The steps both generators end with. */
  method CloseArchive(start: bytes, soFar: nat, size: nat) returns (out: bytes)
    requires soFar >= size
    ensures out == start + Trailer(soFar - size, size)
  {
    out := start;
    var totalSize := soFar;
    var remainder := size % BLOCKSIZE;
    if remainder != 0 {
      out := out + Zeros(BLOCKSIZE - remainder);
      totalSize := totalSize + BLOCKSIZE - remainder;
    }
    out := out + Zeros(2 * BLOCKSIZE);
    totalSize := totalSize + 2 * BLOCKSIZE;
    remainder := totalSize % RECORDSIZE;
    if remainder > 0 {
      out := out + Zeros(RECORDSIZE - remainder);
    }
    assert out == start + Zeros(|out| - |start|);
  }

  // ----- what a reader of the archive finds

  /** Where the next header is looked for after a member of `size` bytes. */
  function NextHeader(headerSize: nat, size: nat): nat {
    headerSize + (size + 511) / 512 * 512
  }

  predicate ZeroBetween(s: bytes, from: nat, to: nat) {
    to <= |s| && forall i :: from <= i < to ==> s[i] == 0
  }

  /** A well-formed archive with one member: the header, exactly the announced
      content, zeros to the end of the block, then nothing but zeros, at least
      two blocks and less than two blocks and a record of them, to a record's end. */
  predicate OneMember(s: bytes, header: bytes, content: bytes) {
    var next := NextHeader(|header|, |content|);
    && |s| % 10240 == 0
    && header + content <= s
    && next + 1024 <= |s| < next + 1024 + 10240
    && ZeroBetween(s, |header| + |content|, |s|)
    && (|header| % 512 == 0 ==> next % 512 == 0)
  }

  lemma TrailerCloses(header: bytes, content: bytes)
    ensures OneMember(ContentStream(header, content), header, content)
  {
    var body, t := header + content, Trailer(|header|, |content|);
    TrailerSize(|header|, |content|);
    forall i | |body| <= i < |body + t| ensures (body + t)[i] == 0 {
      assert (body + t)[i] == t[i - |body|];
    }
  }

  lemma TrailerSize(h: nat, n: nat)
    ensures var t := Trailer(h, n);
            && (h + n + |t|) % 10240 == 0
            && NextHeader(h, n) + 1024 <= h + n + |t| < NextHeader(h, n) + 1024 + 10240
            && (h % 512 == 0 ==> NextHeader(h, n) % 512 == 0)
            && forall i :: 0 <= i < |t| ==> t[i] == 0
  {
    var blocks := Padding(n, BLOCKSIZE) + 2 * BLOCKSIZE;
    var p := Padding(h + n + blocks, RECORDSIZE);
    assert |Trailer(h, n)| == blocks + p;
    assert (h + n + blocks + p) % RECORDSIZE == 0;
    assert h + n + blocks + p == h + n + (blocks + p);
    PaddedSize(n);
    BlocksAdd(h, n + Padding(n, BLOCKSIZE));
    assert NextHeader(h, n) == h + (n + Padding(n, BLOCKSIZE));
  }

  /** Padding rounds up to whole blocks. */
  lemma PaddedSize(n: nat)
    ensures n + Padding(n, BLOCKSIZE) == (n + 511) / 512 * 512
  {
  }

  lemma BlocksAdd(a: nat, b: nat)
    requires b % BLOCKSIZE == 0
    ensures a % BLOCKSIZE == 0 ==> (a + b) % BLOCKSIZE == 0
  {
  }

  /** No read answers with more than it was asked for. */
  predicate Bounded(answers: seq<bytes>, size: nat)
    decreases |answers|
  {
    answers == [] || (|answers[0]| <= Min(size, READSIZE) && Bounded(answers[1..], size - |answers[0]|))
  }

  /** Short reads do not matter: the bytes read are those the reads returned up
      to the first empty one. */
  lemma {:induction false} ReadsJoined(answers: seq<bytes>, size: nat)
    requires Bounded(answers, size) && forall a :: a in answers ==> a != []
    ensures ReadBytes(answers, size) == Concat(answers)
    decreases |answers|
  {
    if answers != [] {
      assert answers[0] in answers && forall a :: a in answers[1..] ==> a in answers;
      assert answers[0][..|answers[0]|] == answers[0];
      ReadsJoined(answers[1..], size - |answers[0]|);
    }
  }

  /** And what the file holds after its end is reached early is not read. */
  lemma {:induction false} ReadsUpToEnd(before: seq<bytes>, after: seq<bytes>, size: nat)
    requires Bounded(before, size) && forall a :: a in before ==> a != []
    ensures ReadBytes(before + [[]] + after, size) == Concat(before)
    decreases |before|
  {
    var answers := before + [[]] + after;
    if before == [] {
      assert answers[0] == [];
    } else {
      assert before[0] in before && forall a :: a in before[1..] ==> a in before;
      assert answers[0] == before[0] && answers[1..] == before[1..] + [[]] + after;
      assert before[0][..|before[0]|] == before[0];
      ReadsUpToEnd(before[1..], after, size - |before[0]|);
    }
  }

  /** Whatever the file does while it is read, the archive holds one member of
      exactly the announced size: the bytes that were read, then zeros. */
  lemma {:induction false} FileArchive(header: bytes, size: nat, answers: seq<bytes>)
    ensures var data := ReadBytes(answers, size); var fill := Zeros(size - |data|);
            OneMember(FileStream(header, size, answers), header, data + fill)
  {
    var data := ReadBytes(answers, size);
    var fill := Zeros(size - |data|);
    TrailerCloses(header, data + fill);
    assert header + (data + fill) == header + data + fill;
  }

  /** An unchanged file is streamed, after its header, byte for byte as the same
      content from memory would be, however the reads are cut. */
  lemma {:induction false} GeneratorsAgree(fileHeader: bytes, contentHeader: bytes, content: bytes, answers: seq<bytes>)
    requires |fileHeader| == |contentHeader|
    requires Concat(answers) == content && Bounded(answers, |content|) && forall a :: a in answers ==> a != []
    ensures fileHeader <= FileStream(fileHeader, |content|, answers)
    ensures contentHeader <= ContentStream(contentHeader, content)
    ensures FileStream(fileHeader, |content|, answers)[|fileHeader|..] ==
        ContentStream(contentHeader, content)[|contentHeader|..]
  {
    ReadsJoined(answers, |content|);
    assert Zeros(0) == [];
    assert FileStream(fileHeader, |content|, answers) == fileHeader + (content + Trailer(|fileHeader|, |content|));
    assert ContentStream(contentHeader, content) == contentHeader + (content + Trailer(|contentHeader|, |content|));
  }
}
