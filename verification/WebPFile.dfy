/** WebP files laid out as chunks, read back by the walker (src/image/container.rs:36-62). */
module WebPFile {
  import opened Wrappers
  import opened Endian
  import opened Container
  import opened ColorProfile

  // Chunks as a writer lays them out.

  function Le(n: nat, width: nat): (b: Bytes)
    ensures |b| == width
  {
    if width == 0 then [] else [(n % 256) as byte] + Le(n / 256, width - 1)
  }

  lemma {:induction false} LeRoundTrip(n: nat, width: nat)
    requires n < Limit(width)
    ensures LeValue(Le(n, width)) == n
  {
    if width > 0 {
      LeRoundTrip(n / 256, width - 1);
      assert Le(n, width)[1..] == Le(n / 256, width - 1);
    }
  }

  datatype Chunk = Chunk(kind: Bytes, data: Bytes)

  /** A four-byte type, and a length that fits where it is stated. */
  predicate CanBeLaid(c: Chunk) {
    |c.kind| == 4 && |c.data| < Limit(4)
  }

  function ChunkHeader(c: Chunk): Bytes {
    c.kind + Le(|c.data|, 4)
  }

  /** One byte after data of an odd length. */
  function Padding(c: Chunk): Bytes {
    if |c.data| % 2 == 1 then [0] else []
  }

  function LayChunk(c: Chunk): Bytes {
    ChunkHeader(c) + c.data + Padding(c)
  }

  function LayFile(size: Bytes, body: Bytes): Bytes {
    RIFF + size + WEBP + body
  }

  /** The flags of an extended file: whether a profile follows, and the bits above and below. */
  function Flags(profile: bool, high: nat, low: nat): nat {
    64 * high + (if profile then 32 else 0) + low
  }

  lemma HeaderRead(c: Chunk, tail: Bytes)
    requires CanBeLaid(c)
    ensures var b := ChunkHeader(c) + tail;
            |b| == 8 + |tail| && b[..4] == c.kind && LeValue(b[4..8]) == |c.data| && b[8..] == tail
  {
    LeRoundTrip(|c.data|, 4);
    var b := ChunkHeader(c) + tail;
    hide Le, LeValue;
    assert b[4..8] == Le(|c.data|, 4);
  }

  /** A chunk is read back with its data, however long, and what follows it, with its padding passed over. */
  lemma NextLaidChunk(c: Chunk, rest: Bytes)
    requires CanBeLaid(c)
    ensures NextChunk(LayChunk(c) + rest) == At(c.kind, c.data, rest)
  {
    var tail := c.data + Padding(c) + rest;
    HeaderRead(c, tail);
    var b := ChunkHeader(c) + tail;
    hide ChunkHeader, LeValue;
    assert LayChunk(c) + rest == b;
    assert b[8..8 + |c.data|] == tail[..|c.data|] == c.data;
    var padded := 8 + |c.data| + |c.data| % 2;
    assert b[padded..] == tail[padded - 8..] == rest;
  }

  /** A chunk whose data has not all arrived is not read at all. */
  lemma CutChunk(c: Chunk, n: nat)
    requires CanBeLaid(c) && n < 8 + |c.data|
    ensures NextChunk((ChunkHeader(c) + c.data)[..n]) == Truncated
  {
    if n >= 8 {
      var b := (ChunkHeader(c) + c.data)[..n];
      HeaderRead(c, c.data[..n - 8]);
      assert b == ChunkHeader(c) + c.data[..n - 8];
    }
  }

  lemma FileApart(size: Bytes, body: Bytes, icc: Bytes -> Option<string>)
    requires |size| == 4
    ensures WebP(LayFile(size, body), icc) == Chunks(body, true, icc)
  {
    var b := LayFile(size, body);
    assert b[..4] == RIFF && b[8..12] == WEBP && b[12..] == body;
    hide Chunks;
  }

  lemma FlagsRead(flags: byte, profile: bool, high: nat, low: nat, more: Bytes)
    requires flags as nat == Flags(profile, high, low) && low < 32
    ensures SaysIcc([flags] + more) <==> profile
  {
    assert flags as nat / 32 == 2 * high + if profile then 1 else 0;
  }

  lemma AfterHeader(header: Chunk, rest: Bytes, profile: bool, high: nat, low: nat, icc: Bytes -> Option<string>)
    requires CanBeLaid(header) && header.kind == VP8X && header.data != [] && low < 32
    requires header.data[0] as nat == Flags(profile, high, low)
    ensures Chunks(LayChunk(header) + rest, true, icc) == if profile then Chunks(rest, false, icc) else Decided(None)
  {
    NextLaidChunk(header, rest);
    FlagsRead(header.data[0], profile, high, low, header.data[1..]);
    assert header.data == [header.data[0]] + header.data[1..];
    hide NextChunk, LayChunk, SaysIcc;
  }

  /** An extended file that says so has the profile of its second chunk, whatever the profile's length and whatever
      follows; and none when that is no profile. */
  lemma ProfileReadBack(size: Bytes, header: Chunk, high: nat, low: nat, second: Chunk, rest: Bytes,
                        icc: Bytes -> Option<string>)
    requires |size| == 4 && CanBeLaid(header) && CanBeLaid(second) && low < 32
    requires header.kind == VP8X && header.data != [] && header.data[0] as nat == Flags(true, high, low)
    ensures WebP(LayFile(size, LayChunk(header) + (LayChunk(second) + rest)), icc)
            == Decided(if second.kind == ICCP then icc(second.data) else None)
  {
    FileApart(size, LayChunk(header) + (LayChunk(second) + rest), icc);
    AfterHeader(header, LayChunk(second) + rest, true, high, low, icc);
    NextLaidChunk(second, rest);
    hide NextChunk, LayChunk, WebP, LayFile;
  }

  /** An extended file that does not say so has none, whatever follows. */
  lemma NotDeclared(size: Bytes, header: Chunk, high: nat, low: nat, rest: Bytes, icc: Bytes -> Option<string>)
    requires |size| == 4 && CanBeLaid(header) && low < 32
    requires header.kind == VP8X && header.data != [] && header.data[0] as nat == Flags(false, high, low)
    ensures WebP(LayFile(size, LayChunk(header) + rest), icc) == Decided(None)
  {
    FileApart(size, LayChunk(header) + rest, icc);
    AfterHeader(header, rest, false, high, low, icc);
    hide NextChunk, LayChunk, WebP, LayFile;
  }

  /** Nor has a file that starts with its image data, or one with a header that holds no flags; one that starts with a
      profile has that. */
  lemma FirstDecides(size: Bytes, first: Chunk, rest: Bytes, icc: Bytes -> Option<string>)
    requires |size| == 4 && CanBeLaid(first) && (first.kind == VP8X ==> first.data == [])
    ensures WebP(LayFile(size, LayChunk(first) + rest), icc)
            == Decided(if first.kind == ICCP then icc(first.data) else None)
  {
    FileApart(size, LayChunk(first) + rest, icc);
    NextLaidChunk(first, rest);
    hide NextChunk, LayChunk, WebP, LayFile;
  }

  /** As long as the profile's data has not all arrived, nothing is decided. */
  lemma CutProfileRunsOut(size: Bytes, header: Chunk, high: nat, low: nat, second: Chunk, n: nat,
                          icc: Bytes -> Option<string>)
    requires |size| == 4 && CanBeLaid(header) && CanBeLaid(second) && low < 32
    requires header.kind == VP8X && header.data != [] && header.data[0] as nat == Flags(true, high, low)
    requires n < 8 + |second.data|
    ensures WebP(LayFile(size, LayChunk(header) + (ChunkHeader(second) + second.data)[..n]), icc) == RanOut
  {
    var rest := (ChunkHeader(second) + second.data)[..n];
    FileApart(size, LayChunk(header) + rest, icc);
    AfterHeader(header, rest, true, high, low, icc);
    CutChunk(second, n);
    hide NextChunk, LayChunk, WebP, LayFile;
  }

  /** Anything that is no WebP file, once that can be told, has none. */
  lemma OtherFilesHaveNone(bytes: Bytes, icc: Bytes -> Option<string>)
    requires |bytes| >= 12 && (bytes[..4] != RIFF || bytes[8..12] != WEBP)
    ensures WebP(bytes, icc) == Decided(None)
  {
  }
}
