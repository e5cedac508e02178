/** The container byte by byte: what is written where, and which bytes are read as what. */
module Layout {
  import opened Basics
  import opened Streams
  import opened Container

  /** The first four bytes are the characters of this magic. */
  predicate HasMagic(blob: Bytes, magic: string)
    requires |magic| == 4
  {
    |blob| >= 4 && forall i | 0 <= i < 4 :: blob[i] as int == magic[i] as int
  }

  /** Four bytes, the lowest first, that stand for n. */
  predicate Weighs(b: Bytes, n: int) {
    |b| == 4 && b[0] as int + 256 * b[1] as int + 65536 * b[2] as int + 16777216 * b[3] as int == n
  }

  // ---------- Fields ----------

  lemma UnitDigits(n: nat)
    ensures FromByte(ToByte(n)) == n % 256 && FromByte(ToByte(n)) == ToByte(n) as int
  {
  }

  lemma FieldWeighs(n: nat)
    requires n < 0x1_0000_0000
    ensures Weighs(Uint32(n), n)
  {
    UnitDigits(n);
    UnitDigits(n / 256);
    UnitDigits(n / 65536);
    UnitDigits(n / 16777216);
    var b := Uint32(n);
    assert b[0] == ToByte(n) && b[1] == ToByte(n / 256) && b[2] == ToByte(n / 65536) && b[3] == ToByte(n / 16777216);
    hide *;
    Digits(n);
    DigitsWeigh(b, n);
  }

  lemma DigitsWeigh(b: Bytes, n: nat)
    requires |b| == 4 && n < 0x1_0000_0000 && LIMIT == 0x1_0000_0000
    requires b[0] as int == n % 256 && b[1] as int == n / 256 % 256
    requires b[2] as int == n / 65536 % 256 && b[3] as int == n / 16777216 % 256
    requires n % 256 + 256 * (n / 256 % 256) + 65536 * (n / 65536 % 256) + 16777216 * (n / 16777216 % 256) == n % LIMIT
    ensures Weighs(b, n)
  {
  }

  lemma FieldReads(b: Bytes, n: int)
    requires Weighs(b, n)
    ensures FromUint32(b) == n
  {
    assert FromByte(b[0]) == b[0] as int && FromByte(b[1]) == b[1] as int;
    assert FromByte(b[2]) == b[2] as int && FromByte(b[3]) == b[3] as int;
  }

  lemma MagicsAre()
    ensures |PLAIN_MAGIC| == 4 && HasMagic(PLAIN_MAGIC, "CCBK")
    ensures |GZIP_MAGIC| == 4 && HasMagic(GZIP_MAGIC, "CCZK")
  {
  }

  lemma MagicIff(blob: Bytes)
    requires |blob| >= 4
    ensures blob[..4] == PLAIN_MAGIC <==> HasMagic(blob, "CCBK")
    ensures blob[..4] == GZIP_MAGIC <==> HasMagic(blob, "CCZK")
  {
    MagicsAre();
    assert forall i | 0 <= i < 4 :: blob[..4][i] == blob[i];
    assert HasMagic(blob, "CCBK") ==> forall i | 0 <= i < 4 :: blob[..4][i] == PLAIN_MAGIC[i];
    assert HasMagic(blob, "CCZK") ==> forall i | 0 <= i < 4 :: blob[..4][i] == GZIP_MAGIC[i];
  }

  // ---------- What is written ----------

  /** Every blob begins with its magic and the bytes 0, 0, 0, 2: the chunk size of 32 MiB, lowest byte first. */
  lemma HeaderIs(a: Aead, nonces: nat -> Nonce, data: Bytes)
    ensures var blob := Blob(PLAIN_MAGIC, a, nonces, data);
      HasMagic(blob, "CCBK") && |blob| >= 8 && blob[4..8] == [0, 0, 0, 2]
    ensures var blob := Blob(GZIP_MAGIC, a, nonces, data);
      HasMagic(blob, "CCZK") && |blob| >= 8 && blob[4..8] == [0, 0, 0, 2]
  {
    MagicsAre();
    ChunkField();
    var frames := Frames(a, nonces, 0, data);
    BlobParts(PLAIN_MAGIC, frames);
    BlobParts(GZIP_MAGIC, frames);
    hide Frames, Uint32;
    assert Blob(PLAIN_MAGIC, a, nonces, data) == Header(PLAIN_MAGIC) + frames;
    assert Blob(GZIP_MAGIC, a, nonces, data) == Header(GZIP_MAGIC) + frames;
  }

  lemma ChunkField()
    ensures Uint32(CHUNK) == [0, 0, 0, 2]
  {
  }

  lemma BlobParts(magic: Bytes, frames: Bytes)
    requires |magic| == 4
    ensures var blob := Header(magic) + frames;
      && |blob| >= 8 && blob[4..8] == Uint32(CHUNK) && blob[8..] == frames
      && forall i | 0 <= i < 4 :: blob[i] == magic[i]
  {
    hide Uint32;
  }

  /** A frame for this chunk under this nonce at place p. */
  ghost predicate HasFrameAt(a: Aead, blob: Bytes, p: nat, nonce: Nonce, chunk: Bytes) {
    && p + 32 + |chunk| <= |blob|
    && Weighs(blob[p..p + 4], |chunk| + 28)
    && blob[p + 4..p + 16] == nonce
    && blob[p + 16..p + 32 + |chunk|] == a.seal(nonce, chunk)
  }

  lemma FrameInside(a: Aead, blob: Bytes, frames: Bytes, k: nat, nonce: Nonce, chunk: Bytes)
    requires Lawful(a) && |chunk| <= CHUNK && |blob| >= 8 && blob[8..] == frames && k <= |frames|
    requires Frame(a, nonce, chunk) <= frames[k..]
    ensures HasFrameAt(a, blob, 8 + k, nonce, chunk)
  {
    hide Frame, Lawful, Weighs;
    FrameBytes(a, nonce, chunk, frames[k..]);
    SameBytes(blob, frames, k, |chunk|);
  }

  lemma FrameInBlob(magic: Bytes, a: Aead, nonces: nat -> Nonce, data: Bytes, m: nat)
    requires |magic| == 4 && Lawful(a) && m % CHUNK == 0 && m < |data|
    ensures HasFrameAt(a, Blob(magic, a, nonces, data), 8 + FramesSize(m), nonces(m / CHUNK), Clip(data[m..], CHUNK))
  {
    hide Frames, Frame, FramesSize, Lawful, HasFrameAt, Clip, Uint32;
    var frames := Frames(a, nonces, 0, data);
    assert Blob(magic, a, nonces, data) == Header(magic) + frames;
    FrameAt(a, nonces, 0, data, m);
    BlobParts(magic, frames);
    hide *;
    FrameInside(a, Header(magic) + frames, frames, FramesSize(m), nonces(m / CHUNK), Clip(data[m..], CHUNK));
  }

  /**
    The frame for the plaintext from m on, for m a multiple of 32 MiB: the chunk's size plus 28 in four
    bytes, the lowest first, then its nonce, then the chunk sealed under it.
   */
  lemma FrameIs(magic: Bytes, a: Aead, nonces: nat -> Nonce, data: Bytes, m: nat)
    requires |magic| == 4 && Lawful(a) && m % 33554432 == 0 && m < |data|
    ensures var n := if |data| - m < 33554432 then |data| - m else 33554432;
      HasFrameAt(a, Blob(magic, a, nonces, data), 8 + m + 32 * (m / 33554432), nonces(m / 33554432), data[m..m + n])
  {
    var n := if |data| - m < 33554432 then |data| - m else 33554432;
    assert CHUNK == 33554432;
    assert Clip(data[m..], CHUNK) == data[m..m + n];
    SizeAt(m);
    hide Frames, FramesSize, Clip, Lawful, Blob, HasFrameAt;
    FrameInBlob(magic, a, nonces, data, m);
  }

  lemma SizeAt(m: nat)
    requires m % CHUNK == 0
    ensures FramesSize(m) == m + 32 * (m / CHUNK)
  {
  }

  lemma FrameBytes(a: Aead, nonce: Nonce, chunk: Bytes, rest: Bytes)
    requires Lawful(a) && Frame(a, nonce, chunk) <= rest && |chunk| <= CHUNK
    ensures |rest| >= |chunk| + 32 && Weighs(rest[..4], |chunk| + 28)
    ensures rest[4..16] == nonce && rest[16..|chunk| + 32] == a.seal(nonce, chunk)
  {
    var frame := Frame(a, nonce, chunk);
    FieldWeighs(|chunk| + 28);
    FrameParts(a, nonce, chunk, rest[|frame|..]);
    assert rest == frame + rest[|frame|..];
  }

  lemma SameBytes(blob: Bytes, frames: Bytes, k: nat, n: nat)
    requires |blob| >= 8 && blob[8..] == frames && k <= |frames| && n + 32 <= |frames[k..]|
    ensures 8 + k + 32 + n <= |blob|
    ensures blob[8 + k..8 + k + 4] == frames[k..][..4] && blob[8 + k + 4..8 + k + 16] == frames[k..][4..16]
    ensures blob[8 + k + 16..8 + k + 32 + n] == frames[k..][16..n + 32]
  {
    SliceOfRest(blob, 8, k, 0, 4);
    SliceOfRest(blob, 8, k, 4, 16);
    SliceOfRest(blob, 8, k, 16, n + 32);
  }

  lemma SliceOfRest(s: Bytes, a: nat, k: nat, b: nat, c: nat)
    requires a + k <= |s| && b <= c <= |s| - a - k
    ensures s[a..][k..][b..c] == s[a + k + b..a + k + c]
  {
    var l, r := s[a..][k..][b..c], s[a + k + b..a + k + c];
    assert |l| == |r| && forall i | 0 <= i < |l| :: l[i] == s[a + k + b + i];
  }

  // ---------- What is read ----------

  /** A frame for this chunk, under any nonce. */
  ghost predicate IsFrame(a: Aead, frame: Bytes, chunk: Bytes) {
    && |frame| >= 16 && Weighs(frame[..4], |frame| - 4)
    && frame[16..] == a.seal(frame[4..16], chunk)
  }

  /** Frames for these chunks, none with a length above the cap. */
  ghost predicate AreFrames(a: Aead, data: Bytes, chunks: seq<Bytes>, cap: int) {
    if chunks == [] then data == []
    else exists n ::
      && 4 <= n <= |data| && n - 4 <= cap && IsFrame(a, data[..n], chunks[0])
      && AreFrames(a, data[n..], chunks[1..], cap)
  }

  function All(chunks: seq<Bytes>): Bytes {
    if chunks == [] then [] else chunks[0] + All(chunks[1..])
  }

  lemma FrameReads(a: Aead, data: Bytes, n: nat, chunk: Bytes, cap: nat)
    requires Lawful(a) && 4 <= n <= |data| && n - 4 <= cap && IsFrame(a, data[..n], chunk)
    ensures var rest := DecodeFrames(a, cap, data[n..], Eof);
      DecodeFrames(a, cap, data, Eof) == (chunk + rest.0, rest.1)
  {
    FieldReads(data[..n][..4], n - 4);
    assert data[..n][..4] == data[..4] && data[..n][4..16] == data[4..16] && data[..n][16..] == data[16..n];
    assert a.open(data[4..16], data[16..n]) == Some(chunk);
    hide DecodeFrames, Lawful, IsFrame, Weighs, FromUint32;
    DecodeOne(a, cap, data, Eof);
  }

  lemma {:induction false} FramesRead(a: Aead, data: Bytes, chunks: seq<Bytes>, cap: nat)
    requires Lawful(a) && AreFrames(a, data, chunks, cap)
    ensures DecodeFrames(a, cap, data, Eof) == (All(chunks), Done)
    decreases |chunks|
  {
    if chunks != [] {
      var n :|
        && 4 <= n <= |data| && n - 4 <= cap && IsFrame(a, data[..n], chunks[0])
        && AreFrames(a, data[n..], chunks[1..], cap);
      hide AreFrames, IsFrame, Lawful, DecodeFrames;
      FramesRead(a, data[n..], chunks[1..], cap);
      FrameReads(a, data, n, chunks[0], cap);
    }
  }

  /** What a stored blob has in its first eight bytes: its magic and the chunk size it was written with. */
  predicate HasHeader(blob: Bytes, magic: string, size: nat)
    requires |magic| == 4
  {
    |blob| >= 8 && HasMagic(blob, magic) && Weighs(blob[4..8], size)
  }

  lemma ChunkedReads(a: Aead, blob: Bytes, size: nat, chunks: seq<Bytes>)
    requires Lawful(a) && size + 28 < 0x1_0000_0000 && |blob| >= 8 && AreFrames(a, blob[8..], chunks, size + 28)
    requires Weighs(blob[4..8], size)
    ensures DecodeChunked(a, blob[4..], Eof) == (All(chunks), Done)
  {
    FieldReads(blob[4..8], size);
    assert blob[4..][..4] == blob[4..8] && blob[4..][4..] == blob[8..];
    assert MaxDataLen(size) == size + 28;
    hide FromUint32, Weighs, AreFrames, Lawful, DecodeFrames, MaxDataLen;
    FramesRead(a, blob[8..], chunks, size + 28);
  }

  /** Any blob of this layout is read, whatever chunk sizes it was written with. */
  lemma BlobReads(a: Aead, gunzip: Bytes -> Gunzipped, blob: Bytes, size: nat, chunks: seq<Bytes>)
    requires Lawful(a) && size + 28 < 0x1_0000_0000 && |blob| >= 8 && AreFrames(a, blob[8..], chunks, size + 28)
    ensures HasHeader(blob, "CCBK", size) ==> DecodeBlob(a, gunzip, blob, Eof) == (All(chunks), Done)
    ensures HasHeader(blob, "CCZK", size) ==>
      DecodeBlob(a, gunzip, blob, Eof)
        == (gunzip(All(chunks)).out, if gunzip(All(chunks)).ok then Done else BadGzip)
  {
    MagicIff(blob);
    DifferentMagics();
    hide AreFrames, Lawful, Weighs, HasMagic, DecodeChunked, PLAIN_MAGIC, GZIP_MAGIC;
    if Weighs(blob[4..8], size) {
      ChunkedReads(a, blob, size, chunks);
    }
  }

  lemma DifferentMagics()
    ensures PLAIN_MAGIC != GZIP_MAGIC
  {
    assert PLAIN_MAGIC[2] != GZIP_MAGIC[2];
  }

  /** The first frame's length is turned down exactly when it exceeds the recorded chunk size by more than 28. */
  lemma CapIs(a: Aead, header: Bytes, data: Bytes, size: nat, n: nat, end: End)
    requires Weighs(header, size) && |data| >= 4 && Weighs(data[..4], n)
    ensures n > (size + 28) % 0x1_0000_0000 ==> DecodeChunked(a, header + data, end) == ([], TooLong)
    ensures n <= (size + 28) % 0x1_0000_0000 && |data| < 4 + n ==>
      DecodeChunked(a, header + data, end) == ([], DataCut)
  {
    FieldReads(header, size);
    FieldReads(data[..4], n);
    var all := header + data;
    assert all[..4] == header && all[4..] == data;
    hide FromUint32, Weighs;
  }

  lemma {:induction false} FramesAreKnown(a: Aead, cap: nat, data: Bytes, end: End)
    ensures DecodeFrames(a, cap, data, end).1 != UnknownFormat
    decreases |data|
  {
    if |data| >= 4 {
      var len := FromUint32(data[..4]);
      if 4 + len <= |data| {
        FramesAreKnown(a, cap, data[4 + len..], end);
      }
    }
  }

  /** The format is unknown exactly when four bytes are there and neither magic is. */
  lemma UnknownIff(a: Aead, gunzip: Bytes -> Gunzipped, blob: Bytes, end: End)
    ensures DecodeBlob(a, gunzip, blob, end).1 == UnknownFormat
      <==> |blob| >= 4 && !HasMagic(blob, "CCBK") && !HasMagic(blob, "CCZK")
  {
    if |blob| >= 4 {
      MagicIff(blob);
      hide DecodeFrames, HasMagic;
      if |blob[4..]| >= 4 {
        FramesAreKnown(a, MaxDataLen(FromUint32(blob[4..][..4])), blob[4..][4..], end);
      }
    }
  }
}
