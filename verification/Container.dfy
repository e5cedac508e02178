/**
  The chunked, authenticated container of every remote blob: a four-byte magic, the chunk size
  and one frame per chunk of plaintext. Sealing and opening are those of AEAD_AES_256_GCM
  (section 5.2 of RFC 5116) and enter only through the laws below; so does gzip.
 */
module Container {
  import opened Basics
  import opened Streams

  const CHUNK: nat := 0x200_0000
  const LIMIT: nat := 0x1_0000_0000

  const PLAIN_MAGIC: Bytes := [0x43, 0x43, 0x42, 0x4B]
  const GZIP_MAGIC: Bytes := [0x43, 0x43, 0x5A, 0x4B]

  type Nonce = b: Bytes | |b| == 12 witness seq(12, i => 0)

  /** An authenticated cipher under a fixed key. */
  datatype Aead = Aead(seal: (Bytes, Bytes) -> Bytes, open: (Bytes, Bytes) -> Option<Bytes>)

  ghost predicate Lawful(a: Aead) {
    && (forall n, p :: |a.seal(n, p)| == |p| + 16 && a.open(n, a.seal(n, p)) == Some(p))
    && (forall n, c :: a.open(n, c).Some? ==> |a.open(n, c).value| + 16 == |c|)
  }

  datatype Verdict =
    | Done | SourceFailed | SinkFailed
    | HeaderCut | UnknownFormat | LengthCut | TooLong | DataCut | TooShort | BadChunk | BadGzip
    | NeverReturns

  // ---------- Little-endian 32-bit fields ----------

  function ToByte(n: nat): byte {
    (n % 256) as byte
  }

  function FromByte(b: byte): (n: nat)
    ensures n < 256
  {
    b as nat
  }

  lemma ByteRoundTrip(n: nat)
    ensures FromByte(ToByte(n)) == n % 256
  {
  }

  /** PutUint32 of the uint32 conversion of n, which keeps n modulo 2^32. */
  function Uint32(n: nat): (b: Bytes)
    ensures |b| == 4
  {
    [ToByte(n), ToByte(n / 256), ToByte(n / 65536), ToByte(n / 16777216)]
  }

  function FromUint32(b: Bytes): (n: nat)
    requires |b| == 4
    ensures n < LIMIT
  {
    hide FromByte;
    FromByte(b[0]) + 256 * FromByte(b[1]) + 65536 * FromByte(b[2]) + 16777216 * FromByte(b[3])
  }

  lemma Uint32RoundTrip(n: nat)
    ensures FromUint32(Uint32(n)) == n % LIMIT
  {
    hide FromByte, ToByte;
    ByteRoundTrip(n);
    ByteRoundTrip(n / 256);
    ByteRoundTrip(n / 65536);
    ByteRoundTrip(n / 16777216);
    Digits(n);
  }

  lemma Digits(n: nat)
    ensures n % 256 + 256 * (n / 256 % 256) + 65536 * (n / 65536 % 256) + 16777216 * (n / 16777216 % 256)
         == n % LIMIT
  {
    var a, b, c, d := n / 256, n / 65536, n / 16777216, n / LIMIT;
    assert n == 256 * a + n % 256;
    assert a / 256 == b;
    assert b / 256 == c;
    assert c / 256 == d;
    assert a == 256 * b + a % 256 && b == 256 * c + b % 256 && c == 256 * d + c % 256;
  }

  // ---------- What an encryption writes ----------

  function Frame(a: Aead, nonce: Nonce, chunk: Bytes): Bytes {
    var sealed := a.seal(nonce, chunk);
    Uint32(12 + |sealed|) + (nonce + sealed)
  }

  /** The frames of data, the first of them under nonce number i. */
  function Frames(a: Aead, nonces: nat -> Nonce, i: nat, data: Bytes): Bytes
    decreases |data|
  {
    if data == [] then []
    else
      var chunk := Clip(data, CHUNK);
      Frame(a, nonces(i), chunk) + Frames(a, nonces, i + 1, data[|chunk|..])
  }

  function Header(magic: Bytes): Bytes {
    magic + Uint32(CHUNK)
  }

  function Blob(magic: Bytes, a: Aead, nonces: nat -> Nonce, data: Bytes): Bytes {
    Header(magic) + Frames(a, nonces, 0, data)
  }

  lemma NoFrames(a: Aead, nonces: nat -> Nonce, i: nat)
    ensures Frames(a, nonces, i, []) == []
  {
  }

  lemma FirstFrame(a: Aead, nonces: nat -> Nonce, i: nat, data: Bytes)
    requires data != []
    ensures var chunk := Clip(data, CHUNK);
      var sealed := nonces(i) + a.seal(nonces(i), chunk);
      Frames(a, nonces, i, data)
        == Uint32(|sealed|) + (sealed + Frames(a, nonces, i + 1, data[|chunk|..]))
  {
  }

  /** One write of a longer text; done is what the sink took before. */
  method Put(p: Bytes, dst: Writer, ghost done: Bytes, ghost whole: Bytes, ghost out: Bytes, ghost room: nat)
    returns (verdict: Verdict)
    requires |done| <= room && dst.out == out + done && dst.room == room - |done|
    requires done + p <= whole
    modifies dst
    ensures verdict == Done || verdict == SinkFailed
    ensures verdict == Done ==> |done + p| <= room && dst.out == out + (done + p) && dst.room == room - |done + p|
    ensures verdict == SinkFailed ==> |done + p| > room && |whole| > room && dst.out == out + Clip(whole, room)
  {
    var ok := dst.Write(p);
    if ok {
      ClipFits(p, room - |done|);
      Regroup(out, done, p);
      verdict := Done;
    } else {
      ClipMore(done, p, whole, room);
      Regroup(out, done, Clip(p, room - |done|));
      verdict := SinkFailed;
    }
  }

  /** How much of the source an encryption has read when its sink gives out after room bytes. */
  function Consumed(size: nat, room: nat): (n: nat)
    ensures n <= size
  {
    if room < 8 then 0
    else
      var m := Kept(size, room - 8);
      m + First(size - m)
  }

  /** What is left of the source once the encryption has returned. */
  function Unread(data: Bytes, blob: Bytes, room: nat): Bytes {
    if |blob| > room then data[Consumed(|data|, room)..] else []
  }

  /** Between two frames: m bytes of the source have been encrypted and written. */
  ghost predicate Written(a: Aead, nonces: nat -> Nonce, data: Bytes, blob: Bytes, done: Bytes, i: nat, m: nat) {
    && m <= |data| && done + Frames(a, nonces, i, data[m..]) == blob
    && ChunkEnd(m, |data|)
    && (Lawful(a) ==> |done| == 8 + FramesSize(m))
  }

  lemma NothingWritten(magic: Bytes, a: Aead, nonces: nat -> Nonce, data: Bytes)
    requires |magic| == 4
    ensures Written(a, nonces, data, Blob(magic, a, nonces, data), Header(magic), 0, 0)
  {
    assert data[0..] == data;
  }

  /** The parts of one more frame, and what has been written after it. */
  lemma OneMoreFrame(a: Aead, nonces: nat -> Nonce, data: Bytes, blob: Bytes, done: Bytes, i: nat, m: nat)
    requires Written(a, nonces, data, blob, done, i, m) && m < |data|
    ensures var chunk := Clip(data[m..], CHUNK);
      var sealed := nonces(i) + a.seal(nonces(i), chunk);
      var size := Uint32(|sealed|);
      && done + size <= blob && done + size + sealed <= blob
      && m + |chunk| <= |data| && data[m..][|chunk|..] == data[m + |chunk|..]
      && Written(a, nonces, data, blob, done + size + sealed, i + 1, m + |chunk|)
  {
    hide Frames, FramesSize, Uint32, Lawful;
    var chunk := Clip(data[m..], CHUNK);
    var sealed := nonces(i) + a.seal(nonces(i), chunk);
    var size := Uint32(|sealed|);
    FirstFrame(a, nonces, i, data[m..]);
    var rest := Frames(a, nonces, i + 1, data[m..][|chunk|..]);
    assert data[m..][|chunk|..] == data[m + |chunk|..];
    Regroup(done, size, sealed + rest);
    Regroup(done + size, sealed, rest);
    NextEnd(m, |data|);
    if Lawful(a) {
      SealedLength(a, nonces(i), chunk);
    }
  }

  lemma SealedLength(a: Aead, nonce: Nonce, chunk: Bytes)
    requires Lawful(a)
    ensures |nonce + a.seal(nonce, chunk)| == |chunk| + 28
  {
  }

  /** The chunk end after m. */
  lemma NextEnd(m: nat, size: nat)
    requires ChunkEnd(m, size) && m < size
    ensures ChunkEnd(m + First(size - m), size)
    ensures FramesSize(m + First(size - m)) == FramesSize(m) + First(size - m) + 32
    ensures forall n: nat :: ChunkEnd(n, size) && n > m ==> n >= m + First(size - m)
  {
    forall n: nat | ChunkEnd(n, size) && n > m
      ensures n >= m + First(size - m)
    {
      if n != size {
        NextMultiple(m, n);
      }
    }
  }

  lemma NextMultiple(m: nat, n: nat)
    requires m % CHUNK == 0 && n % CHUNK == 0 && m < n
    ensures n >= m + CHUNK
  {
  }

  /** The first frame that does not fit is the one being written when the sink gives out. */
  lemma FailsAtFrame(m: nat, size: nat, room: nat)
    requires ChunkEnd(m, size) && m < size
    requires 8 + FramesSize(m) <= room < 8 + FramesSize(m) + First(size - m) + 32
    ensures Consumed(size, room) == m + First(size - m)
  {
    hide FramesSize, ChunkEnd;
    KeptIsLargest(size, room - 8);
    NextEnd(m, size);
    var kept := Kept(size, room - 8);
    if kept > m {
      SizeGrows(m + First(size - m), kept);
    }
  }

  /**
    The source's failure is reported only after what it delivered has been written. A sink that gives
    out stops the reading, so that part of the source can be left.
   */
  method EncryptWithMagic(magic: Bytes, a: Aead, nonces: nat -> Nonce, src: Reader, dst: Writer)
    returns (verdict: Verdict)
    requires |magic| == 4
    modifies src, dst
    ensures var blob := Blob(magic, a, nonces, old(src.Data()));
      && dst.out == old(dst.out) + Clip(blob, old(dst.room))
      && verdict == (if |blob| > old(dst.room) then SinkFailed
                     else if old(src.Ending()) == Eof then Done else SourceFailed)
      && (Lawful(a) ==> src.Data() == Unread(old(src.Data()), blob, old(dst.room)))
  {
    hide *;
    ghost var out, room := dst.out, dst.room;
    ghost var all := src.Data();
    ghost var blob := Blob(magic, a, nonces, all);
    HeaderParts(magic, a, nonces, all);
    WholeIsUnread(all, blob, room);
    assert [] + magic == magic;
    verdict := Put(magic, dst, [], blob, out, room);
    if verdict != Done {
      return;
    }
    verdict := Put(Uint32(CHUNK), dst, magic, blob, out, room);
    if verdict != Done {
      return;
    }
    ghost var done := Header(magic);
    var plainBuf := new byte[CHUNK];
    var i := 0;
    ghost var m := 0;
    NothingWritten(magic, a, nonces, all);
    var read := Full;
    while read == Full
      invariant Written(a, nonces, all, blob, done, i, m) && m <= |all| && src.Data() == all[m..]
      invariant src.Ending() == old(src.Ending())
      invariant read != Full ==> src.Data() == []
      invariant read == ReadFailed <==> read != Full && src.Ending() == Failed
      invariant |done| <= room && dst.out == out + done && dst.room == room - |done|
      invariant fresh(plainBuf) && plainBuf.Length == CHUNK
      decreases read == Full, |src.Data()|
    {
      ghost var left := src.Data();
      var n;
      n, read := ReadFull(src, plainBuf);
      FullReadMeans(left, src.Ending());
      if n > 0 {
        OneMoreFrame(a, nonces, all, blob, done, i, m);
        var nonce := nonces(i);
        var sealed := nonce + a.seal(nonce, plainBuf[..n]);
        var size := Uint32(|sealed|);
        verdict := Put(size, dst, done, blob, out, room);
        if verdict == Done {
          verdict := Put(sealed, dst, done + size, blob, out, room);
        }
        if verdict != Done {
          if Lawful(a) {
            SealedLength(a, nonce, plainBuf[..n]);
            UnreadInFrame(a, nonces, all, blob, done, i, m, room);
          }
          return;
        }
        done, i, m := done + size + sealed, i + 1, m + n;
      }
    }
    AllFramesWritten(a, nonces, all, blob, done, i, m, room);
    verdict := if read == ReadFailed then SourceFailed else Done;
  }

  lemma HeaderParts(magic: Bytes, a: Aead, nonces: nat -> Nonce, data: Bytes)
    requires |magic| == 4
    ensures var blob := Blob(magic, a, nonces, data);
      magic <= blob && magic + Uint32(CHUNK) <= blob && |magic + Uint32(CHUNK)| == 8
        && Header(magic) == magic + Uint32(CHUNK)
  {
    hide Frames, Uint32;
  }

  lemma WholeIsUnread(data: Bytes, blob: Bytes, room: nat)
    ensures |blob| > room && room < 8 ==> Unread(data, blob, room) == data
  {
  }

  lemma FullReadMeans(data: Bytes, end: End)
    ensures FullReadOf(data, end, CHUNK) == Full <==> CHUNK <= |data|
    ensures FullReadOf(data, end, CHUNK) == ReadFailed <==> CHUNK > |data| && end == Failed
    ensures CHUNK > 0 && (Clip(data, CHUNK) == [] <==> data == [])
    ensures CHUNK > |data| ==> data[|Clip(data, CHUNK)|..] == []
  {
  }

  /** If the frame at m does not fit, what is left of the source is what comes after its chunk. */
  lemma UnreadInFrame(a: Aead, nonces: nat -> Nonce, data: Bytes, blob: Bytes, done: Bytes, i: nat, m: nat, room: nat)
    requires Written(a, nonces, data, blob, done, i, m) && m < |data| && |done| <= room && Lawful(a)
    requires |done| + |Clip(data[m..], CHUNK)| + 32 > room && |blob| > room
    ensures m + |Clip(data[m..], CHUNK)| <= |data|
    ensures Unread(data, blob, room) == data[m + |Clip(data[m..], CHUNK)|..]
  {
    FailsAtFrame(m, |data|, room);
  }

  lemma AllFramesWritten(a: Aead, nonces: nat -> Nonce, data: Bytes, blob: Bytes, done: Bytes, i: nat, m: nat,
                         room: nat)
    requires Written(a, nonces, data, blob, done, i, m) && data[m..] == [] && |done| <= room
    ensures done == blob && Clip(blob, room) == blob && Unread(data, blob, room) == []
  {
    NoFrames(a, nonces, i);
    assert done + [] == done;
  }

  // ---------- What a decryption makes of any bytes ----------

  /** The cap on a frame's length field: a uint32 sum, which wraps. */
  function MaxDataLen(storedChunkSize: nat): nat {
    (storedChunkSize + 12 + 16) % LIMIT
  }

  /** The plaintext written for these frames and how their decryption ends. */
  function DecodeFrames(a: Aead, maxLen: nat, data: Bytes, end: End): (Bytes, Verdict)
    decreases |data|
  {
    if data == [] && end == Eof then ([], Done)
    else if |data| < 4 then ([], LengthCut)
    else
      var len := FromUint32(data[..4]);
      if len > maxLen then ([], TooLong)
      else if |data| < 4 + len then ([], DataCut)
      else if len < 12 then ([], TooShort)
      else
        var plain := a.open(data[4..16], data[16..4 + len]);
        if plain.None? then ([], BadChunk)
        else
          var rest := DecodeFrames(a, maxLen, data[4 + len..], end);
          (plain.value + rest.0, rest.1)
  }

  function DecodeChunked(a: Aead, data: Bytes, end: End): (Bytes, Verdict) {
    if |data| < 4 then ([], HeaderCut)
    else DecodeFrames(a, MaxDataLen(FromUint32(data[..4])), data[4..], end)
  }

  /** What gunzip makes of its input: the bytes it produces and whether it ends without an error. */
  datatype Gunzipped = Gunzipped(out: Bytes, ok: bool)

  function Decompressed(gunzip: Bytes -> Gunzipped, inner: (Bytes, Verdict)): (Bytes, Verdict) {
    var g := gunzip(inner.0);
    (g.out, if inner.1 != Done then inner.1 else if g.ok then Done else BadGzip)
  }

  /** The plaintext DecryptFile writes for a blob, and how it ends for a sink that takes it all. */
  function DecodeBlob(a: Aead, gunzip: Bytes -> Gunzipped, blob: Bytes, end: End): (Bytes, Verdict) {
    if |blob| < 4 then ([], HeaderCut)
    else if blob[..4] == PLAIN_MAGIC then DecodeChunked(a, blob[4..], end)
    else if blob[..4] == GZIP_MAGIC then Decompressed(gunzip, DecodeChunked(a, blob[4..], end))
    else ([], UnknownFormat)
  }

  lemma SplitLength(data: Bytes, len: nat)
    requires 12 <= len && 4 + len <= |data|
    ensures data[4..][..len][..12] == data[4..16] && data[4..][..len][12..] == data[16..4 + len]
    ensures data[4..][len..] == data[4 + len..]
  {
  }

  lemma AllWritten(done: Bytes, room: nat)
    requires |done| <= room
    ensures done + [] == done == Clip(done, room)
  {
  }

  method DecryptChunked(a: Aead, src: Reader, dst: Writer) returns (verdict: Verdict)
    modifies src, dst
    ensures var (text, end) := DecodeChunked(a, old(src.Data()), old(src.Ending()));
      && dst.out == old(dst.out) + Clip(text, old(dst.room))
      && verdict == if |text| > old(dst.room) then SinkFailed else end
  {
    hide DataOf, EndOf, DecodeFrames, FromUint32, MaxDataLen;
    ghost var out, room := dst.out, dst.room;
    ghost var all, ending := src.Data(), src.Ending();
    var chunkSize := new byte[4];
    var n, read := ReadFull(src, chunkSize);
    if read != Full {
      return HeaderCut;
    }
    assert chunkSize[..] == chunkSize[..n] == all[..4];
    var maxDataLen := MaxDataLen(FromUint32(chunkSize[..]));
    ghost var result := DecodeFrames(a, maxDataLen, src.Data(), ending);
    ghost var done := [];
    assert result.0 == done + result.0;
    verdict := Done;
    while true
      invariant src.Ending() == ending
      invariant var rest := DecodeFrames(a, maxDataLen, src.Data(), ending);
        result == (done + rest.0, rest.1)
      invariant |done| <= room && dst.out == out + done && dst.room == room - |done|
      decreases |src.Data()|
    {
      ghost var left := src.Data();
      ghost var rest := DecodeFrames(a, maxDataLen, left, ending);
      DecodeOne(a, maxDataLen, left, ending);
      var lenHdr := new byte[4];
      n, read := ReadFull(src, lenHdr);
      if read == NothingLeft {
        AllWritten(done, room);
        return Done;
      }
      if read != Full {
        AllWritten(done, room);
        return LengthCut;
      }
      assert lenHdr[..] == lenHdr[..n] == left[..4];
      var dataLen := FromUint32(lenHdr[..]);
      if dataLen > maxDataLen {
        AllWritten(done, room);
        return TooLong;
      }
      var chunk := new byte[dataLen];
      n, read := ReadFull(src, chunk);
      if read != Full {
        AllWritten(done, room);
        return DataCut;
      }
      assert chunk[..] == chunk[..n] == left[4..][..dataLen];
      if dataLen < 12 {
        AllWritten(done, room);
        return TooShort;
      }
      SplitLength(left, dataLen);
      assert chunk[..12] == chunk[..][..12] && chunk[12..] == chunk[..][12..];
      var plain := a.open(chunk[..12], chunk[12..]);
      if plain.None? {
        AllWritten(done, room);
        return BadChunk;
      }
      ghost var after := DecodeFrames(a, maxDataLen, src.Data(), ending);
      Regroup(done, plain.value, after.0);
      verdict := Put(plain.value, dst, done, result.0, out, room);
      if verdict != Done {
        return;
      }
      done := done + plain.value;
    }
  }

  lemma DecodeOne(a: Aead, maxLen: nat, data: Bytes, end: End)
    ensures var r := DecodeFrames(a, maxLen, data, end);
      if data == [] && end == Eof then r == ([], Done)
      else if |data| < 4 then r == ([], LengthCut)
      else var len := FromUint32(data[..4]);
        if len > maxLen then r == ([], TooLong)
        else if |data| < 4 + len then r == ([], DataCut)
        else if len < 12 then r == ([], TooShort)
        else var plain := a.open(data[4..16], data[16..4 + len]);
          if plain.None? then r == ([], BadChunk)
          else var rest := DecodeFrames(a, maxLen, data[4 + len..], end);
            r == (plain.value + rest.0, rest.1)
  {
  }

  /** Everything a reader has left, and how it ends (io.Copy's reading side). */
  method Drain(src: Reader) returns (data: Bytes, end: End)
    modifies src
    ensures data == old(src.Data()) && end == old(src.Ending())
  {
    hide DataOf, EndOf;
    var buf := new byte[32 * 1024];
    var got: Option<End> := None;
    data := [];
    while got.None?
      invariant old(src.Data()) == data + src.Data() && src.Ending() == old(src.Ending())
      invariant got.Some? ==> src.Data() == [] && got.value == src.Ending()
      invariant fresh(buf) && buf.Length == 32 * 1024
      decreases got.None?, src.Effort()
    {
      var n;
      ghost var left := src.Data();
      n, got := src.Read(buf, 0);
      Regroup(data, buf[0..n], src.Data());
      assert left == buf[0..n] + src.Data();
      data := data + buf[0..n];
    }
    end := got.value;
  }

  /** DecryptFile. The pipe of the compressed branch is passed on as a whole; see Pipes. */
  method DecryptFile(a: Aead, gunzip: Bytes -> Gunzipped, src: Reader, dst: Writer) returns (verdict: Verdict)
    requires Lawful(a)
    modifies src, dst
    ensures var (text, end) := DecodeBlob(a, gunzip, old(src.Data()), old(src.Ending()));
      && dst.out == old(dst.out) + Clip(text, old(dst.room))
      && verdict == if |text| > old(dst.room) then SinkFailed else end
  {
    hide DataOf, EndOf, DecodeFrames, FromUint32;
    ghost var blob, ending := src.Data(), src.Ending();
    var header := new byte[4];
    var n, read := ReadFull(src, header);
    if read != Full {
      return HeaderCut;
    }
    assert header[..] == header[..n] == blob[..4];
    if header[..] == PLAIN_MAGIC {
      verdict := DecryptChunked(a, src, dst);
    } else if header[..] == GZIP_MAGIC {
      var rest, end := Drain(src);
      var pw := new Writer(|rest|);
      var pr := new Reader([Event(rest, Some(end))]);
      SingleEvent(rest, end);
      PlaintextIsShorter(a, rest, end);
      var decErr := DecryptChunked(a, pr, pw);
      ghost var inner := DecodeChunked(a, rest, end);
      ClipFits(inner.0, |rest|);
      assert pw.out == inner.0;
      var g := gunzip(pw.out);
      var ok := dst.Write(g.out);
      verdict := if !ok then SinkFailed else if decErr != Done then decErr else if g.ok then Done else BadGzip;
    } else {
      verdict := UnknownFormat;
    }
  }

  lemma SingleEvent(data: Bytes, end: End)
    ensures DataOf([Event(data, Some(end))]) == data && EndOf([Event(data, Some(end))]) == end
  {
  }

  lemma {:induction false} FramesAreShorter(a: Aead, maxLen: nat, data: Bytes, end: End)
    requires Lawful(a)
    ensures |DecodeFrames(a, maxLen, data, end).0| <= |data|
    decreases |data|
  {
    if |data| >= 4 {
      var len := FromUint32(data[..4]);
      if 12 <= len && 4 + len <= |data| && len <= maxLen {
        var plain := a.open(data[4..16], data[16..4 + len]);
        if plain.Some? {
          FramesAreShorter(a, maxLen, data[4 + len..], end);
        }
      }
    }
  }

  lemma PlaintextIsShorter(a: Aead, data: Bytes, end: End)
    requires Lawful(a)
    ensures |DecodeChunked(a, data, end).0| <= |data|
  {
    if |data| >= 4 {
      FramesAreShorter(a, MaxDataLen(FromUint32(data[..4])), data[4..], end);
    }
  }

  method EncryptFile(a: Aead, nonces: nat -> Nonce, src: Reader, dst: Writer) returns (verdict: Verdict)
    modifies src, dst
    ensures var blob := Blob(PLAIN_MAGIC, a, nonces, old(src.Data()));
      && dst.out == old(dst.out) + Clip(blob, old(dst.room))
      && verdict == if |blob| > old(dst.room) then SinkFailed
                    else if old(src.Ending()) == Eof then Done else SourceFailed
  {
    verdict := EncryptWithMagic(PLAIN_MAGIC, a, nonces, src, dst);
  }

  /** What the compressing stage sends down the pipe; a failing source leaves the stream unfinished. */
  datatype Gzip = Gzip(whole: Bytes -> Bytes, unfinished: Bytes -> Bytes)

  /** The stream that a source's data and end turn into. */
  function Packed(gzip: Gzip, data: Bytes, end: End): Bytes {
    if end == Eof then gzip.whole(data) else gzip.unfinished(data)
  }

  /**
    The sink gives out while compressed bytes are left: inside the header, or in a frame with more of
    the stream behind it. The compressing stage then waits for a reader that is gone.
   */
  predicate Stalls(a: Aead, nonces: nat -> Nonce, packed: Bytes, room: nat) {
    |Blob(GZIP_MAGIC, a, nonces, packed)| > room && Consumed(|packed|, room) < |packed|
  }

  /** After the encryption the call waits for the compressing stage, whose pipe it does not close. */
  method CompressAndEncryptFile(a: Aead, nonces: nat -> Nonce, gzip: Gzip, src: Reader, dst: Writer)
    returns (verdict: Verdict)
    requires Lawful(a)
    modifies src, dst
    ensures var packed := Packed(gzip, old(src.Data()), old(src.Ending()));
      var blob := Blob(GZIP_MAGIC, a, nonces, packed);
      && dst.out == old(dst.out) + Clip(blob, old(dst.room))
      && verdict == if Stalls(a, nonces, packed, old(dst.room)) then NeverReturns
                    else if |blob| > old(dst.room) then SinkFailed
                    else if old(src.Ending()) == Eof then Done else SourceFailed
  {
    hide *;
    ghost var room := dst.room;
    var data, end := Drain(src);
    var packed := Packed(gzip, data, end);
    var pr := new Reader([Event(packed, Some(end))]);
    SingleEvent(packed, end);
    DataIs(pr);
    StallsIfUnread(a, nonces, packed, room);
    verdict := EncryptWithMagic(GZIP_MAGIC, a, nonces, pr, dst);
    var waiting, _ := Drain(pr);
    if verdict == SinkFailed && waiting != [] {
      verdict := NeverReturns;
    }
  }

  lemma DataIs(r: Reader)
    ensures r.Data() == DataOf(r.script) && r.Ending() == EndOf(r.script)
  {
  }

  lemma StallsIfUnread(a: Aead, nonces: nat -> Nonce, packed: Bytes, room: nat)
    ensures |GZIP_MAGIC| == 4
    ensures var blob := Blob(GZIP_MAGIC, a, nonces, packed);
      Stalls(a, nonces, packed, room) <==> |blob| > room && Unread(packed, blob, room) != []
  {
  }

  /** Where the last frame's chunk starts. */
  function LastChunk(size: nat): nat
    requires size > 0
  {
    (size - 1) / CHUNK * CHUNK
  }

  lemma LastChunkStart(size: nat)
    requires size > 0
    ensures LastChunk(size) < size <= LastChunk(size) + CHUNK && LastChunk(size) % CHUNK == 0
  {
    var q := (size - 1) / CHUNK;
    assert size - 1 == q * CHUNK + (size - 1) % CHUNK;
  }

  /** The call never returns exactly when the sink gives out before the last frame. */
  lemma StallsIff(a: Aead, nonces: nat -> Nonce, packed: Bytes, room: nat)
    requires Lawful(a)
    ensures Stalls(a, nonces, packed, room) <==> packed != [] && room < 8 + FramesSize(LastChunk(|packed|))
  {
    var size := |packed|;
    FramesAreThatLong(a, nonces, 0, packed);
    hide Lawful, Frames;
    if size > 0 {
      var last := LastChunk(size);
      LastChunkStart(size);
      SizeGrows(last, size);
      hide LastChunk, FramesSize;
      if room >= 8 {
        var kept := Kept(size, room - 8);
        KeptIsLargest(size, room - 8);
        if room >= 8 + FramesSize(last) {
          assert ChunkEnd(last, size);
        } else {
          if last <= kept {
            SizeGrows(last, kept);
          }
          NextMultiple(kept, last);
        }
      }
    }
  }

  // ---------- Round trip ----------

  /** Frames decode to their plaintext, and decoding goes on with whatever follows them. */
  lemma {:induction false} DecodeFramesOf(a: Aead, nonces: nat -> Nonce, i: nat, data: Bytes, tail: Bytes, end: End)
    requires Lawful(a)
    ensures var rest := DecodeFrames(a, MaxDataLen(CHUNK), tail, end);
      DecodeFrames(a, MaxDataLen(CHUNK), Frames(a, nonces, i, data) + tail, end) == (data + rest.0, rest.1)
    decreases |data|
  {
    var rest := DecodeFrames(a, MaxDataLen(CHUNK), tail, end);
    if data == [] {
      assert Frames(a, nonces, i, data) + tail == tail;
      assert data + rest.0 == rest.0;
    } else {
      var chunk := Clip(data, CHUNK);
      var more := Frames(a, nonces, i + 1, data[|chunk|..]);
      Regroup(Frame(a, nonces(i), chunk), more, tail);
      DecodeFrame(a, nonces(i), chunk, more + tail, end);
      DecodeFramesOf(a, nonces, i + 1, data[|chunk|..], tail, end);
      assert data == chunk + data[|chunk|..];
      Regroup(chunk, data[|chunk|..], rest.0);
    }
  }

  lemma FrameParts(a: Aead, nonce: Nonce, chunk: Bytes, tail: Bytes)
    requires Lawful(a)
    ensures var data := Frame(a, nonce, chunk) + tail; var len := |chunk| + 28;
      && |Frame(a, nonce, chunk)| == 4 + len
      && data[..4] == Uint32(len) && data[4..16] == nonce
      && data[16..4 + len] == a.seal(nonce, chunk) && data[4 + len..] == tail
  {
    hide Uint32;
  }

  /** One frame; its length field holds its exact length because no uint32 wraps at this chunk size. */
  lemma DecodeFrame(a: Aead, nonce: Nonce, chunk: Bytes, tail: Bytes, end: End)
    requires Lawful(a) && |chunk| <= CHUNK
    ensures |Frame(a, nonce, chunk)| == |chunk| + 32
    ensures var rest := DecodeFrames(a, MaxDataLen(CHUNK), tail, end);
      DecodeFrames(a, MaxDataLen(CHUNK), Frame(a, nonce, chunk) + tail, end) == (chunk + rest.0, rest.1)
  {
    hide Frame, Uint32, FromUint32, DecodeFrames;
    var data := Frame(a, nonce, chunk) + tail;
    FrameParts(a, nonce, chunk, tail);
    Uint32RoundTrip(|chunk| + 28);
    DecodeOne(a, MaxDataLen(CHUNK), data, end);
  }

  lemma BlobRoundTrip(a: Aead, nonces: nat -> Nonce, gunzip: Bytes -> Gunzipped, data: Bytes)
    requires Lawful(a)
    ensures DecodeBlob(a, gunzip, Blob(PLAIN_MAGIC, a, nonces, data), Eof) == (data, Done)
    ensures DecodeBlob(a, gunzip, Blob(GZIP_MAGIC, a, nonces, data), Eof) == Decompressed(gunzip, (data, Done))
  {
    var frames := Frames(a, nonces, 0, data);
    DecodeFramesOf(a, nonces, 0, data, [], Eof);
    assert frames + [] == frames && data + [] == data;
    Uint32RoundTrip(CHUNK);
    OpenHeader(PLAIN_MAGIC, frames);
    OpenHeader(GZIP_MAGIC, frames);
  }

  lemma OpenHeader(magic: Bytes, rest: Bytes)
    requires |magic| == 4
    ensures var blob := Header(magic) + rest;
      blob[..4] == magic && blob[4..][..4] == Uint32(CHUNK) && blob[4..][4..] == rest
  {
  }

  /** The compressed round trip, for any gzip that gunzip undoes. */
  lemma CompressedRoundTrip(a: Aead, nonces: nat -> Nonce, gzip: Gzip, gunzip: Bytes -> Gunzipped, data: Bytes)
    requires Lawful(a)
    requires gunzip(gzip.whole(data)) == Gunzipped(data, true)
    ensures DecodeBlob(a, gunzip, Blob(GZIP_MAGIC, a, nonces, gzip.whole(data)), Eof) == (data, Done)
  {
    BlobRoundTrip(a, nonces, gunzip, gzip.whole(data));
  }

  /** When the source failed, the blob left behind is turned down, if gunzip turns down unfinished streams. */
  lemma UnfinishedIsTurnedDown(a: Aead, nonces: nat -> Nonce, gzip: Gzip, gunzip: Bytes -> Gunzipped, data: Bytes)
    requires Lawful(a) && !gunzip(gzip.unfinished(data)).ok
    ensures DecodeBlob(a, gunzip, Blob(GZIP_MAGIC, a, nonces, Packed(gzip, data, Failed)), Eof).1 == BadGzip
  {
    BlobRoundTrip(a, nonces, gunzip, gzip.unfinished(data));
  }

  // ---------- Where the frames are, and what a cut leaves ----------

  /** The bytes taken by the frames of m bytes of plaintext. */
  function FramesSize(m: nat): nat {
    m + 32 * ((m + CHUNK - 1) / CHUNK)
  }

  /** A plaintext position at which some frame ends (or none has begun). */
  predicate ChunkEnd(m: nat, size: nat) {
    m <= size && (m == size || m % CHUNK == 0)
  }

  /** The bytes of plaintext in the first frame. */
  function First(size: nat): nat {
    if size <= CHUNK then size else CHUNK
  }

  lemma FirstChunk(size: nat, m: nat)
    requires 0 < size
    ensures ChunkEnd(m, size) <==> m == 0 || (First(size) <= m && ChunkEnd(m - First(size), size - First(size)))
    ensures FramesSize(0) == 0
    ensures First(size) <= m <= size ==> FramesSize(m) == First(size) + 32 + FramesSize(m - First(size))
  {
  }

  lemma {:induction false} FramesAreThatLong(a: Aead, nonces: nat -> Nonce, i: nat, data: Bytes)
    requires Lawful(a)
    ensures |Frames(a, nonces, i, data)| == FramesSize(|data|)
    decreases |data|
  {
    if data != [] {
      var chunk := Clip(data, CHUNK);
      DecodeFrame(a, nonces(i), chunk, [], Eof);
      FramesAreThatLong(a, nonces, i + 1, data[|chunk|..]);
      FirstChunk(|data|, |data|);
    }
  }

  /** The frame of the chunk that starts at plaintext position m sits right after those before it,
      under its own nonce, and holds exactly CHUNK bytes, or what is left in the last frame. */
  lemma {:induction false} FrameAt(a: Aead, nonces: nat -> Nonce, i: nat, data: Bytes, m: nat)
    requires Lawful(a) && m % CHUNK == 0 && m < |data|
    ensures FramesSize(m) <= |Frames(a, nonces, i, data)|
    ensures Frame(a, nonces(i + m / CHUNK), Clip(data[m..], CHUNK))
         <= Frames(a, nonces, i, data)[FramesSize(m)..]
    decreases m
  {
    hide Frame, FramesSize, Clip;
    var chunk := Clip(data, CHUNK);
    var all := Frames(a, nonces, i, data);
    var first := Frame(a, nonces(i), chunk);
    NoChunks();
    if m == 0 {
      assert data[0..] == data && all[0..] == all;
      assert all == first + Frames(a, nonces, i + 1, data[|chunk|..]);
    } else {
      var rest := data[CHUNK..];
      var later := Frames(a, nonces, i + 1, rest);
      FrameAt(a, nonces, i + 1, rest, m - CHUNK);
      assert rest[m - CHUNK..] == data[m..];
      assert (m - CHUNK) / CHUNK + 1 == m / CHUNK;
      DecodeFrame(a, nonces(i), chunk, [], Eof);
      FirstChunk(|data|, m);
      assert all == first + later;
      assert all[FramesSize(m)..] == later[FramesSize(m - CHUNK)..];
    }
  }

  /** The plaintext of the frames that are complete in the first k bytes. */
  function Kept(size: nat, k: nat): (m: nat)
    ensures m <= size
    decreases size
  {
    if size == 0 || k < First(size) + 32 then 0
    else First(size) + Kept(size - First(size), k - First(size) - 32)
  }

  lemma {:induction false} KeptIsLargest(size: nat, k: nat)
    ensures ChunkEnd(Kept(size, k), size) && FramesSize(Kept(size, k)) <= k
    ensures forall m: nat :: ChunkEnd(m, size) && FramesSize(m) <= k ==> m <= Kept(size, k)
    decreases size
  {
    hide ChunkEnd, FramesSize;
    if size == 0 {
      NoChunks();
    } else {
      var first := First(size);
      FirstChunk(size, Kept(size, k));
      if k >= first + 32 {
        KeptIsLargest(size - first, k - first - 32);
      }
      forall m: nat | ChunkEnd(m, size) && FramesSize(m) <= k
        ensures m <= Kept(size, k)
      {
        FirstChunk(size, m);
        EndWithin(m, size);
      }
    }
  }

  lemma EndWithin(m: nat, size: nat)
    requires ChunkEnd(m, size)
    ensures m <= size
  {
  }

  lemma NoChunks()
    ensures FramesSize(0) == 0 && ChunkEnd(0, 0)
    ensures forall m: nat :: ChunkEnd(m, 0) ==> m == 0
  {
  }

  /** What cutting the frames of data after k bytes leaves of them. */
  ghost predicate CutLeavesWhole(a: Aead, nonces: nat -> Nonce, i: nat, data: Bytes, k: nat)
    requires k <= |Frames(a, nonces, i, data)|
  {
    var (text, verdict) := DecodeFrames(a, MaxDataLen(CHUNK), Frames(a, nonces, i, data)[..k], Eof);
    && text == data[..Kept(|data|, k)]
    && (verdict == Done <==> k == FramesSize(Kept(|data|, k)))
  }

  lemma {:induction false} CutFrames(a: Aead, nonces: nat -> Nonce, i: nat, data: Bytes, k: nat)
    requires Lawful(a) && k <= |Frames(a, nonces, i, data)|
    ensures CutLeavesWhole(a, nonces, i, data, k)
    decreases |data|
  {
    hide Frame, FramesSize, ChunkEnd, DecodeFrames, MaxDataLen, Lawful;
    NoChunks();
    DecodeOne(a, MaxDataLen(CHUNK), [], Eof);
    if data == [] {
      assert Frames(a, nonces, i, data)[..k] == [];
    } else {
      var chunk := Clip(data, CHUNK);
      var first := Frame(a, nonces(i), chunk);
      var rest := Frames(a, nonces, i + 1, data[|chunk|..]);
      DecodeFrame(a, nonces(i), chunk, [], Eof);
      if k < |first| {
        assert (first + rest)[..k] == first[..k];
        CutFrame(a, nonces(i), chunk, k);
      } else {
        CutFrames(a, nonces, i + 1, data[|chunk|..], k - |first|);
        CutLater(a, nonces, i, data, k);
      }
    }
  }

  /** The step past a complete first frame. */
  lemma CutLater(a: Aead, nonces: nat -> Nonce, i: nat, data: Bytes, k: nat)
    requires Lawful(a) && data != []
    requires var chunk := Clip(data, CHUNK);
      && |chunk| + 32 <= k && k - |chunk| - 32 <= |Frames(a, nonces, i + 1, data[|chunk|..])|
      && CutLeavesWhole(a, nonces, i + 1, data[|chunk|..], k - |chunk| - 32)
    ensures k <= |Frames(a, nonces, i, data)| && CutLeavesWhole(a, nonces, i, data, k)
  {
    hide Frame, FramesSize, ChunkEnd, DecodeFrames, MaxDataLen, Lawful;
    var chunk := Clip(data, CHUNK);
    var first := Frame(a, nonces(i), chunk);
    var rest := Frames(a, nonces, i + 1, data[|chunk|..]);
    var later := k - |chunk| - 32;
    var kept := Kept(|data| - |chunk|, later);
    DecodeFrame(a, nonces(i), chunk, rest[..later], Eof);
    TakeJoin(first, rest, later);
    FirstChunk(|data|, |chunk| + kept);
    TakeJoin(chunk, data[|chunk|..], kept);
    assert data == chunk + data[|chunk|..];
  }

  lemma TakeJoin(a: Bytes, b: Bytes, n: nat)
    requires n <= |b|
    ensures (a + b)[..|a| + n] == a + b[..n]
  {
  }

  lemma CutFrame(a: Aead, nonce: Nonce, chunk: Bytes, k: nat)
    requires Lawful(a) && |chunk| <= CHUNK && k < |chunk| + 32
    requires k <= |Frame(a, nonce, chunk)|
    ensures var r := DecodeFrames(a, MaxDataLen(CHUNK), Frame(a, nonce, chunk)[..k], Eof);
      r.0 == [] && (r.1 == Done <==> k == 0)
  {
    var len := 12 + |a.seal(nonce, chunk)|;
    var data := Frame(a, nonce, chunk)[..k];
    hide DecodeFrames, Uint32, FromUint32;
    DecodeOne(a, MaxDataLen(CHUNK), data, Eof);
    Uint32RoundTrip(len);
    if k >= 4 {
      assert data[..4] == Uint32(len);
    }
  }

  /**
    Cutting an uncompressed blob after k bytes. Decryption writes exactly the plaintext of the
    complete frames, and it fails unless the cut falls at the end of the header or of a frame.
   */
  lemma CutBlob(a: Aead, nonces: nat -> Nonce, gunzip: Bytes -> Gunzipped, data: Bytes, k: nat)
    requires Lawful(a) && k <= |Blob(PLAIN_MAGIC, a, nonces, data)|
    ensures var (text, verdict) := DecodeBlob(a, gunzip, Blob(PLAIN_MAGIC, a, nonces, data)[..k], Eof);
      && text == (if k < 8 then [] else data[..Kept(|data|, k - 8)])
      && (verdict == Done <==> exists m :: ChunkEnd(m, |data|) && k == 8 + FramesSize(m))
  {
    var frames := Frames(a, nonces, 0, data);
    var cut := Blob(PLAIN_MAGIC, a, nonces, data)[..k];
    OpenHeader(PLAIN_MAGIC, frames);
    Uint32RoundTrip(CHUNK);
    if k >= 4 {
      assert cut[..4] == PLAIN_MAGIC;
    }
    if k >= 8 {
      assert cut[4..][..4] == Uint32(CHUNK) && cut[4..][4..] == frames[..k - 8];
      CutFrames(a, nonces, 0, data, k - 8);
      var kept := Kept(|data|, k - 8);
      KeptIsLargest(|data|, k - 8);
      if exists m :: ChunkEnd(m, |data|) && k == 8 + FramesSize(m) {
        var m :| ChunkEnd(m, |data|) && k == 8 + FramesSize(m);
        assert m <= kept;
        SizeGrows(m, kept);
      }
    }
  }

  lemma SizeGrows(m: nat, n: nat)
    requires m <= n
    ensures FramesSize(m) <= FramesSize(n)
  {
  }
}
