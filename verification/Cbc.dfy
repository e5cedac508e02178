/**
  Streaming AES-CBC with PKCS#7 padding, as used for database dumps. The block cipher is any
  pair of functions on 16-byte blocks, the second undoing the first. CBC is section 6.2 of
  NIST SP 800-38A; the padding is that of section 6.3 of RFC 5652.
 */
module Cbc {
  import opened Basics
  import opened Streams

  const BUFFER: nat := 32 * 1024

  type Block = b: Bytes | |b| == 16 witness seq(16, i => 0)

  // ---------- Whole numbers of blocks ----------

  predicate Aligned(n: nat) {
    n % 16 == 0
  }

  lemma NextBlock(i: nat, size: nat)
    requires Aligned(i) && Aligned(size) && i < size
    ensures i + 16 <= size && Aligned(i + 16)
  {
  }

  lemma FirstBlock(n: nat)
    requires Aligned(n) && n > 0
    ensures n >= 16 && Aligned(n - 16)
  {
  }

  lemma AlignedSum(m: nat, n: nat)
    requires Aligned(m) && Aligned(n)
    ensures Aligned(m + n)
  {
  }

  // ---------- One-shot CBC ----------

  function Pow2(bits: nat): (r: nat)
    ensures r > 0
  {
    if bits == 0 then 1 else 2 * Pow2(bits - 1)
  }

  /** Exclusive or, bit by bit. */
  function XorBits(a: nat, b: nat, bits: nat): (r: nat)
    requires a < Pow2(bits) && b < Pow2(bits)
    ensures r < Pow2(bits)
  {
    if bits == 0 then 0 else 2 * XorBits(a / 2, b / 2, bits - 1) + (a + b) % 2
  }

  function Xor(a: byte, b: byte): byte {
    assert Pow2(8) == 256;
    XorBits(a as nat, b as nat, 8) as byte
  }

  lemma {:induction false} XorBitsCancels(a: nat, b: nat, bits: nat)
    requires a < Pow2(bits) && b < Pow2(bits)
    ensures XorBits(XorBits(a, b, bits), b, bits) == a
  {
    if bits > 0 {
      var high := XorBits(a / 2, b / 2, bits - 1);
      XorBitsUnfolds(a, b, bits);
      XorBitsUnfolds(XorBits(a, b, bits), b, bits);
      hide XorBits, Pow2;
      LastBitCancels(a, b, high);
      XorBitsCancels(a / 2, b / 2, bits - 1);
    }
  }

  lemma XorBitsUnfolds(a: nat, b: nat, bits: nat)
    requires bits > 0 && a < Pow2(bits) && b < Pow2(bits)
    ensures a / 2 < Pow2(bits - 1) && b / 2 < Pow2(bits - 1)
    ensures XorBits(a, b, bits) == 2 * XorBits(a / 2, b / 2, bits - 1) + (a + b) % 2
  {
  }

  lemma LastBitCancels(a: nat, b: nat, high: nat)
    ensures var x := 2 * high + (a + b) % 2;
      x / 2 == high && (x + b) % 2 == a % 2
  {
  }

  lemma XorCancels(a: byte, b: byte)
    ensures Xor(Xor(a, b), b) == a
  {
    assert Pow2(8) == 256;
    XorBitsCancels(a as nat, b as nat, 8);
  }

  function XorBlock(a: Block, b: Block): Block {
    seq(16, i requires 0 <= i < 16 => Xor(a[i], b[i]))
  }

  function CbcEncrypt(enc: Block -> Block, iv: Block, data: Bytes): (r: Bytes)
    requires Aligned(|data|)
    ensures |r| == |data|
    decreases |data|
  {
    if data == [] then []
    else
      var c := enc(XorBlock(data[..16], iv));
      c + CbcEncrypt(enc, c, data[16..])
  }

  function CbcDecrypt(dec: Block -> Block, iv: Block, data: Bytes): (r: Bytes)
    requires Aligned(|data|)
    ensures |r| == |data|
    decreases |data|
  {
    if data == [] then []
    else XorBlock(dec(data[..16]), iv) + CbcDecrypt(dec, data[..16], data[16..])
  }

  /** The chaining value left behind by a ciphertext. */
  function LastBlock(iv: Block, ciphertext: Bytes): Block {
    if |ciphertext| < 16 then iv else ciphertext[|ciphertext| - 16..]
  }

  lemma XorBlockCancels(a: Block, b: Block)
    ensures XorBlock(XorBlock(a, b), b) == a
  {
    forall i | 0 <= i < 16
      ensures XorBlock(XorBlock(a, b), b)[i] == a[i]
    {
      XorCancels(a[i], b[i]);
    }
  }

  lemma EncryptOne(enc: Block -> Block, iv: Block, b: Block)
    ensures CbcEncrypt(enc, iv, b) == enc(XorBlock(b, iv))
  {
    assert b[..16] == b && b[16..] == [];
    assert CbcEncrypt(enc, enc(XorBlock(b, iv)), b[16..]) == [];
  }

  lemma DecryptOne(dec: Block -> Block, iv: Block, b: Block)
    ensures CbcDecrypt(dec, iv, b) == XorBlock(dec(b), iv)
  {
    assert b[..16] == b && b[16..] == [];
    assert CbcDecrypt(dec, b, b[16..]) == [];
  }

  lemma {:induction false} EncryptAppend(enc: Block -> Block, iv: Block, a: Bytes, b: Bytes)
    requires Aligned(|a|) && Aligned(|b|)
    ensures Aligned(|a + b|)
    ensures CbcEncrypt(enc, iv, a + b)
         == CbcEncrypt(enc, iv, a) + CbcEncrypt(enc, LastBlock(iv, CbcEncrypt(enc, iv, a)), b)
    decreases |a|
  {
    AlignedSum(|a|, |b|);
    hide Aligned;
    if a == [] {
      assert a + b == b;
    } else {
      FirstBlock(|a|);
      AlignedSum(|a| - 16, |b|);
      var c := enc(XorBlock(a[..16], iv));
      EncryptAppend(enc, c, a[16..], b);
      assert (a + b)[..16] == a[..16] && (a + b)[16..] == a[16..] + b;
      assert LastBlock(iv, c + CbcEncrypt(enc, c, a[16..])) == LastBlock(c, CbcEncrypt(enc, c, a[16..]));
    }
  }

  lemma {:induction false} DecryptAppend(dec: Block -> Block, iv: Block, a: Bytes, b: Bytes)
    requires Aligned(|a|) && Aligned(|b|)
    ensures Aligned(|a + b|)
    ensures CbcDecrypt(dec, iv, a + b) == CbcDecrypt(dec, iv, a) + CbcDecrypt(dec, LastBlock(iv, a), b)
    decreases |a|
  {
    AlignedSum(|a|, |b|);
    hide Aligned;
    if a == [] {
      assert a + b == b;
    } else {
      FirstBlock(|a|);
      AlignedSum(|a| - 16, |b|);
      DecryptAppend(dec, a[..16], a[16..], b);
      assert (a + b)[..16] == a[..16] && (a + b)[16..] == a[16..] + b;
      assert LastBlock(iv, a) == LastBlock(a[..16], a[16..]);
    }
  }

  /** Decryption undoes encryption, whatever the block cipher. */
  lemma {:induction false} DecryptUndoesEncrypt(enc: Block -> Block, dec: Block -> Block, iv: Block, data: Bytes)
    requires Aligned(|data|)
    requires forall b :: dec(enc(b)) == b
    ensures CbcDecrypt(dec, iv, CbcEncrypt(enc, iv, data)) == data
    decreases |data|
  {
    if data != [] {
      var c := enc(XorBlock(data[..16], iv));
      var out := CbcEncrypt(enc, iv, data);
      assert out[..16] == c && out[16..] == CbcEncrypt(enc, c, data[16..]);
      XorBlockCancels(data[..16], iv);
      DecryptUndoesEncrypt(enc, dec, c, data[16..]);
    }
  }

  lemma {:induction false} EncryptUndoesDecrypt(enc: Block -> Block, dec: Block -> Block, iv: Block, data: Bytes)
    requires Aligned(|data|)
    requires forall b :: enc(dec(b)) == b
    ensures CbcEncrypt(enc, iv, CbcDecrypt(dec, iv, data)) == data
    decreases |data|
  {
    if data != [] {
      var p := XorBlock(dec(data[..16]), iv);
      var out := CbcDecrypt(dec, iv, data);
      assert out[..16] == p && out[16..] == CbcDecrypt(dec, data[..16], data[16..]);
      XorBlockCancels(dec(data[..16]), iv);
      EncryptUndoesDecrypt(enc, dec, data[..16], data[16..]);
    }
  }

  // ---------- Block modes: the chaining state a stream of calls shares ----------

  method StoreBlock(buf: array<byte>, i: nat, b: Block)
    requires i + 16 <= buf.Length
    modifies buf
    ensures buf[..i] == old(buf[..i])
    ensures buf[i..i + 16] == b
    ensures buf[..i + 16] == old(buf[..i]) + b
    ensures buf[i + 16..] == old(buf[i + 16..])
  {
    forall k | 0 <= k < 16 {
      buf[i + k] := b[k];
    }
    assert buf[i..i + 16] == b;
    assert buf[..i + 16] == buf[..i] + buf[i..i + 16];
  }

  lemma LastBlockIs(iv: Block, text: Bytes, b: Block)
    requires |text| >= 16 && text[|text| - 16..] == b
    ensures LastBlock(iv, text) == b
  {
  }

  lemma NothingYet(f: Block -> Block, iv: Block)
    ensures CbcEncrypt(f, iv, []) == [] && CbcDecrypt(f, iv, []) == [] && LastBlock(iv, []) == iv
  {
  }

  class Encrypter {
    const enc: Block -> Block
    var chain: Block

    constructor (enc: Block -> Block, iv: Block)
      ensures this.enc == enc && chain == iv
    {
      this.enc, chain := enc, iv;
    }

    /** Encrypts buf[..size] in place. */
    method CryptBlocks(buf: array<byte>, size: nat)
      requires size <= buf.Length && Aligned(size)
      modifies this, buf
      ensures buf[..size] == CbcEncrypt(enc, old(chain), old(buf[..size]))
      ensures buf[size..] == old(buf[size..])
      ensures chain == LastBlock(old(chain), buf[..size])
    {
      assert Aligned(0);
      hide Aligned, CbcEncrypt, CbcDecrypt, LastBlock;
      var i := 0;
      ghost var start, iv := buf[..], chain;
      ghost var text := start[..size];
      NothingYet(enc, iv);
      while i < size
        invariant 0 <= i <= size && Aligned(i)
        invariant buf[i..] == start[i..]
        invariant buf[..i] == CbcEncrypt(enc, iv, text[..i])
        invariant chain == LastBlock(iv, buf[..i])
      {
        NextBlock(i, size);
        var plain: Block := buf[i..i + 16];
        ghost var before := chain;
        var c := enc(XorBlock(plain, chain));
        StoreBlock(buf, i, c);
        assert buf[i + 16..] == start[i..][16..];
        chain := c;
        assert plain == start[i..][..16] == text[i..i + 16];
        assert text[..i + 16] == text[..i] + plain;
        EncryptAppend(enc, iv, text[..i], plain);
        EncryptOne(enc, before, plain);
        LastBlockIs(iv, buf[..i + 16], c);
        i := i + 16;
      }
      assert text[..i] == text;
    }
  }

  class Decrypter {
    const dec: Block -> Block
    var chain: Block

    constructor (dec: Block -> Block, iv: Block)
      ensures this.dec == dec && chain == iv
    {
      this.dec, chain := dec, iv;
    }

    /** Decrypts buf[..size] in place. */
    method CryptBlocks(buf: array<byte>, size: nat)
      requires size <= buf.Length && Aligned(size)
      modifies this, buf
      ensures buf[..size] == CbcDecrypt(dec, old(chain), old(buf[..size]))
      ensures buf[size..] == old(buf[size..])
      ensures chain == LastBlock(old(chain), old(buf[..size]))
    {
      assert Aligned(0);
      hide Aligned, CbcEncrypt, CbcDecrypt, LastBlock;
      var i := 0;
      ghost var start, iv := buf[..], chain;
      ghost var text := start[..size];
      NothingYet(dec, iv);
      while i < size
        invariant 0 <= i <= size && Aligned(i)
        invariant buf[i..] == start[i..]
        invariant buf[..i] == CbcDecrypt(dec, iv, text[..i])
        invariant chain == LastBlock(iv, text[..i])
      {
        NextBlock(i, size);
        var c: Block := buf[i..i + 16];
        ghost var before := chain;
        var plain := XorBlock(dec(c), chain);
        StoreBlock(buf, i, plain);
        assert buf[i + 16..] == start[i..][16..];
        chain := c;
        assert c == start[i..][..16] == text[i..i + 16];
        assert text[..i + 16] == text[..i] + c;
        DecryptAppend(dec, iv, text[..i], c);
        DecryptOne(dec, before, c);
        LastBlockIs(iv, text[..i + 16], c);
        i := i + 16;
      }
      assert text[..i] == text;
    }
  }

  // ---------- Padding ----------

  function PadLength(size: nat): (k: nat)
    ensures 1 <= k <= 16 && Aligned(size + k)
  {
    16 - size % 16
  }

  function Fill(k: nat): (p: Bytes)
    requires k < 256
    ensures |p| == k
  {
    seq(k, i => k as byte)
  }

  function Pad(text: Bytes): (p: Bytes)
    ensures Aligned(|p|)
  {
    text + Fill(PadLength(|text|))
  }

  predicate ValidPadding(p: Bytes) {
    p != [] &&
    var k := p[|p| - 1] as int;
    && 1 <= k <= 16 && k <= |p|
    && forall i | |p| - k <= i < |p| :: p[i] as int == k
  }

  function Unpad(p: Bytes): Bytes
    requires ValidPadding(p)
  {
    p[..|p| - p[|p| - 1] as int]
  }

  lemma PadIsValid(text: Bytes)
    ensures ValidPadding(Pad(text)) && Unpad(Pad(text)) == text
  {
    var k := PadLength(|text|);
    var p := Pad(text);
    forall i | |text| <= i < |p|
      ensures p[i] as int == k
    {
      assert p[i] == Fill(k)[i - |text|];
    }
  }

  /** Nothing but a padded text passes the padding check. */
  lemma ValidIsPad(p: Bytes)
    requires Aligned(|p|) && ValidPadding(p)
    ensures p == Pad(Unpad(p))
  {
    var k := p[|p| - 1] as int;
    var tail := p[|p| - k..];
    assert PadLength(|p| - k) == k;
    forall i | 0 <= i < k
      ensures tail[i] == k as byte
    {
      SameByte(p[|p| - k + i], k);
    }
    assert tail == Fill(k);
    assert p == Unpad(p) + tail;
  }

  lemma SameByte(b: byte, k: nat)
    requires b as int == k
    ensures k < 256 && b == k as byte
  {
  }

  // ---------- Streaming ----------

  datatype Verdict = Done | SourceFailed | SinkFailed | NotAligned | Empty | BadPadding | BadHeader

  /** The complete blocks at the front of a text. */
  function Whole(text: Bytes): (w: Bytes)
    ensures Aligned(|w|) && |w| <= |text| < |w| + 16 && w == text[..|w|]
  {
    text[..|text| / 16 * 16]
  }

  /** Everything encryption has to write for a source that delivers text and then ends. */
  function Encrypted(enc: Block -> Block, iv: Block, text: Bytes, end: End): Bytes {
    CbcEncrypt(enc, iv, if end == Eof then Pad(text) else Whole(text))
  }

  /** Everything decryption has to write, and how it ends when the sink takes all of it. */
  function Decrypted(dec: Block -> Block, iv: Block, text: Bytes, end: End): (Bytes, Verdict) {
    var plain := CbcDecrypt(dec, iv, Whole(text));
    var allButLast := if plain == [] then [] else plain[..|plain| - 16];
    if end == Failed then (allButLast, SourceFailed)
    else if !Aligned(|text|) then (allButLast, NotAligned)
    else if text == [] then ([], Empty)
    else if !ValidPadding(plain) then (allButLast, BadPadding)
    else (Unpad(plain), Done)
  }

  /** What has been written for part of a source begins what is written for all of it. */
  lemma EncryptedSoFar(enc: Block -> Block, iv: Block, part: Bytes, rest: Bytes, end: End)
    ensures EncryptedPart(enc, iv, part) <= Encrypted(enc, iv, part + rest, end)
  {
    var text := part + rest;
    var full := if end == Eof then Pad(text) else Whole(text);
    var w := |Whole(part)|;
    assert full[..w] == Whole(part);
    assert full == full[..w] + full[w..];
    EncryptAppend(enc, iv, full[..w], full[w..]);
  }

  /** The bytes held back from one read and the bytes of the next, in one buffer. */
  method Join(pending: Bytes, buf: array<byte>, n: nat) returns (data: array<byte>)
    requires n <= buf.Length
    ensures fresh(data) && data[..] == pending + buf[..n]
  {
    data := new byte[|pending| + n];
    forall i | 0 <= i < |pending| {
      data[i] := pending[i];
    }
    forall i | 0 <= i < n {
      data[|pending| + i] := buf[i];
    }
    assert data[..|pending|] == pending && data[|pending|..] == buf[..n];
    assert data[..] == data[..|pending|] + data[|pending|..];
  }

  /** Encrypts and writes the complete blocks of data and returns the bytes left over. */
  method EncryptFull(data: array<byte>, dst: Writer, mode: Encrypter) returns (pending: Bytes, ok: bool)
    modifies data, dst, mode
    ensures var full := Whole(old(data[..])); var c := CbcEncrypt(mode.enc, old(mode.chain), full);
      && pending == old(data[..])[|full|..]
      && (ok <==> |c| <= old(dst.room))
      && dst.out == old(dst.out) + Clip(c, old(dst.room))
      && dst.room == old(dst.room) - |Clip(c, old(dst.room))|
      && mode.chain == LastBlock(old(mode.chain), c)
  {
    var full := data.Length / 16 * 16;
    ghost var text, iv := data[..], mode.chain;
    assert data[..full] == text[..full] == Whole(text);
    assert data[full..] == text[full..];
    if full == 0 {
      return data[..], true;
    }
    mode.CryptBlocks(data, full);
    ghost var c := CbcEncrypt(mode.enc, iv, Whole(text));
    assert data[..full] == c;
    ok := dst.Write(data[..full]);
    pending := data[full..];
  }

  lemma LastBlockAppend(iv: Block, a: Bytes, b: Bytes)
    requires Aligned(|b|)
    ensures LastBlock(iv, a + b) == LastBlock(LastBlock(iv, a), b)
  {
    if b == [] {
      assert a + b == a;
    } else {
      assert (a + b)[|a + b| - 16..] == b[|b| - 16..];
    }
  }

  /** Carrying the incomplete block over to the next piece loses nothing. */
  lemma CarryOver(before: Bytes, piece: Bytes)
    ensures var data := before[|Whole(before)|..] + piece;
      && Whole(before + piece) == Whole(before) + Whole(data)
      && data[|Whole(data)|..] == (before + piece)[|Whole(before + piece)|..]
  {
    var w := |Whole(before)|;
    var data := before[w..] + piece;
    assert before == Whole(before) + before[w..];
    assert before + piece == Whole(before) + data;
    assert |Whole(before + piece)| == w + |Whole(data)|;
  }

  lemma EncryptStep(enc: Block -> Block, iv: Block, before: Bytes, piece: Bytes)
    ensures var c := CbcEncrypt(enc, iv, Whole(before));
      var more := CbcEncrypt(enc, LastBlock(iv, c), Whole(before[|Whole(before)|..] + piece));
      && CbcEncrypt(enc, iv, Whole(before + piece)) == c + more
      && LastBlock(iv, c + more) == LastBlock(LastBlock(iv, c), more)
  {
    CarryOver(before, piece);
    var full := Whole(before[|Whole(before)|..] + piece);
    EncryptAppend(enc, iv, Whole(before), full);
    var c := CbcEncrypt(enc, iv, Whole(before));
    LastBlockAppend(iv, c, CbcEncrypt(enc, LastBlock(iv, c), full));
  }

  /** The ciphertext of the complete blocks taken in so far. */
  function EncryptedPart(enc: Block -> Block, iv: Block, taken: Bytes): Bytes {
    CbcEncrypt(enc, iv, Whole(taken))
  }

  /** Between two reads: the incomplete block is pending and the mode is ready to go on. */
  ghost predicate Encrypting(mode: Encrypter, iv: Block, taken: Bytes, pending: Bytes)
    reads mode
  {
    && pending == taken[|Whole(taken)|..]
    && mode.chain == LastBlock(iv, EncryptedPart(mode.enc, iv, taken))
  }

  lemma PadPending(text: Bytes)
    ensures Pad(text) == Whole(text) + Pad(text[|Whole(text)|..])
  {
    var w, rest := Whole(text), text[|Whole(text)|..];
    assert PadLength(|text|) == PadLength(|rest|);
    assert text == w + rest;
  }

  lemma EncryptBegin(mode: Encrypter)
    ensures Encrypting(mode, mode.chain, [], []) && EncryptedPart(mode.enc, mode.chain, []) == []
  {
  }

  /** What remains to be written once the source has ended: the padded last block, or nothing. */
  lemma EncryptEnd(mode: Encrypter, iv: Block, text: Bytes, pending: Bytes, end: End)
    requires Encrypting(mode, iv, text, pending)
    ensures Aligned(|Pad(pending)|)
    ensures Encrypted(mode.enc, iv, text, end)
         == EncryptedPart(mode.enc, iv, text)
            + if end == Eof then CbcEncrypt(mode.enc, mode.chain, Pad(pending)) else []
  {
    if end == Eof {
      PadPending(text);
      EncryptAppend(mode.enc, iv, Whole(text), Pad(pending));
    }
  }

  method EncryptPiece(buf: array<byte>, n: nat, held: Bytes, dst: Writer, mode: Encrypter,
                      ghost iv: Block, ghost taken: Bytes)
    returns (pending: Bytes, ok: bool)
    requires n <= buf.Length && Encrypting(mode, iv, taken, held)
    modifies dst, mode
    ensures Encrypting(mode, iv, taken + buf[..n], pending)
    ensures var done := EncryptedPart(mode.enc, iv, taken);
      var all := EncryptedPart(mode.enc, iv, taken + buf[..n]);
      && done <= all
      && (ok <==> |all| - |done| <= old(dst.room))
      && dst.out == old(dst.out) + Clip(all[|done|..], old(dst.room))
      && dst.room == old(dst.room) - |Clip(all[|done|..], old(dst.room))|
  {
    EncryptStep(mode.enc, iv, taken, buf[..n]);
    CarryOver(taken, buf[..n]);
    var data := Join(held, buf, n);
    pending, ok := EncryptFull(data, dst, mode);
  }

  method EncryptCbcWithPkcs7(src: Reader, dst: Writer, mode: Encrypter) returns (verdict: Verdict)
    modifies src, dst, mode
    ensures var text := Encrypted(mode.enc, old(mode.chain), old(src.Data()), old(src.Ending()));
      && dst.out == old(dst.out) + Clip(text, old(dst.room))
      && verdict == if |text| > old(dst.room) then SinkFailed
                    else if old(src.Ending()) == Eof then Done else SourceFailed
  {
    hide CbcEncrypt, DataOf, EndOf, LastBlock, EncryptedPart, Encrypting, Encrypted;
    ghost var iv, room, out := mode.chain, dst.room, dst.out;
    ghost var all, ending := src.Data(), src.Ending();
    ghost var text := Encrypted(mode.enc, iv, all, ending);
    ghost var taken: Bytes := [];
    var buf := new byte[BUFFER];
    var pending: Bytes := [];
    var end: Option<End> := None;
    EncryptBegin(mode);
    while end.None?
      invariant all == taken + src.Data() && ending == src.Ending()
      invariant end.Some? ==> src.Data() == [] && end.value == ending
      invariant Encrypting(mode, iv, taken, pending)
      invariant dst.out == out + EncryptedPart(mode.enc, iv, taken)
      invariant dst.room == room - |EncryptedPart(mode.enc, iv, taken)|
      invariant fresh(buf) && buf.Length == BUFFER
      decreases end.None?, src.Effort()
    {
      var n;
      n, end := src.Read(buf, 0);
      ghost var before := taken;
      taken := taken + buf[0..n];
      assert all == taken + src.Data();
      if n > 0 {
        var ok;
        pending, ok := EncryptPiece(buf, n, pending, dst, mode, iv, before);
        if !ok {
          EncryptedSoFar(mode.enc, iv, taken, src.Data(), ending);
          ghost var done := EncryptedPart(mode.enc, iv, before);
          ClipMore(done, EncryptedPart(mode.enc, iv, taken)[|done|..], text, room);
          return SinkFailed;
        }
      } else {
        assert taken == before;
      }
    }
    assert taken == all;
    EncryptEnd(mode, iv, all, pending, ending);
    if end.value == Failed {
      return SourceFailed;
    }
    ghost var done := EncryptedPart(mode.enc, iv, all);
    ClipMore(done, CbcEncrypt(mode.enc, mode.chain, Pad(pending)), text, room);
    verdict := EncryptLast(pending, dst, mode);
  }

  /** Pads, encrypts and writes the bytes left over at the end of the text. */
  method EncryptLast(pending: Bytes, dst: Writer, mode: Encrypter) returns (verdict: Verdict)
    modifies dst, mode
    ensures var c := CbcEncrypt(mode.enc, old(mode.chain), Pad(pending));
      && dst.out == old(dst.out) + Clip(c, old(dst.room))
      && verdict == if |c| > old(dst.room) then SinkFailed else Done
  {
    var last := Pad(pending);
    var padded := new byte[|last|](i requires 0 <= i < |last| => last[i]);
    assert padded[..|last|] == last;
    mode.CryptBlocks(padded, |last|);
    assert padded[..] == padded[..|last|];
    var ok := dst.Write(padded[..]);
    verdict := if ok then Done else SinkFailed;
  }

  lemma DecryptStep(dec: Block -> Block, iv: Block, before: Bytes, piece: Bytes)
    ensures var more := CbcDecrypt(dec, LastBlock(iv, Whole(before)), Whole(before[|Whole(before)|..] + piece));
      && CbcDecrypt(dec, iv, Whole(before + piece)) == CbcDecrypt(dec, iv, Whole(before)) + more
      && LastBlock(iv, Whole(before + piece))
         == LastBlock(LastBlock(iv, Whole(before)), Whole(before[|Whole(before)|..] + piece))
  {
    CarryOver(before, piece);
    var full := Whole(before[|Whole(before)|..] + piece);
    DecryptAppend(dec, iv, Whole(before), full);
    LastBlockAppend(iv, Whole(before), full);
  }

  /** The text that may be written once plain has been decrypted: all but its last block. */
  function AllButLast(plain: Bytes): Bytes {
    if |plain| < 16 then [] else plain[..|plain| - 16]
  }

  /** What decryption has released so far begins all that it will ever write. */
  lemma DecryptedSoFar(dec: Block -> Block, iv: Block, part: Bytes, rest: Bytes, end: End)
    ensures Released(dec, iv, part) <= Decrypted(dec, iv, part + rest, end).0
  {
    DecryptStep(dec, iv, part, rest);
    var plain := CbcDecrypt(dec, iv, Whole(part + rest));
    assert AllButLast(CbcDecrypt(dec, iv, Whole(part))) <= AllButLast(plain);
    if ValidPadding(plain) {
      assert AllButLast(plain) <= Unpad(plain);
    }
  }

  lemma HoldBack(plain: Bytes, held: Bytes, more: Bytes)
    requires plain == AllButLast(plain) + held && Aligned(|more|)
    requires held == [] || |held| == 16
    ensures AllButLast(plain + more) == AllButLast(plain) + AllButLast(held + more)
  {
    assert plain + more == AllButLast(plain) + (held + more);
  }

  /** Writes the block held back, if there is one. */
  method WriteHeld(held: Bytes, dst: Writer) returns (ok: bool)
    modifies dst
    ensures ok <==> |held| <= old(dst.room)
    ensures dst.out == old(dst.out) + Clip(held, old(dst.room))
    ensures dst.room == old(dst.room) - |Clip(held, old(dst.room))|
    ensures ok ==> Clip(held, old(dst.room)) == held
  {
    ok := true;
    if held != [] {
      ok := dst.Write(held);
    }
  }

  /** Part way through text: all but the last block of the first n bytes has been written, the rest is held. */
  ghost predicate Releasing(text: Bytes, n: nat, held: Bytes, out: Bytes, room: nat, dstOut: Bytes, dstRoom: nat) {
    && n <= |text|
    && text[..n] == AllButLast(text[..n]) + held && (held == [] || |held| == 16)
    && dstOut == out + AllButLast(text[..n])
    && dstRoom + |AllButLast(text[..n])| == room
  }

  /** The same after the held block and i bytes of the blocks that follow it. */
  ghost predicate ReleasedTo(held: Bytes, blocks: Bytes, i: nat, last: Bytes, out: Bytes, room: nat, dstOut: Bytes,
                             dstRoom: nat) {
    Releasing(held + blocks, |held| + i, last, out, room, dstOut, dstRoom)
  }

  lemma ReleasingBegins(held: Bytes, blocks: Bytes, out: Bytes, room: nat)
    requires held == [] || |held| == 16
    ensures ReleasedTo(held, blocks, 0, held, out, room, out, room)
  {
    assert (held + blocks)[..|held|] == held;
  }

  /** What one write of the held block comes to. */
  lemma ReleaseNext(held: Bytes, blocks: Bytes, i: nat, last: Bytes, out: Bytes, room: nat, dstOut: Bytes, dstRoom: nat)
    requires i + 16 <= |blocks| && ReleasedTo(held, blocks, i, last, out, room, dstOut, dstRoom)
    ensures |last| <= dstRoom ==>
      ReleasedTo(held, blocks, i + 16, blocks[i..i + 16], out, room, dstOut + last, dstRoom - |last|)
    ensures |last| > dstRoom ==>
      && |AllButLast(held + blocks)| > room
      && dstOut + Clip(last, dstRoom) == out + Clip(AllButLast(held + blocks), room)
      && dstRoom - |Clip(last, dstRoom)| == room - |Clip(AllButLast(held + blocks), room)|
  {
    var text := held + blocks;
    assert text[|held| + i..|held| + i + 16] == blocks[i..i + 16];
    hide Releasing, AllButLast, Clip;
    if |last| <= dstRoom {
      ReleaseOne(text, |held| + i, last, out, room, dstOut, dstRoom);
    } else {
      ReleaseFails(text, |held| + i, last, out, room, dstOut, dstRoom);
    }
  }

  /** One more block arrives: the one held so far is released and the new one held. */
  lemma ReleaseOne(text: Bytes, n: nat, held: Bytes, out: Bytes, room: nat, dstOut: Bytes, dstRoom: nat)
    requires n + 16 <= |text|
    requires Releasing(text, n, held, out, room, dstOut, dstRoom) && |held| <= dstRoom
    ensures Releasing(text, n + 16, text[n..n + 16], out, room, dstOut + held, dstRoom - |held|)
  {
    assert AllButLast(text[..n + 16]) == text[..n];
    Regroup(out, AllButLast(text[..n]), held);
  }

  /** The held block does not fit: what was accepted is all that will ever be. */
  lemma ReleaseFails(text: Bytes, n: nat, held: Bytes, out: Bytes, room: nat, dstOut: Bytes, dstRoom: nat)
    requires n + 16 <= |text|
    requires Releasing(text, n, held, out, room, dstOut, dstRoom) && |held| > dstRoom
    ensures |AllButLast(text)| > room
    ensures dstOut + Clip(held, dstRoom) == out + Clip(AllButLast(text), room)
    ensures dstRoom - |Clip(held, dstRoom)| == room - |Clip(AllButLast(text), room)|
  {
    var done := AllButLast(text[..n]);
    assert text[..n] <= AllButLast(text);
    ClipMore(done, held, AllButLast(text), room);
    Regroup(out, done, Clip(held, dstRoom));
  }

  lemma ReleasingEnds(held: Bytes, blocks: Bytes, last: Bytes, out: Bytes, room: nat, dstOut: Bytes, dstRoom: nat)
    requires ReleasedTo(held, blocks, |blocks|, last, out, room, dstOut, dstRoom)
    ensures var text := held + blocks;
      && |AllButLast(text)| <= room
      && dstOut == out + Clip(AllButLast(text), room) && dstRoom == room - |Clip(AllButLast(text), room)|
      && text == AllButLast(text) + last && (last == [] || |last| == 16)
  {
    var text := held + blocks;
    assert text[..|text|] == text;
  }

  method ReadBlock(blocks: array<byte>, i: nat) returns (block: Bytes)
    requires i + 16 <= blocks.Length
    ensures |block| == 16 && block == blocks[..][i..i + 16]
  {
    block := blocks[i..i + 16];
  }

  /** Writes blocks one at a time, always holding the newest one back. */
  method ReleaseBlocks(blocks: array<byte>, held: Bytes, dst: Writer) returns (last: Bytes, ok: bool)
    requires Aligned(blocks.Length)
    requires held == [] || |held| == 16
    modifies dst
    ensures var text := held + blocks[..];
      && (ok <==> |AllButLast(text)| <= old(dst.room))
      && dst.out == old(dst.out) + Clip(AllButLast(text), old(dst.room))
      && dst.room == old(dst.room) - |Clip(AllButLast(text), old(dst.room))|
      && (ok ==> text == AllButLast(text) + last && (last == [] || |last| == 16))
  {
    assert Aligned(0);
    hide *;
    ghost var all, out, room := blocks[..], dst.out, dst.room;
    ReleasingBegins(held, all, out, room);
    last, ok := held, true;
    var i := 0;
    while i < blocks.Length
      invariant 0 <= i <= blocks.Length && Aligned(i)
      invariant ok && ReleasedTo(held, all, i, last, out, room, dst.out, dst.room)
    {
      NextBlock(i, blocks.Length);
      ghost var dstOut, dstRoom := dst.out, dst.room;
      ok := WriteHeld(last, dst);
      ReleaseNext(held, all, i, last, out, room, dstOut, dstRoom);
      if !ok {
        return;
      }
      last := ReadBlock(blocks, i);
      i := i + 16;
    }
    ReleasingEnds(held, all, last, out, room, dst.out, dst.room);
  }

  /** Decrypts the complete blocks of data and releases all that may be released. */
  method DecryptFull(data: array<byte>, held: Bytes, dst: Writer, mode: Decrypter)
    returns (pending: Bytes, last: Bytes, ok: bool)
    requires held == [] || |held| == 16
    modifies dst, mode
    ensures var full := Whole(data[..]); var plain := held + CbcDecrypt(mode.dec, old(mode.chain), full);
      && pending == data[..][|full|..]
      && (ok <==> |AllButLast(plain)| <= old(dst.room))
      && dst.out == old(dst.out) + Clip(AllButLast(plain), old(dst.room))
      && dst.room == old(dst.room) - |Clip(AllButLast(plain), old(dst.room))|
      && mode.chain == LastBlock(old(mode.chain), full)
      && (ok ==> plain == AllButLast(plain) + last && (last == [] || |last| == 16))
  {
    hide CbcDecrypt, LastBlock;
    var full := data.Length / 16 * 16;
    var blocks := CopyOf(data, full);
    assert data[..full] == Whole(data[..]);
    mode.CryptBlocks(blocks, full);
    assert blocks[..] == blocks[..full];
    last, ok := ReleaseBlocks(blocks, held, dst);
    pending := data[full..];
  }

  method CopyOf(data: array<byte>, n: nat) returns (copy: array<byte>)
    requires n <= data.Length
    ensures fresh(copy) && copy.Length == n && copy[..n] == data[..n]
  {
    copy := new byte[n];
    forall i | 0 <= i < n {
      copy[i] := data[i];
    }
  }

  /** The plaintext of the complete blocks taken in so far. */
  function DecryptedPart(dec: Block -> Block, iv: Block, taken: Bytes): Bytes {
    CbcDecrypt(dec, iv, Whole(taken))
  }

  /** Between two reads: the incomplete block is pending, the newest plaintext block held back. */
  ghost predicate Decrypting(mode: Decrypter, iv: Block, taken: Bytes, pending: Bytes, held: Bytes)
    reads mode
  {
    var plain := DecryptedPart(mode.dec, iv, taken);
    && pending == taken[|Whole(taken)|..]
    && plain == AllButLast(plain) + held
    && (held == [] || |held| == 16)
    && mode.chain == LastBlock(iv, Whole(taken))
  }

  /** The plaintext that has been released for writing. */
  function Released(dec: Block -> Block, iv: Block, taken: Bytes): Bytes {
    AllButLast(DecryptedPart(dec, iv, taken))
  }

  lemma DecryptBegin(mode: Decrypter)
    ensures Decrypting(mode, mode.chain, [], [], []) && Released(mode.dec, mode.chain, []) == []
  {
  }

  method DecryptPiece(buf: array<byte>, n: nat, held: Bytes, prevPlain: Bytes, dst: Writer, mode: Decrypter,
                      ghost iv: Block, ghost taken: Bytes)
    returns (pending: Bytes, last: Bytes, ok: bool)
    requires n <= buf.Length && Decrypting(mode, iv, taken, held, prevPlain)
    modifies dst, mode
    ensures ok ==> Decrypting(mode, iv, taken + buf[..n], pending, last)
    ensures var done := Released(mode.dec, iv, taken);
      var all := Released(mode.dec, iv, taken + buf[..n]);
      && done <= all
      && (ok <==> |all| - |done| <= old(dst.room))
      && dst.out == old(dst.out) + Clip(all[|done|..], old(dst.room))
      && dst.room == old(dst.room) - |Clip(all[|done|..], old(dst.room))|
  {
    ghost var data, chain := held + buf[..n], mode.chain;
    assert held == taken[|Whole(taken)|..] && chain == LastBlock(iv, Whole(taken));
    assert prevPlain == [] || |prevPlain| == 16;
    assert DecryptedPart(mode.dec, iv, taken) == AllButLast(DecryptedPart(mode.dec, iv, taken)) + prevPlain;
    DecryptMore(mode, iv, taken, held, prevPlain, buf[..n]);
    hide CbcDecrypt, LastBlock, AllButLast, Whole, Released, Decrypting, DecryptedPart, Clip;
    var joined := Join(held, buf, n);
    pending, last, ok := DecryptFull(joined, prevPlain, dst, mode);
    if ok {
      DecryptAgain(mode, iv, taken, buf[..n], chain, data, prevPlain, pending, last);
    }
  }

  /** What the next piece adds to the text that may be written. */
  lemma DecryptMore(mode: Decrypter, iv: Block, taken: Bytes, pending: Bytes, held: Bytes, piece: Bytes)
    requires Decrypting(mode, iv, taken, pending, held)
    ensures var more := AllButLast(held + CbcDecrypt(mode.dec, mode.chain, Whole(pending + piece)));
      var done, all := Released(mode.dec, iv, taken), Released(mode.dec, iv, taken + piece);
      done <= all && all[|done|..] == more
  {
    hide CbcDecrypt, LastBlock, AllButLast, Whole;
    DecryptStep(mode.dec, iv, taken, piece);
    HoldBack(DecryptedPart(mode.dec, iv, taken), held, CbcDecrypt(mode.dec, mode.chain, Whole(pending + piece)));
  }

  /** The mode is ready for the piece after. */
  lemma DecryptAgain(mode: Decrypter, iv: Block, taken: Bytes, piece: Bytes, chain: Block, data: Bytes,
                     prevPlain: Bytes, pending: Bytes, held: Bytes)
    requires data == taken[|Whole(taken)|..] + piece && chain == LastBlock(iv, Whole(taken))
    requires prevPlain == [] || |prevPlain| == 16
    requires DecryptedPart(mode.dec, iv, taken) == AllButLast(DecryptedPart(mode.dec, iv, taken)) + prevPlain
    requires pending == data[|Whole(data)|..] && mode.chain == LastBlock(chain, Whole(data))
    requires var plain := prevPlain + CbcDecrypt(mode.dec, chain, Whole(data));
      plain == AllButLast(plain) + held && (held == [] || |held| == 16)
    ensures Decrypting(mode, iv, taken + piece, pending, held)
  {
    hide CbcDecrypt, LastBlock, AllButLast, Whole;
    DecryptStep(mode.dec, iv, taken, piece);
    CarryOver(taken, piece);
    var before, more := DecryptedPart(mode.dec, iv, taken), CbcDecrypt(mode.dec, chain, Whole(data));
    HoldBack(before, prevPlain, more);
    Regroup(AllButLast(before), prevPlain, more);
    Regroup(AllButLast(before), AllButLast(prevPlain + more), held);
  }

  /** The padding check on the last block, byte by byte; text is what is left once it passes. */
  method StripPadding(last: Bytes) returns (valid: bool, text: Bytes)
    requires |last| == 16
    ensures valid <==> ValidPadding(last)
    ensures valid ==> text == Unpad(last)
  {
    text := [];
    var padLen := last[|last| - 1] as int;
    if padLen <= 0 || padLen > 16 || padLen > |last| {
      return false, text;
    }
    var i := |last| - padLen;
    while i < |last|
      invariant |last| - padLen <= i <= |last|
      invariant forall k | |last| - padLen <= k < i :: last[k] as int == padLen
    {
      if last[i] as int != padLen {
        return false, text;
      }
      i := i + 1;
    }
    return true, last[..|last| - padLen];
  }

  /** The padding of a text is decided by its last block. */
  lemma PaddingOfLast(front: Bytes, last: Block)
    ensures ValidPadding(front + last) <==> ValidPadding(last)
    ensures ValidPadding(last) ==> Unpad(front + last) == front + Unpad(last)
  {
    var p := front + last;
    assert p[|p| - 1] == last[15];
    forall i | 0 <= i < 16
      ensures last[i] == p[|front| + i]
    {
    }
    if ValidPadding(p) {
      var k := last[15] as int;
      forall i | 16 - k <= i < 16
        ensures last[i] as int == k
      {
        assert last[i] == p[|front| + i];
      }
    }
  }

  /** How decryption stands once the source has ended. */
  lemma DecryptEnd(mode: Decrypter, iv: Block, text: Bytes, pending: Bytes, held: Bytes, end: End)
    requires Decrypting(mode, iv, text, pending, held)
    ensures Decrypted(mode.dec, iv, text, end)
         == var done := Released(mode.dec, iv, text);
            if end == Failed then (done, SourceFailed)
            else if pending != [] then (done, NotAligned)
            else if held == [] then (done, Empty)
            else if !ValidPadding(held) then (done, BadPadding)
            else (done + Unpad(held), Done)
  {
    var plain := DecryptedPart(mode.dec, iv, text);
    if held != [] {
      PaddingOfLast(AllButLast(plain), held);
    }
  }

  method DecryptCbcWithPkcs7(src: Reader, dst: Writer, mode: Decrypter) returns (verdict: Verdict)
    modifies src, dst, mode
    ensures var (text, end) := Decrypted(mode.dec, old(mode.chain), old(src.Data()), old(src.Ending()));
      && dst.out == old(dst.out) + Clip(text, old(dst.room))
      && verdict == if |text| > old(dst.room) then SinkFailed else end
  {
    hide CbcDecrypt, DataOf, EndOf, LastBlock, DecryptedPart, Decrypting, Decrypted, Released, ValidPadding, Unpad;
    ghost var iv, room, out := mode.chain, dst.room, dst.out;
    ghost var all, ending := src.Data(), src.Ending();
    ghost var text := Decrypted(mode.dec, iv, all, ending).0;
    ghost var taken: Bytes := [];
    var buf := new byte[BUFFER];
    var pending: Bytes, prevPlain: Bytes := [], [];
    var end: Option<End> := None;
    DecryptBegin(mode);
    while end.None?
      invariant all == taken + src.Data() && ending == src.Ending()
      invariant end.Some? ==> src.Data() == [] && end.value == ending
      invariant Decrypting(mode, iv, taken, pending, prevPlain)
      invariant dst.out == out + Released(mode.dec, iv, taken)
      invariant dst.room == room - |Released(mode.dec, iv, taken)|
      invariant fresh(buf) && buf.Length == BUFFER
      decreases end.None?, src.Effort()
    {
      var n;
      n, end := src.Read(buf, 0);
      ghost var before := taken;
      taken := taken + buf[0..n];
      assert all == taken + src.Data();
      if n > 0 {
        var ok;
        pending, prevPlain, ok := DecryptPiece(buf, n, pending, prevPlain, dst, mode, iv, before);
        if !ok {
          DecryptedSoFar(mode.dec, iv, taken, src.Data(), ending);
          ghost var done := Released(mode.dec, iv, before);
          ClipMore(done, Released(mode.dec, iv, taken)[|done|..], text, room);
          return SinkFailed;
        }
      } else {
        assert taken == before;
      }
    }
    assert taken == all;
    DecryptEnd(mode, iv, all, pending, prevPlain, ending);
    if end.value == Failed {
      return SourceFailed;
    }
    if pending != [] {
      return NotAligned;
    }
    if prevPlain == [] {
      return Empty;
    }
    DecryptHeld(mode, iv, all, pending, prevPlain);
    var valid, rest := StripPadding(prevPlain);
    if !valid {
      return BadPadding;
    }
    ClipMore(Released(mode.dec, iv, all), rest, text, room);
    var ok := dst.Write(rest);
    verdict := if ok then Done else SinkFailed;
  }

  lemma DecryptHeld(mode: Decrypter, iv: Block, text: Bytes, pending: Bytes, held: Bytes)
    requires Decrypting(mode, iv, text, pending, held) && held != []
    ensures |held| == 16
  {
  }

  // ---------- What the streams add up to ----------

  /** Decryption returns the text that was encrypted, however either side's reads were split. */
  lemma CbcRoundTrip(enc: Block -> Block, dec: Block -> Block, iv: Block, text: Bytes)
    requires forall b :: dec(enc(b)) == b
    ensures Decrypted(dec, iv, Encrypted(enc, iv, text, Eof), Eof) == (text, Done)
  {
    var cipher := Encrypted(enc, iv, text, Eof);
    assert Whole(cipher) == cipher;
    DecryptUndoesEncrypt(enc, dec, iv, Pad(text));
    PadIsValid(text);
  }

  /** A ciphertext is accepted exactly when it is the encryption of some text: of the one returned. */
  lemma CbcAccepts(enc: Block -> Block, dec: Block -> Block, iv: Block, cipher: Bytes)
    requires forall b :: dec(enc(b)) == b
    requires forall b :: enc(dec(b)) == b
    ensures Decrypted(dec, iv, cipher, Eof).1 == Done
       <==> exists text :: cipher == Encrypted(enc, iv, text, Eof)
    ensures Decrypted(dec, iv, cipher, Eof).1 == Done
        ==> cipher == Encrypted(enc, iv, Decrypted(dec, iv, cipher, Eof).0, Eof)
  {
    var (text, verdict) := Decrypted(dec, iv, cipher, Eof);
    if verdict == Done {
      var plain := CbcDecrypt(dec, iv, Whole(cipher));
      assert Whole(cipher) == cipher;
      ValidIsPad(plain);
      EncryptUndoesDecrypt(enc, dec, iv, cipher);
      assert cipher == Encrypted(enc, iv, text, Eof);
    }
    forall t | cipher == Encrypted(enc, iv, t, Eof)
      ensures verdict == Done
    {
      CbcRoundTrip(enc, dec, iv, t);
    }
  }

  /** The number of bytes of a ciphertext in complete blocks that are not the last such block. */
  function Front(size: nat): nat {
    if size < 16 then 0 else size / 16 * 16 - 16
  }

  /** The text before the last complete block, decrypted. */
  function FrontText(dec: Block -> Block, iv: Block, cipher: Bytes): Bytes {
    CbcDecrypt(dec, iv, FrontOf(cipher))
  }

  function FrontOf(cipher: Bytes): (front: Bytes)
    ensures Aligned(|front|)
  {
    cipher[..Front(|cipher|)]
  }

  lemma AlignedIsWhole(cipher: Bytes)
    ensures Aligned(|cipher|) ==> Whole(cipher) == cipher
    ensures |cipher| < 16 ==> Whole(cipher) == [] && FrontOf(cipher) == []
  {
  }

  /** All complete blocks are those before the last and the last. */
  lemma WholeIsFrontAndLast(cipher: Bytes) returns (last: Bytes)
    requires |cipher| >= 16
    ensures |last| == 16 && Aligned(|last|) && Whole(cipher) == FrontOf(cipher) + last
  {
    var size := |cipher| / 16 * 16;
    last := cipher[size - 16..size];
    assert cipher[..size] == cipher[..size - 16] + last;
  }

  /** What is decrypted last is the last block. */
  lemma AllButLastIsFront(dec: Block -> Block, iv: Block, cipher: Bytes)
    ensures var plain := CbcDecrypt(dec, iv, Whole(cipher));
      (if plain == [] then [] else plain[..|plain| - 16]) == FrontText(dec, iv, cipher)
    ensures |cipher| >= 16 ==> |CbcDecrypt(dec, iv, Whole(cipher))| >= 16
  {
    AlignedIsWhole(cipher);
    if |cipher| >= 16 {
      var last := WholeIsFrontAndLast(cipher);
      hide Whole, FrontOf, Aligned;
      DecryptAppend(dec, iv, FrontOf(cipher), last);
    } else {
      assert CbcDecrypt(dec, iv, []) == [];
    }
  }

  /** The three rejections: exactly when each of them happens. */
  lemma CbcVerdicts(dec: Block -> Block, iv: Block, cipher: Bytes)
    ensures var verdict := Decrypted(dec, iv, cipher, Eof).1;
      && (verdict == Empty <==> cipher == [])
      && (verdict == NotAligned <==> !Aligned(|cipher|))
      && (verdict == BadPadding <==> cipher != [] && Aligned(|cipher|) && !ValidPadding(CbcDecrypt(dec, iv, cipher)))
  {
    AlignedIsWhole(cipher);
    hide CbcDecrypt, Whole, ValidPadding, Unpad;
  }

  /** Unpadding takes nothing from the blocks before the last. */
  lemma UnpadKeepsFront(plain: Bytes)
    requires ValidPadding(plain) && |plain| >= 16
    ensures plain[..|plain| - 16] <= Unpad(plain)
  {
  }

  /** What has been written by then: all complete blocks but the last. */
  lemma CbcWrites(dec: Block -> Block, iv: Block, cipher: Bytes)
    ensures var (text, verdict) := Decrypted(dec, iv, cipher, Eof);
      && (verdict != Done ==> text == FrontText(dec, iv, cipher))
      && (verdict == Done ==> FrontText(dec, iv, cipher) <= text)
  {
    AllButLastIsFront(dec, iv, cipher);
    AlignedIsWhole(cipher);
    var plain := CbcDecrypt(dec, iv, Whole(cipher));
    assert cipher == [] ==> FrontText(dec, iv, cipher) == [];
    hide CbcDecrypt, Whole, FrontText;
    if ValidPadding(plain) && |plain| >= 16 {
      UnpadKeepsFront(plain);
    }
    hide ValidPadding, Unpad;
  }

  /** The three rejections, and what has been written by then: all complete blocks but the last. */
  lemma CbcRejects(dec: Block -> Block, iv: Block, cipher: Bytes)
    ensures var (text, verdict) := Decrypted(dec, iv, cipher, Eof);
      && (verdict == Empty <==> cipher == [])
      && (verdict == NotAligned <==> !Aligned(|cipher|))
      && (verdict == BadPadding <==> cipher != [] && Aligned(|cipher|) && !ValidPadding(CbcDecrypt(dec, iv, cipher)))
      && (verdict != Done ==> text == CbcDecrypt(dec, iv, cipher[..Front(|cipher|)]))
      && (verdict == Done ==> CbcDecrypt(dec, iv, cipher[..Front(|cipher|)]) <= text)
  {
    CbcVerdicts(dec, iv, cipher);
    CbcWrites(dec, iv, cipher);
    hide CbcDecrypt, ValidPadding, Decrypted;
  }

  // ---------- The salted container around the ciphertext ----------

  /** What a salt and the passphrase give: the keyed block cipher and the first chaining value. */
  datatype Keyed = Keyed(enc: Block -> Block, dec: Block -> Block, iv: Block)

  const SALTED: Bytes := [0x53, 0x61, 0x6C, 0x74, 0x65, 0x64, 0x5F, 0x5F]

  predicate IsSaltedHeader(header: Bytes) {
    |header| >= 8 && header[..8] == SALTED
  }

  /** Everything EncryptDump has to write. */
  function DumpOf(derive: Bytes -> Keyed, salt: Bytes, text: Bytes, end: End): Bytes {
    var k := derive(salt);
    SALTED + salt + Encrypted(k.enc, k.iv, text, end)
  }

  /** Everything DecryptDump has to write, and its verdict for a sink that takes all of it. */
  function TextOf(derive: Bytes -> Keyed, dump: Bytes, end: End): (Bytes, Verdict) {
    if |dump| < 16 || !IsSaltedHeader(dump) then ([], BadHeader)
    else
      var k := derive(dump[8..16]);
      Decrypted(k.dec, k.iv, dump[16..], end)
  }

  method EncryptDump(derive: Bytes -> Keyed, salt: Bytes, src: Reader, dst: Writer) returns (verdict: Verdict)
    requires |salt| == 8
    modifies src, dst
    ensures var dump := DumpOf(derive, salt, old(src.Data()), old(src.Ending()));
      && dst.out == old(dst.out) + Clip(dump, old(dst.room))
      && verdict == if |dump| > old(dst.room) then SinkFailed
                    else if old(src.Ending()) == Eof then Done else SourceFailed
  {
    hide Encrypted, DataOf, EndOf;
    ghost var out, room := dst.out, dst.room;
    ghost var dump := DumpOf(derive, salt, src.Data(), src.Ending());
    var k := derive(salt);
    ghost var body := Encrypted(k.enc, k.iv, src.Data(), src.Ending());
    assert dump == SALTED + salt + body;
    var ok := dst.Write(SALTED);
    if !ok {
      ClipMore([], SALTED, dump, room);
      assert [] + Clip(SALTED, room) == Clip(SALTED, room);
      return SinkFailed;
    }
    ok := dst.Write(salt);
    Regroup(out, SALTED, Clip(salt, room - 8));
    if !ok {
      ClipMore(SALTED, salt, dump, room);
      return SinkFailed;
    }
    var mode := new Encrypter(k.enc, k.iv);
    ClipMore(SALTED + salt, body, dump, room);
    verdict := EncryptCbcWithPkcs7(src, dst, mode);
    Regroup(out, SALTED + salt, Clip(body, room - 16));
  }

  method DecryptDump(derive: Bytes -> Keyed, src: Reader, dst: Writer) returns (verdict: Verdict)
    modifies src, dst
    ensures var (text, end) := TextOf(derive, old(src.Data()), old(src.Ending()));
      && dst.out == old(dst.out) + Clip(text, old(dst.room))
      && verdict == if |text| > old(dst.room) then SinkFailed else end
  {
    hide Decrypted, DataOf, EndOf;
    ghost var dump := src.Data();
    var header := new byte[16];
    var n, read := ReadFull(src, header);
    if read != Full {
      return BadHeader;
    }
    assert header[..] == header[..n] == dump[..16];
    assert header[..][..8] == dump[..8];
    if !IsSaltedHeader(header[..]) {
      return BadHeader;
    }
    var salt := header[8..];
    assert salt == dump[..16][8..] == dump[8..16];
    var k := derive(salt);
    var mode := new Decrypter(k.dec, k.iv);
    verdict := DecryptCbcWithPkcs7(src, dst, mode);
  }

  /** A dump restores to the database it was made from, whatever salt was drawn. */
  lemma DumpRoundTrip(derive: Bytes -> Keyed, salt: Bytes, text: Bytes)
    requires |salt| == 8
    requires forall b :: derive(salt).dec(derive(salt).enc(b)) == b
    ensures TextOf(derive, DumpOf(derive, salt, text, Eof), Eof) == (text, Done)
  {
    var k := derive(salt);
    var dump := DumpOf(derive, salt, text, Eof);
    assert dump[..8] == SALTED && dump[8..16] == salt;
    assert dump[16..] == Encrypted(k.enc, k.iv, text, Eof);
    CbcRoundTrip(k.enc, k.dec, k.iv, text);
  }
}
