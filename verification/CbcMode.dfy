/**
  The cipher block chaining mode and the layout of a dump, said in bits and in bytes: section 6.2 of
  NIST SP 800-38A, and the salted format of OpenSSL's "enc".
 */
module CbcMode {
  import opened Basics
  import opened Streams
  import opened Cbc

  // ---------- Bits ----------

  /** Bit i of a number, the lowest first. */
  predicate BitOf(n: nat, i: nat) {
    if i == 0 then n % 2 == 1 else BitOf(n / 2, i - 1)
  }

  predicate Bit(b: byte, i: nat) {
    BitOf(b as nat, i)
  }

  lemma {:induction false} BitsOfXor(a: nat, b: nat, bits: nat, i: nat)
    requires a < Pow2(bits) && b < Pow2(bits) && i < bits
    ensures BitOf(XorBits(a, b, bits), i) <==> BitOf(a, i) != BitOf(b, i)
  {
    XorBitsUnfolds(a, b, bits);
    var high := XorBits(a / 2, b / 2, bits - 1);
    hide XorBits, Pow2;
    LastBit(a, b, high);
    if i > 0 {
      BitsOfXor(a / 2, b / 2, bits - 1, i - 1);
    }
  }

  lemma LastBit(a: nat, b: nat, high: nat)
    ensures var x := 2 * high + (a + b) % 2;
      x / 2 == high && (x % 2 == 1 <==> (a % 2 == 1) != (b % 2 == 1))
  {
  }

  /** The exclusive or of two bytes has exactly those bits in which they differ. */
  lemma XorDiffers(a: byte, b: byte, i: nat)
    requires i < 8
    ensures Bit(Xor(a, b), i) <==> Bit(a, i) != Bit(b, i)
  {
    assert Pow2(8) == 256;
    BitsOfXor(a as nat, b as nat, 8, i);
  }

  lemma {:induction false} SameBits(a: nat, b: nat, bits: nat)
    requires a < Pow2(bits) && b < Pow2(bits) && forall i | 0 <= i < bits :: BitOf(a, i) <==> BitOf(b, i)
    ensures a == b
  {
    if bits > 0 {
      assert BitOf(a, 0) <==> BitOf(b, 0);
      forall i | 0 <= i < bits - 1
        ensures BitOf(a / 2, i) <==> BitOf(b / 2, i)
      {
        assert BitOf(a, i + 1) <==> BitOf(b, i + 1);
      }
      SameBits(a / 2, b / 2, bits - 1);
    }
  }

  lemma SameBitsSameByte(a: byte, b: byte)
    requires forall i | 0 <= i < 8 :: Bit(a, i) <==> Bit(b, i)
    ensures a == b
  {
    assert Pow2(8) == 256;
    var m, n: nat := a as nat, b as nat;
    forall i | 0 <= i < 8
      ensures BitOf(m, i) <==> BitOf(n, i)
    {
      assert Bit(a, i) <==> Bit(b, i);
    }
    SameBits(m, n, 8);
  }

  predicate ByteDiffers(x: byte, a: byte, b: byte) {
    forall i | 0 <= i < 8 :: Bit(x, i) <==> Bit(a, i) != Bit(b, i)
  }

  /** x has exactly the bits in which a and b differ. */
  predicate Differs(x: Block, a: Block, b: Block) {
    forall j | 0 <= j < 16 :: ByteDiffers(x[j], a[j], b[j])
  }

  lemma {:induction false} XorBlockDiffers(a: Block, b: Block)
    ensures Differs(XorBlock(a, b), a, b)
  {
    forall j, i | 0 <= j < 16 && 0 <= i < 8
      ensures Bit(XorBlock(a, b)[j], i) <==> Bit(a[j], i) != Bit(b[j], i)
    {
      XorDiffers(a[j], b[j], i);
    }
  }

  /** The bits that differ determine the block. */
  lemma OneDifference(x: Block, y: Block, a: Block, b: Block)
    requires Differs(x, a, b) && Differs(y, a, b)
    ensures x == y
  {
    forall j | 0 <= j < 16
      ensures x[j] == y[j]
    {
      assert ByteDiffers(x[j], a[j], b[j]) && ByteDiffers(y[j], a[j], b[j]);
      hide Bit;
      SameBitsSameByte(x[j], y[j]);
    }
  }

  /** So do the plaintext and the difference determine the chaining value: every bit of it matters. */
  lemma ChainMatters(x: Block, a: Block, b: Block, c: Block)
    requires Differs(x, a, b) && Differs(x, a, c)
    ensures b == c
  {
    forall j | 0 <= j < 16
      ensures b[j] == c[j]
    {
      assert ByteDiffers(x[j], a[j], b[j]) && ByteDiffers(x[j], a[j], c[j]);
      hide Bit;
      SameBitsSameByte(b[j], c[j]);
    }
  }

  lemma XorBlockInjective(a: Block, iv: Block, iv': Block)
    ensures XorBlock(a, iv) == XorBlock(a, iv') <==> iv == iv'
  {
    XorBlockDiffers(a, iv);
    XorBlockDiffers(a, iv');
    hide XorBlock, Differs;
    if XorBlock(a, iv) == XorBlock(a, iv') {
      ChainMatters(XorBlock(a, iv), a, iv, iv');
    }
  }

  // ---------- The mode ----------

  /** Block n of a text. */
  function BlockAt(text: Bytes, n: nat): Block
    requires 16 * n + 16 <= |text|
  {
    text[16 * n..16 * n + 16]
  }

  /** What block n is chained with: the ciphertext block before it, or the initialization vector. */
  function ChainedWith(iv: Block, cipher: Bytes, n: nat): Block
    requires 16 * n <= |cipher|
  {
    if n == 0 then iv else BlockAt(cipher, n - 1)
  }

  /** Block n of the ciphertext encrypts the block in which its plaintext block and its chaining value differ. */
  ghost predicate IsEncryptedAt(enc: Block -> Block, iv: Block, plain: Bytes, cipher: Bytes, n: nat)
    requires 16 * n + 16 <= |plain| == |cipher|
  {
    exists x ::
      Differs(x, BlockAt(plain, n), ChainedWith(iv, cipher, n)) && BlockAt(cipher, n) == enc(x)
  }

  /** The ciphertext is the encryption of the text in the chaining mode. */
  ghost predicate IsCbc(enc: Block -> Block, iv: Block, plain: Bytes, cipher: Bytes) {
    && |plain| == |cipher| && Aligned(|plain|)
    && forall n: nat | 16 * n + 16 <= |plain| :: IsEncryptedAt(enc, iv, plain, cipher, n)
  }

  lemma BlocksShift(iv: Block, text: Bytes, n: nat)
    requires n > 0 && 16 * n + 16 <= |text|
    ensures 16 * (n - 1) + 16 <= |text[16..]| && BlockAt(text, n) == BlockAt(text[16..], n - 1)
    ensures ChainedWith(iv, text, n) == ChainedWith(text[..16], text[16..], n - 1)
  {
    assert text[16..][16 * (n - 1)..16 * (n - 1) + 16] == text[16 * n..16 * n + 16];
    if n == 1 {
      assert text[0..16] == text[..16];
    } else {
      assert text[16..][16 * (n - 2)..16 * (n - 2) + 16] == text[16 * (n - 1)..16 * (n - 1) + 16];
    }
  }

  lemma {:induction false} EncryptIsCbc(enc: Block -> Block, iv: Block, plain: Bytes)
    requires Aligned(|plain|)
    ensures IsCbc(enc, iv, plain, CbcEncrypt(enc, iv, plain))
    decreases |plain|
  {
    if plain != [] {
      var x := XorBlock(plain[..16], iv);
      var cipher := CbcEncrypt(enc, iv, plain);
      assert cipher[..16] == enc(x) && cipher[16..] == CbcEncrypt(enc, enc(x), plain[16..]);
      EncryptIsCbc(enc, enc(x), plain[16..]);
      XorBlockDiffers(plain[..16], iv);
      hide CbcEncrypt, XorBlock, Differs, BlockAt, ChainedWith;
      forall n: nat | 16 * n + 16 <= |plain|
        ensures IsEncryptedAt(enc, iv, plain, cipher, n)
      {
        if n == 0 {
          FirstAt(enc, iv, plain, cipher, x);
        } else {
          BlocksShift(iv, plain, n);
          BlocksShift(iv, cipher, n);
          assert IsEncryptedAt(enc, enc(x), plain[16..], cipher[16..], n - 1);
        }
      }
    }
  }

  lemma FirstAt(enc: Block -> Block, iv: Block, plain: Bytes, cipher: Bytes, x: Block)
    requires 16 <= |plain| == |cipher| && Differs(x, plain[..16], iv) && cipher[..16] == enc(x)
    ensures IsEncryptedAt(enc, iv, plain, cipher, 0)
  {
    hide Differs;
    assert plain[0..16] == plain[..16] && cipher[0..16] == cipher[..16];
  }

  /** The mode determines the ciphertext, block after block. */
  lemma {:induction false} OneCiphertext(enc: Block -> Block, iv: Block, plain: Bytes, c: Bytes, c': Bytes, n: nat)
    requires IsCbc(enc, iv, plain, c) && IsCbc(enc, iv, plain, c') && 16 * n <= |plain|
    ensures c[..16 * n] == c'[..16 * n]
  {
    if n > 0 {
      OneCiphertext(enc, iv, plain, c, c', n - 1);
      assert IsEncryptedAt(enc, iv, plain, c, n - 1) && IsEncryptedAt(enc, iv, plain, c', n - 1);
      PreviousSame(iv, c, c', n - 1);
      hide IsCbc, Differs, ChainedWith;
      var p, chain := BlockAt(plain, n - 1), ChainedWith(iv, c, n - 1);
      var x :| Differs(x, p, chain) && BlockAt(c, n - 1) == enc(x);
      var y :| Differs(y, p, chain) && BlockAt(c', n - 1) == enc(y);
      OneDifference(x, y, p, chain);
      assert c[..16 * n] == c[..16 * (n - 1)] + BlockAt(c, n - 1);
      assert c'[..16 * n] == c'[..16 * (n - 1)] + BlockAt(c', n - 1);
    }
  }

  lemma PreviousSame(iv: Block, c: Bytes, c': Bytes, n: nat)
    requires 16 * n <= |c| == |c'| && c[..16 * n] == c'[..16 * n]
    ensures ChainedWith(iv, c, n) == ChainedWith(iv, c', n)
  {
    if n > 0 {
      assert c[..16 * n][16 * (n - 1)..] == BlockAt(c, n - 1);
      assert c'[..16 * n][16 * (n - 1)..] == BlockAt(c', n - 1);
    }
  }

  /** What CbcEncrypt writes is the chaining mode and nothing else. */
  lemma EncryptsIff(enc: Block -> Block, iv: Block, plain: Bytes, cipher: Bytes)
    requires Aligned(|plain|)
    ensures cipher == CbcEncrypt(enc, iv, plain) <==> IsCbc(enc, iv, plain, cipher)
  {
    EncryptIsCbc(enc, iv, plain);
    var c := CbcEncrypt(enc, iv, plain);
    if IsCbc(enc, iv, plain, cipher) {
      OneCiphertext(enc, iv, plain, c, cipher, |plain| / 16);
      assert c[..|plain|] == c && cipher[..|plain|] == cipher;
    }
  }

  /** Block n of the plaintext is what the deciphered block and its chaining value differ in. */
  ghost predicate IsDecryptedAt(dec: Block -> Block, iv: Block, cipher: Bytes, plain: Bytes, n: nat)
    requires 16 * n + 16 <= |plain| == |cipher|
  {
    Differs(BlockAt(plain, n), dec(BlockAt(cipher, n)), ChainedWith(iv, cipher, n))
  }

  ghost predicate IsCbcDecryption(dec: Block -> Block, iv: Block, cipher: Bytes, plain: Bytes) {
    && |plain| == |cipher| && Aligned(|plain|)
    && forall n: nat | 16 * n + 16 <= |plain| :: IsDecryptedAt(dec, iv, cipher, plain, n)
  }

  lemma {:induction false} DecryptIsCbc(dec: Block -> Block, iv: Block, cipher: Bytes)
    requires Aligned(|cipher|)
    ensures IsCbcDecryption(dec, iv, cipher, CbcDecrypt(dec, iv, cipher))
    decreases |cipher|
  {
    if cipher != [] {
      var plain := CbcDecrypt(dec, iv, cipher);
      var first := XorBlock(dec(cipher[..16]), iv);
      assert plain[..16] == first && plain[16..] == CbcDecrypt(dec, cipher[..16], cipher[16..]);
      DecryptIsCbc(dec, cipher[..16], cipher[16..]);
      XorBlockDiffers(dec(cipher[..16]), iv);
      hide CbcDecrypt, XorBlock, Differs, BlockAt, ChainedWith;
      forall n: nat | 16 * n + 16 <= |cipher|
        ensures IsDecryptedAt(dec, iv, cipher, plain, n)
      {
        if n == 0 {
          FirstDecrypted(dec, iv, cipher, plain);
        } else {
          BlocksShift(iv, plain, n);
          BlocksShift(iv, cipher, n);
          assert IsDecryptedAt(dec, cipher[..16], cipher[16..], plain[16..], n - 1);
        }
      }
    }
  }

  lemma FirstDecrypted(dec: Block -> Block, iv: Block, cipher: Bytes, plain: Bytes)
    requires 16 <= |plain| == |cipher| && Differs(plain[..16], dec(cipher[..16]), iv)
    ensures IsDecryptedAt(dec, iv, cipher, plain, 0)
  {
    hide Differs;
    assert plain[0..16] == plain[..16] && cipher[0..16] == cipher[..16];
  }

  lemma {:induction false} OnePlaintext(dec: Block -> Block, iv: Block, cipher: Bytes, p: Bytes, p': Bytes, n: nat)
    requires IsCbcDecryption(dec, iv, cipher, p) && IsCbcDecryption(dec, iv, cipher, p') && 16 * n <= |cipher|
    ensures p[..16 * n] == p'[..16 * n]
  {
    if n > 0 {
      OnePlaintext(dec, iv, cipher, p, p', n - 1);
      assert IsDecryptedAt(dec, iv, cipher, p, n - 1) && IsDecryptedAt(dec, iv, cipher, p', n - 1);
      hide IsCbcDecryption, Differs, ChainedWith;
      OneDifference(BlockAt(p, n - 1), BlockAt(p', n - 1), dec(BlockAt(cipher, n - 1)), ChainedWith(iv, cipher, n - 1));
      assert p[..16 * n] == p[..16 * (n - 1)] + BlockAt(p, n - 1);
      assert p'[..16 * n] == p'[..16 * (n - 1)] + BlockAt(p', n - 1);
    }
  }

  lemma DecryptsIff(dec: Block -> Block, iv: Block, cipher: Bytes, plain: Bytes)
    requires Aligned(|cipher|)
    ensures plain == CbcDecrypt(dec, iv, cipher) <==> IsCbcDecryption(dec, iv, cipher, plain)
  {
    DecryptIsCbc(dec, iv, cipher);
    var p := CbcDecrypt(dec, iv, cipher);
    if IsCbcDecryption(dec, iv, cipher, plain) {
      OnePlaintext(dec, iv, cipher, p, plain, |cipher| / 16);
      assert p[..|cipher|] == p && plain[..|cipher|] == plain;
    }
  }

  // ---------- What the two streams write ----------

  /** text and then k bytes of value k that make whole blocks of it (section 6.3 of RFC 5652). */
  predicate IsPadded(p: Bytes, text: Bytes, k: nat) {
    && 1 <= k <= 16 && |p| == |text| + k && |p| % 16 == 0 && text <= p
    && forall i | |text| <= i < |p| :: p[i] as int == k
  }

  /** The whole output of the encryption: the padded text in the chaining mode. */
  lemma WritesCbcOfPadded(enc: Block -> Block, iv: Block, text: Bytes) returns (p: Bytes, k: nat)
    ensures IsPadded(p, text, k) && IsCbc(enc, iv, p, Encrypted(enc, iv, text, Eof))
  {
    p, k := Pad(text), PadLength(|text|);
    assert p == text + Fill(k);
    EncryptIsCbc(enc, iv, p);
  }

  /** A ciphertext of padded text: the decryption writes the text. */
  lemma ReadsCbcOfPadded(dec: Block -> Block, iv: Block, cipher: Bytes, p: Bytes, text: Bytes, k: nat)
    requires IsPadded(p, text, k) && IsCbcDecryption(dec, iv, cipher, p)
    ensures Decrypted(dec, iv, cipher, Eof) == (text, Done)
  {
    DecryptsIff(dec, iv, cipher, p);
    assert Whole(cipher) == cipher;
    hide CbcDecrypt, IsCbcDecryption;
    assert p[|p| - 1] as int == k;
    assert ValidPadding(p) && Unpad(p) == text;
  }

  // ---------- The dump ----------

  /** The first eight bytes are those of "Salted__". */
  predicate BeginsSalted(dump: Bytes) {
    |dump| >= 8 && forall i | 0 <= i < 8 :: dump[i] as int == "Salted__"[i] as int
  }

  lemma SaltedIs()
    ensures |SALTED| == 8 && BeginsSalted(SALTED)
  {
  }

  /** A dump: "Salted__", the salt, and the padded database in the chaining mode under what the salt gives. */
  lemma DumpIs(derive: Bytes -> Keyed, salt: Bytes, text: Bytes) returns (p: Bytes, k: nat)
    requires |salt| == 8
    ensures var dump := DumpOf(derive, salt, text, Eof);
      && BeginsSalted(dump) && |dump| >= 16 && dump[8..16] == salt
      && IsPadded(p, text, k) && IsCbc(derive(salt).enc, derive(salt).iv, p, dump[16..])
  {
    SaltedIs();
    var keyed := derive(salt);
    p, k := WritesCbcOfPadded(keyed.enc, keyed.iv, text);
    hide IsCbc, IsPadded, Encrypted;
    var dump := DumpOf(derive, salt, text, Eof);
    var body := Encrypted(keyed.enc, keyed.iv, text, Eof);
    assert dump == SALTED + salt + body;
    assert forall i | 0 <= i < 8 :: dump[i] == SALTED[i];
    assert dump[8..16] == salt && dump[16..] == body;
  }

  /** Any dump of that form is read, whoever wrote it; without the form it is turned down. */
  lemma DumpReads(derive: Bytes -> Keyed, dump: Bytes, p: Bytes, text: Bytes, k: nat)
    requires |dump| >= 16 && BeginsSalted(dump) && IsPadded(p, text, k)
    requires IsCbcDecryption(derive(dump[8..16]).dec, derive(dump[8..16]).iv, dump[16..], p)
    ensures TextOf(derive, dump, Eof) == (text, Done)
  {
    HeaderIff(dump);
    var keyed := derive(dump[8..16]);
    ReadsCbcOfPadded(keyed.dec, keyed.iv, dump[16..], p, text, k);
  }

  lemma HeaderIff(header: Bytes)
    ensures IsSaltedHeader(header) <==> BeginsSalted(header)
  {
    SaltedIs();
    if BeginsSalted(header) {
      forall i | 0 <= i < 8
        ensures header[..8][i] == SALTED[i]
      {
        assert header[i] as int == "Salted__"[i] as int == SALTED[i] as int;
      }
    }
    if IsSaltedHeader(header) {
      assert forall i | 0 <= i < 8 :: header[i] == header[..8][i] == SALTED[i];
    }
  }

  lemma TurnedDownIff(derive: Bytes -> Keyed, dump: Bytes, end: End)
    ensures TextOf(derive, dump, end).1 == BadHeader <==> |dump| < 16 || !BeginsSalted(dump)
  {
    HeaderIff(dump);
  }
}
