/**
 AES-CBC with PKCS padding over an abstract block cipher: CBC as in section 6.2 of
 NIST SP 800-38A, padding as in section 6.3 of RFC 5652.
 */
module AesCbc {
  import opened Common
  import opened BigEndian
  import opened Tpm12Formats

  const BLOCK := 16

  type Block = b: seq<byte> | |b| == BLOCK witness seq(BLOCK, _ => 0)

  /** A keyed block cipher: any pair of functions; Lawful says they undo each other. */
  datatype BlockCipher = BlockCipher(enc: Block -> Block, dec: Block -> Block) {
    ghost predicate Lawful() {
      forall b: Block :: dec(enc(b)) == b && enc(dec(b)) == b
    }
  }

  /** AES as a family of ciphers indexed by the key bytes. */
  type Aes = seq<byte> -> BlockCipher

  predicate AesKeySize(n: nat) {
    n == 16 || n == 24 || n == 32
  }

  ghost predicate LawfulAes(aes: Aes) {
    forall key :: AesKeySize(|key|) ==> aes(key).Lawful()
  }

  /** aes.NewCipher: the key must have 16, 24 or 32 bytes. */
  function NewCipher(aes: Aes, key: seq<byte>): Result<BlockCipher> {
    if AesKeySize(|key|) then Success(aes(key)) else Failure(BadKeySize)
  }

  // ----- XOR ---------------------------------------------------------------------------------

  /** The low `bits` bits of a XOR b, one bit at a time. */
  function XorBits(a: nat, b: nat, bits: nat): (x: nat)
    ensures x < Pow2(bits)
  {
    if bits == 0 then 0
    else (if a % 2 == b % 2 then 0 else 1) + 2 * XorBits(a / 2, b / 2, bits - 1)
  }

  lemma Halves(low: nat, high: nat)
    requires low < 2
    ensures (low + 2 * high) / 2 == high && (low + 2 * high) % 2 == low
  {
  }

  lemma XorBitsStep(aLow: nat, aHigh: nat, bLow: nat, bHigh: nat, bits: nat)
    requires aLow < 2 && bLow < 2 && bits > 0
    ensures XorBits(aLow + 2 * aHigh, bLow + 2 * bHigh, bits)
         == (if aLow == bLow then 0 else 1) + 2 * XorBits(aHigh, bHigh, bits - 1)
  {
    Halves(aLow, aHigh);
    Halves(bLow, bHigh);
  }

  lemma {:induction false} XorBitsCancel(a: nat, b: nat, bits: nat)
    requires a < Pow2(bits)
    ensures XorBits(XorBits(a, b, bits), b, bits) == a
  {
    if bits > 0 {
      var low := if a % 2 == b % 2 then 0 else 1;
      var high := XorBits(a / 2, b / 2, bits - 1);
      assert a == a % 2 + 2 * (a / 2) && b == b % 2 + 2 * (b / 2);
      XorBitsStep(a % 2, a / 2, b % 2, b / 2, bits);
      XorBitsStep(low, high, b % 2, b / 2, bits);
      XorBitsCancel(a / 2, b / 2, bits - 1);
    }
  }

  lemma Pow2Of8()
    ensures Pow2(8) == 256
  {
    assert Pow2(8) == 2 * Pow2(7) && Pow2(7) == 2 * Pow2(6) && Pow2(6) == 64;
  }

  function Xor(a: byte, b: byte): byte {
    Pow2Of8();
    XorBits(a as nat, b as nat, 8) as byte
  }

  lemma XorCancel(a: byte, b: byte)
    ensures Xor(Xor(a, b), b) == a
  {
    Pow2Of8();
    XorBitsCancel(a as nat, b as nat, 8);
  }

  function XorBlock(a: Block, b: Block): Block {
    seq(BLOCK, i requires 0 <= i < BLOCK => Xor(a[i], b[i]))
  }

  lemma XorBlockCancel(a: Block, b: Block)
    ensures XorBlock(XorBlock(a, b), b) == a
  {
    forall i | 0 <= i < BLOCK ensures XorBlock(XorBlock(a, b), b)[i] == a[i] {
      XorCancel(a[i], b[i]);
    }
  }

  /** Bit k of v, counted from the lowest. */
  function Bit(v: nat, k: nat): nat {
    if k == 0 then v % 2 else Bit(v / 2, k - 1)
  }

  lemma {:induction false} XorBitsAt(a: nat, b: nat, bits: nat, k: nat)
    requires k < bits
    ensures Bit(XorBits(a, b, bits), k) == if Bit(a, k) == Bit(b, k) then 0 else 1
  {
    var low, high := if a % 2 == b % 2 then 0 else 1, XorBits(a / 2, b / 2, bits - 1);
    Halves(low, high);
    if k == 0 {
      assert XorBits(a, b, bits) % 2 == low;
    } else {
      assert Bit(XorBits(a, b, bits), k) == Bit(high, k - 1);
      XorBitsAt(a / 2, b / 2, bits - 1, k - 1);
    }
  }

  /** Exclusive or, bit by bit: bit k of byte i is set exactly when the two operands' differ there. */
  lemma XorBlockIsBitwise(a: Block, b: Block, i: nat, k: nat)
    requires i < 16 && k < 8
    ensures Bit(XorBlock(a, b)[i] as nat, k) == if Bit(a[i] as nat, k) == Bit(b[i] as nat, k) then 0 else 1
  {
    XorBitsAt(a[i] as nat, b[i] as nat, 8, k);
  }

  // ----- CBC ---------------------------------------------------------------------------------

  function CbcEncrypt(c: BlockCipher, iv: Block, p: seq<byte>): (r: seq<byte>)
    requires |p| % BLOCK == 0
    ensures |r| == |p|
    decreases |p|
  {
    if p == [] then []
    else
      var x := c.enc(XorBlock(p[..BLOCK], iv));
      x + CbcEncrypt(c, x, p[BLOCK..])
  }

  function CbcDecrypt(c: BlockCipher, iv: Block, x: seq<byte>): (r: seq<byte>)
    requires |x| % BLOCK == 0
    ensures |r| == |x|
    decreases |x|
  {
    if x == [] then []
    else XorBlock(c.dec(x[..BLOCK]), iv) + CbcDecrypt(c, x[..BLOCK], x[BLOCK..])
  }

  /** The j-th block of a byte string. */
  function BlockAt(s: seq<byte>, j: nat): Block
    requires 16 * j + 16 <= |s|
  {
    s[16 * j..16 * j + 16]
  }

  lemma BlockAfterFirst(s: seq<byte>, j: nat)
    requires j > 0 && 16 * j + 16 <= |s|
    ensures BlockAt(s[16..], j - 1) == BlockAt(s, j)
  {
  }

  /**
   Cipher block chaining, block by block: each ciphertext block is the cipher of the plaintext
   block exclusive-or'ed with the IV, for the first, or with the ciphertext block before it.
   */
  lemma {:induction false} CbcEncryptBlocks(c: BlockCipher, iv: Block, p: seq<byte>, j: nat)
    requires |p| % 16 == 0 && 16 * j + 16 <= |p|
    ensures var x := CbcEncrypt(c, iv, p);
            |x| == |p| && BlockAt(x, j) == c.enc(XorBlock(BlockAt(p, j), if j == 0 then iv else BlockAt(x, j - 1)))
    decreases j
  {
    var x := CbcEncrypt(c, iv, p);
    assert x[..16] == c.enc(XorBlock(p[..16], iv));
    if j > 0 {
      CbcEncryptBlocks(c, x[..16], p[16..], j - 1);
      assert x[16..] == CbcEncrypt(c, x[..16], p[16..]);
      BlockAfterFirst(p, j);
      BlockAfterFirst(x, j);
      if j > 1 {
        BlockAfterFirst(x, j - 1);
      }
    }
  }

  /** The converse for decryption. */
  lemma {:induction false} CbcDecryptBlocks(c: BlockCipher, iv: Block, x: seq<byte>, j: nat)
    requires |x| % 16 == 0 && 16 * j + 16 <= |x|
    ensures var p := CbcDecrypt(c, iv, x);
            |p| == |x| && BlockAt(p, j) == XorBlock(c.dec(BlockAt(x, j)), if j == 0 then iv else BlockAt(x, j - 1))
    decreases j
  {
    var p := CbcDecrypt(c, iv, x);
    assert p[..16] == XorBlock(c.dec(x[..16]), iv);
    if j > 0 {
      CbcDecryptBlocks(c, x[..16], x[16..], j - 1);
      assert p[16..] == CbcDecrypt(c, x[..16], x[16..]);
      BlockAfterFirst(p, j);
      BlockAfterFirst(x, j);
      if j > 1 {
        BlockAfterFirst(x, j - 1);
      }
    }
  }

  lemma {:induction false} CbcDecryptEncrypt(c: BlockCipher, iv: Block, p: seq<byte>)
    requires c.Lawful() && |p| % BLOCK == 0
    ensures CbcDecrypt(c, iv, CbcEncrypt(c, iv, p)) == p
    decreases |p|
  {
    if p != [] {
      var x := c.enc(XorBlock(p[..BLOCK], iv));
      var r := CbcEncrypt(c, iv, p);
      assert r[..BLOCK] == x && r[BLOCK..] == CbcEncrypt(c, x, p[BLOCK..]);
      XorBlockCancel(p[..BLOCK], iv);
      CbcDecryptEncrypt(c, x, p[BLOCK..]);
    }
  }

  lemma {:induction false} CbcEncryptDecrypt(c: BlockCipher, iv: Block, x: seq<byte>)
    requires c.Lawful() && |x| % BLOCK == 0
    ensures CbcEncrypt(c, iv, CbcDecrypt(c, iv, x)) == x
    decreases |x|
  {
    if x != [] {
      var first := XorBlock(c.dec(x[..BLOCK]), iv);
      var p := CbcDecrypt(c, iv, x);
      assert p[..BLOCK] == first && p[BLOCK..] == CbcDecrypt(c, x[..BLOCK], x[BLOCK..]);
      XorBlockCancel(c.dec(x[..BLOCK]), iv);
      CbcEncryptDecrypt(c, x[..BLOCK], x[BLOCK..]);
    }
  }

  // ----- Padding -----------------------------------------------------------------------------

  function Repeat(b: byte, n: nat): seq<byte> {
    seq(n, _ => b)
  }

  function PadLength(n: nat): (p: nat)
    ensures 1 <= p <= BLOCK && (n + p) % BLOCK == 0
  {
    BLOCK - n % BLOCK
  }

  function Pad(data: seq<byte>): (r: seq<byte>)
    ensures |r| % BLOCK == 0 && |r| == |data| + PadLength(|data|)
  {
    data + Repeat(PadLength(|data|) as byte, PadLength(|data|))
  }

  /** A plaintext that ends in p bytes of value p, for some p from 1 to 255, around out. */
  ghost predicate PaddedBy(plaintext: seq<byte>, out: seq<byte>, p: byte) {
    p != 0 && plaintext == out + Repeat(p, p as nat)
  }

  function Unpad(plaintext: seq<byte>): Result<seq<byte>>
    requires plaintext != []
  {
    var p := plaintext[|plaintext| - 1] as nat;
    if p > |plaintext| || p == 0 then Failure(InvalidPadding)
    else if forall i :: |plaintext| - p <= i < |plaintext| ==> plaintext[i] as nat == p
    then Success(plaintext[..|plaintext| - p])
    else Failure(InvalidPadding)
  }

  /** Unpadding accepts exactly the padded plaintexts, and p need not be at most 16. */
  lemma UnpadExact(plaintext: seq<byte>, out: seq<byte>)
    requires plaintext != []
    ensures Unpad(plaintext) == Success(out) <==> exists p :: PaddedBy(plaintext, out, p)
  {
    var last := plaintext[|plaintext| - 1];
    if Unpad(plaintext) == Success(out) {
      assert plaintext[|out|..] == Repeat(last, last as nat);
      assert PaddedBy(plaintext, out, last);
    }
    forall p | PaddedBy(plaintext, out, p) ensures Unpad(plaintext) == Success(out) {
      assert last == Repeat(p, p as nat)[p as nat - 1];
      assert plaintext[..|plaintext| - p as nat] == out;
    }
  }

  lemma UnpadOfPad(data: seq<byte>)
    ensures Unpad(Pad(data)) == Success(data)
  {
    assert PaddedBy(Pad(data), data, PadLength(|data|) as byte);
    UnpadExact(Pad(data), data);
  }

  // ----- The two operations ------------------------------------------------------------------

  /** The key parameters EncryptWithAES returns for a key and its random IV. */
  function CbcKeyParms(key: SymmetricKey, iv: Block): KeyParms
    requires |key.key| <= MAX_UINT32
  {
    KeyParms(key.algId, key.encScheme, SS_NONE, None, Some(SymmetricKeyParms(|key.key| as uint32, BLOCK as uint32, iv)))
  }

  function Encrypt(aes: Aes, key: SymmetricKey, iv: Block, data: seq<byte>): Result<(seq<byte>, KeyParms)> {
    var _ :- ValidateSymmetricKey(key);
    if data == [] then Failure(EmptyInput)
    else
      var cipher :- NewCipher(aes, key.key);
      Success((CbcEncrypt(cipher, iv, Pad(data)), CbcKeyParms(key, iv)))
  }

  /** The IV and the ciphertext proper: an absent or empty IV is taken from the front. */
  function SplitIv(parms: KeyParms, ciphertext: seq<byte>): Result<(seq<byte>, seq<byte>)> {
    var iv := if parms.sym.Some? then parms.sym.value.iv else [];
    if iv != [] then Success((iv, ciphertext))
    else if |ciphertext| < BLOCK then Failure(CiphertextTooShort)
    else Success((ciphertext[..BLOCK], ciphertext[BLOCK..]))
  }

  /**
   The CBC plaintext of an acceptable ciphertext, padding included. An IV of any length but
   16 makes cipher.NewCBCDecrypter panic.
   */
  function PaddedPlaintext(aes: Aes, key: SymmetricKey, parms: KeyParms, ciphertext: seq<byte>): (r: Result<seq<byte>>)
    ensures r.Success? ==> r.value != []
  {
    if parms.encScheme != ES_SYM_CBC_PKCS5 then Failure(UnsupportedScheme)
    else
      var cipher :- NewCipher(aes, key.key);
      var (iv, body) :- SplitIv(parms, ciphertext);
      if body == [] then Failure(EmptyCiphertext)
      else if |body| % BLOCK != 0 then Failure(PartialBlock)
      else if |iv| != BLOCK then Failure(Panic)
      else Success(CbcDecrypt(cipher, iv, body))
  }

  function Decrypt(aes: Aes, key: SymmetricKey, parms: KeyParms, ciphertext: seq<byte>): Result<seq<byte>> {
    var plaintext :- PaddedPlaintext(aes, key, parms, ciphertext);
    Unpad(plaintext)
  }

  /** EncryptWithAES; the random IV is a parameter. */
  method EncryptWithAES(aes: Aes, key: SymmetricKey, iv: Block, data: seq<byte>) returns (r: Result<(seq<byte>, KeyParms)>)
    ensures r == Encrypt(aes, key, iv, data)
  {
    var _ :- ValidateSymmetricKey(key);
    if |data| == 0 {
      return Failure(EmptyInput);
    }
    var cipher :- NewCipher(aes, key.key);
    var padding := BLOCK - (|data| % BLOCK);
    var paddedData := data + Repeat(padding as byte, padding);
    var ciphertext := CbcEncrypt(cipher, iv, paddedData);
    r := Success((ciphertext, CbcKeyParms(key, iv)));
  }

  /** The unpadding at the end of DecryptWithSymmetricKey, with its loop over the padding. */
  method RemovePadding(plaintext: seq<byte>) returns (r: Result<seq<byte>>)
    requires plaintext != []
    ensures r == Unpad(plaintext)
  {
    var padding := plaintext[|plaintext| - 1] as nat;
    if padding > |plaintext| || padding == 0 {
      return Failure(InvalidPadding);
    }
    var i := |plaintext| - padding;
    while i < |plaintext|
      invariant |plaintext| - padding <= i <= |plaintext|
      invariant forall j :: |plaintext| - padding <= j < i ==> plaintext[j] as nat == padding
    {
      if plaintext[i] as nat != padding {
        return Failure(InvalidPadding);
      }
      i := i + 1;
    }
    r := Success(plaintext[..|plaintext| - padding]);
  }

  method DecryptWithSymmetricKey(aes: Aes, key: SymmetricKey, parms: KeyParms, ciphertext: seq<byte>)
    returns (r: Result<seq<byte>>)
    ensures r == Decrypt(aes, key, parms, ciphertext)
  {
    if parms.encScheme != ES_SYM_CBC_PKCS5 {
      return Failure(UnsupportedScheme);
    }
    var cipher :- NewCipher(aes, key.key);
    var iv, body := if parms.sym.Some? then parms.sym.value.iv else [], ciphertext;
    if |iv| == 0 {
      if |body| < BLOCK {
        return Failure(CiphertextTooShort);
      }
      iv, body := body[..BLOCK], body[BLOCK..];
    }
    if |body| == 0 {
      return Failure(EmptyCiphertext);
    }
    if |body| % BLOCK != 0 {
      return Failure(PartialBlock);
    }
    if |iv| != BLOCK {
      return Failure(Panic);
    }
    var plaintext := CbcDecrypt(cipher, iv, body);
    r := RemovePadding(plaintext);
  }

  // ----- Round trips -------------------------------------------------------------------------

  /**
   Decryption undoes encryption for every plaintext encryption accepts, both with the IV in
   the key parameters and, when the parameters carry none, with the IV in front of the
   ciphertext.
   */
  lemma DecryptUndoesEncrypt(aes: Aes, key: SymmetricKey, iv: Block, data: seq<byte>, bare: KeyParms)
    requires LawfulAes(aes)
    requires Encrypt(aes, key, iv, data).Success?
    requires bare.encScheme == ES_SYM_CBC_PKCS5 && (bare.sym.Some? ==> bare.sym.value.iv == [])
    ensures var (ciphertext, parms) := Encrypt(aes, key, iv, data).value;
            && Decrypt(aes, key, parms, ciphertext) == Success(data)
            && Decrypt(aes, key, bare, iv + ciphertext) == Success(data)
  {
    var cipher := aes(key.key);
    var (ciphertext, parms) := Encrypt(aes, key, iv, data).value;
    CbcDecryptEncrypt(cipher, iv, Pad(data));
    UnpadOfPad(data);
    assert (iv + ciphertext)[..BLOCK] == iv && (iv + ciphertext)[BLOCK..] == ciphertext;
  }

  /** The input is this IV and body: the IV in the parameters, or in front when they carry none. */
  predicate InputIs(parms: KeyParms, ciphertext: seq<byte>, iv: Block, body: seq<byte>) {
    || (parms.sym.Some? && parms.sym.value.iv == iv && ciphertext == body)
    || ((parms.sym.None? || parms.sym.value.iv == []) && ciphertext == iv + body)
  }

  ghost predicate DecryptsTo(aes: Aes, key: SymmetricKey, iv: Block, body: seq<byte>, out: seq<byte>) {
    && body != [] && |body| % 16 == 0
    && exists p :: PaddedBy(CbcDecrypt(aes(key.key), iv, body), out, p)
  }

  /**
   What decryption accepts, both ways: under the CBC scheme and a key of an AES size, an IV and a
   non-empty whole number of blocks whose CBC plaintext is the output followed by p bytes of
   value p, for some p from 1 to 255.
   */
  lemma DecryptExact(aes: Aes, key: SymmetricKey, parms: KeyParms, ciphertext: seq<byte>, out: seq<byte>)
    ensures Decrypt(aes, key, parms, ciphertext) == Success(out) <==>
            && parms.encScheme == 0xFF && (|key.key| == 16 || |key.key| == 24 || |key.key| == 32)
            && exists iv: Block, body :: InputIs(parms, ciphertext, iv, body) && DecryptsTo(aes, key, iv, body, out)
  {
    if Decrypt(aes, key, parms, ciphertext) == Success(out) {
      var (iv, body) := SplitIv(parms, ciphertext).value;
      UnpadExact(CbcDecrypt(aes(key.key), iv, body), out);
      assert InputIs(parms, ciphertext, iv, body) && DecryptsTo(aes, key, iv, body, out);
    }
    if parms.encScheme == 0xFF && AesKeySize(|key.key|) {
      forall iv: Block, body | InputIs(parms, ciphertext, iv, body) && DecryptsTo(aes, key, iv, body, out)
        ensures Decrypt(aes, key, parms, ciphertext) == Success(out)
      {
        assert (iv + body)[..16] == iv && (iv + body)[16..] == body;
        UnpadExact(CbcDecrypt(aes(key.key), iv, body), out);
      }
    }
  }

  /**
   What encryption accepts and returns: non-empty data under an AES key with the CBC scheme; the
   CBC ciphertext of the data followed by 1 to 16 bytes that fill the last block, each of their
   number's value, and parameters that carry the key's algorithm and length and the IV.
   */
  lemma EncryptExact(aes: Aes, key: SymmetricKey, iv: Block, data: seq<byte>)
    ensures Encrypt(aes, key, iv, data).Success? <==>
            && key.encScheme == 0xFF && key.algId in {6, 8, 9} && data != []
            && (|key.key| == 16 || |key.key| == 24 || |key.key| == 32)
    ensures Encrypt(aes, key, iv, data).Success? ==>
            var p := 16 - |data| % 16;
            Encrypt(aes, key, iv, data).value
            == (CbcEncrypt(aes(key.key), iv, data + seq(p, _ => p as byte)),
                KeyParms(key.algId, 0xFF, 1, None, Some(SymmetricKeyParms(|key.key| as uint32, 16, iv))))
  {
    assert Pad(data) == data + seq(PadLength(|data|), _ => PadLength(|data|) as byte);
  }

  /** Padding again restores the plaintext exactly when p was at most one block. */
  lemma PadUndoesUnpad(plaintext: seq<byte>, out: seq<byte>, p: byte)
    requires PaddedBy(plaintext, out, p) && |plaintext| % BLOCK == 0
    ensures p as int <= BLOCK ==> Pad(out) == plaintext
    ensures p as int > BLOCK ==> |Pad(out)| != |plaintext|
  {
    assert |plaintext| == |out| + p as int;
    assert p as int <= BLOCK ==> PadLength(|out|) == p as int;
  }

  /**
   Reverse round trip: when the output is not empty, encrypting it again under the same key
   and IV reproduces the ciphertext exactly when at most one block of padding was removed;
   decryption also accepts longer paddings.
   */
  lemma EncryptUndoesDecrypt(aes: Aes, key: SymmetricKey, parms: KeyParms, ciphertext: seq<byte>, out: seq<byte>)
    requires LawfulAes(aes)
    requires ValidateSymmetricKey(key).Success?
    requires Decrypt(aes, key, parms, ciphertext) == Success(out) && out != []
    ensures var (iv, body) := SplitIv(parms, ciphertext).value;
            && |iv| == BLOCK
            && Encrypt(aes, key, iv, out).Success?
            && (Encrypt(aes, key, iv, out).value.0 == body <==> |body| - |out| <= BLOCK)
  {
    var (iv, body) := SplitIv(parms, ciphertext).value;
    var plaintext := CbcDecrypt(aes(key.key), iv, body);
    UnpadExact(plaintext, out);
    var p :| PaddedBy(plaintext, out, p);
    PadUndoesUnpad(plaintext, out, p);
    CbcEncryptDecrypt(aes(key.key), iv, body);
  }

  /**
   The failing side, for every key, IV and non-empty whole number of blocks: with 32 bytes of
   value 32 behind it, the ciphertext is accepted, and re-encrypting gives a shorter one.
   */
  lemma TwoBlocksOfPaddingLost(aes: Aes, key: SymmetricKey, iv: Block, out: seq<byte>)
    requires LawfulAes(aes) && Encrypt(aes, key, iv, out).Success? && |out| % BLOCK == 0
    ensures var ciphertext := CbcEncrypt(aes(key.key), iv, out + Repeat(32, 32));
            && Decrypt(aes, key, CbcKeyParms(key, iv), ciphertext) == Success(out)
            && |Encrypt(aes, key, iv, out).value.0| == |ciphertext| - BLOCK
  {
    var plaintext := out + Repeat(32, 32);
    CbcDecryptEncrypt(aes(key.key), iv, plaintext);
    assert PaddedBy(plaintext, out, 32);
    UnpadExact(plaintext, out);
  }
}
