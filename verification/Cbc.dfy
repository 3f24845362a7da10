/** Cipher block chaining, section 6.2 of NIST SP 800-38A, over an arbitrary block
    permutation: it meets everything the chat assumes of its cipher. */
module Cbc {
  import opened CryptoDevice
  import opened ChatFraming

  const BLOCK: nat := 16

  function Pow2(n: nat): (p: nat)
    ensures p >= 1
  {
    if n == 0 then 1 else 2 * Pow2(n - 1)
  }

  /** The exclusive or of the last `n` bits. */
  function XorBits(a: nat, b: nat, n: nat): (r: nat)
    ensures r < Pow2(n)
  {
    if n == 0 then 0 else (if a % 2 == b % 2 then 0 else 1) + 2 * XorBits(a / 2, b / 2, n - 1)
  }

  lemma {:induction false} XorBitsTwice(a: nat, b: nat, n: nat)
    requires a < Pow2(n)
    ensures XorBits(XorBits(a, b, n), b, n) == a
  {
    if n > 0 {
      var r := XorBits(a / 2, b / 2, n - 1);
      assert XorBits(a, b, n) / 2 == r;
      XorBitsTwice(a / 2, b / 2, n - 1);
    }
  }

  lemma BytesFit()
    ensures Pow2(8) == 256
  {
  }

  function XorByte(a: Byte, b: Byte): Byte { BytesFit(); XorBits(a, b, 8) }

  lemma XorByteTwice(a: Byte, b: Byte)
    ensures XorByte(XorByte(a, b), b) == a
  {
    BytesFit();
    XorBitsTwice(a, b, 8);
  }

  function Xor(x: seq<Byte>, y: seq<Byte>): (z: seq<Byte>)
    requires |x| == |y|
    ensures |z| == |x|
  {
    seq(|x|, i requires 0 <= i < |x| => XorByte(x[i], y[i]))
  }

  lemma XorTwice(x: seq<Byte>, y: seq<Byte>)
    requires |x| == |y|
    ensures Xor(Xor(x, y), y) == x
  {
    forall i | 0 <= i < |x| ensures Xor(Xor(x, y), y)[i] == x[i] {
      XorByteTwice(x[i], y[i]);
    }
  }

  /** A block cipher in both directions, under a key. */
  datatype BlockCipher = BlockCipher(fwd: (seq<Byte>, seq<Byte>) -> seq<Byte>, inv: (seq<Byte>, seq<Byte>) -> seq<Byte>)

  /** For every key it permutes the blocks, and the two directions undo each other. */
  ghost predicate Permutes(bc: BlockCipher) {
    && (forall k, x :: |x| == BLOCK ==> |bc.fwd(k, x)| == BLOCK && bc.inv(k, bc.fwd(k, x)) == x)
    && (forall k, x :: |x| == BLOCK ==> |bc.inv(k, x)| == BLOCK && bc.fwd(k, bc.inv(k, x)) == x)
  }

  /** Each plaintext block is combined with the previous ciphertext block, the first with
      the initialisation vector. */
  function Chain(bc: BlockCipher, key: seq<Byte>, iv: seq<Byte>, x: seq<Byte>): (y: seq<Byte>)
    requires Permutes(bc) && |iv| == BLOCK && |x| % BLOCK == 0
    ensures |y| == |x|
    decreases |x|
  {
    if x == [] then []
    else
      var c := bc.fwd(key, Xor(x[..BLOCK], iv));
      c + Chain(bc, key, c, x[BLOCK..])
  }

  function Unchain(bc: BlockCipher, key: seq<Byte>, iv: seq<Byte>, y: seq<Byte>): (x: seq<Byte>)
    requires Permutes(bc) && |iv| == BLOCK && |y| % BLOCK == 0
    ensures |x| == |y|
    decreases |y|
  {
    if y == [] then []
    else Xor(bc.inv(key, y[..BLOCK]), iv) + Unchain(bc, key, y[..BLOCK], y[BLOCK..])
  }

  lemma {:induction false} UnchainChain(bc: BlockCipher, key: seq<Byte>, iv: seq<Byte>, x: seq<Byte>)
    requires Permutes(bc) && |iv| == BLOCK && |x| % BLOCK == 0
    ensures Unchain(bc, key, iv, Chain(bc, key, iv, x)) == x
    decreases |x|
  {
    if x != [] {
      var c := bc.fwd(key, Xor(x[..BLOCK], iv));
      var rest := Chain(bc, key, c, x[BLOCK..]);
      assert (c + rest)[..BLOCK] == c && (c + rest)[BLOCK..] == rest;
      XorTwice(x[..BLOCK], iv);
      UnchainChain(bc, key, c, x[BLOCK..]);
    }
  }

  lemma {:induction false} ChainUnchain(bc: BlockCipher, key: seq<Byte>, iv: seq<Byte>, y: seq<Byte>)
    requires Permutes(bc) && |iv| == BLOCK && |y| % BLOCK == 0
    ensures Chain(bc, key, iv, Unchain(bc, key, iv, y)) == y
    decreases |y|
  {
    if y != [] {
      var p, c := Xor(bc.inv(key, y[..BLOCK]), iv), y[..BLOCK];
      var rest := Unchain(bc, key, c, y[BLOCK..]);
      assert (p + rest)[..BLOCK] == p && (p + rest)[BLOCK..] == rest;
      XorTwice(bc.inv(key, c), iv);
      ChainUnchain(bc, key, c, y[BLOCK..]);
    }
  }

  /** The device's cipher: chaining for whole blocks, in the direction asked for. */
  ghost function CbcSuite(bc: BlockCipher): Suite
    requires Permutes(bc)
  {
    Suite((s: Session, op: nat, iv: seq<Byte>, x: seq<Byte>) =>
            if |iv| != BLOCK || |x| % BLOCK != 0 then []
            else if op == 0 then Chain(bc, s.key, iv, x)
            else Unchain(bc, s.key, iv, x))
  }

  /** What the chat assumes of its cipher holds of chaining over any permutation, and
      every buffer is the ciphertext of another. */
  lemma CbcInvertible(bc: BlockCipher)
    requires Permutes(bc)
    ensures Invertible(CbcSuite(bc))
    ensures forall y :: |y| == DATA_SIZE ==> Encipher(CbcSuite(bc), Decipher(CbcSuite(bc), y)) == y
  {
    var cs, key, iv := CbcSuite(bc), ChatKey(), ChatIv();
    forall x: seq<Byte> | |x| == DATA_SIZE ensures CbcRun(bc, x) {
      UnchainChain(bc, key, iv, x);
      ChainUnchain(bc, key, iv, x);
    }
    assert forall x :: |x| == DATA_SIZE ==> |Encipher(cs, x)| == DATA_SIZE && Decipher(cs, Encipher(cs, x)) == x by {
      assert forall x :: |x| == DATA_SIZE ==> CbcRun(bc, x);
    }
    assert forall y :: |y| == DATA_SIZE ==> |Decipher(cs, y)| == DATA_SIZE && Encipher(cs, Decipher(cs, y)) == y by {
      assert forall x :: |x| == DATA_SIZE ==> CbcRun(bc, x);
    }
  }

  ghost predicate CbcRun(bc: BlockCipher, x: seq<Byte>)
    requires Permutes(bc)
  {
    var cs := CbcSuite(bc);
    && |Encipher(cs, x)| == |x| && Decipher(cs, Encipher(cs, x)) == x
    && |Decipher(cs, x)| == |x| && Encipher(cs, Decipher(cs, x)) == x
  }

  // ----- an encrypted relay that garbles -----

  /** Every block combined with the key. */
  ghost function XorCipher(): BlockCipher {
    BlockCipher((k: seq<Byte>, x: seq<Byte>) => if |x| == |k| then Xor(x, k) else x,
                (k: seq<Byte>, x: seq<Byte>) => if |x| == |k| then Xor(x, k) else x)
  }

  lemma XorCipherPermutes()
    ensures Permutes(XorCipher())
  {
    forall k: seq<Byte>, x: seq<Byte> | |x| == BLOCK ensures XorCipher().inv(k, XorCipher().fwd(k, x)) == x {
      if |x| == |k| {
        XorTwice(x, k);
      }
    }
  }

  lemma SmallXors()
    ensures XorByte(0, 49) == 49 && XorByte(49, 48) == 1
  {
    BytesFit();
    assert XorBits(0, 49, 8) == 49;
    assert XorBits(49, 48, 8) == 1;
  }

  /** The first byte of a chained frame: the length's leading zero against the first bytes
      of the vector and the key. */
  lemma FirstByte(p: seq<Byte>)
    requires |p| == DATA_SIZE && p[0] == 0 && Permutes(XorCipher())
    ensures |Encipher(CbcSuite(XorCipher()), p)| == DATA_SIZE && Encipher(CbcSuite(XorCipher()), p)[0] == 1
  {
    SmallXors();
    var x := Xor(p[..BLOCK], ChatIv());
    assert x[0] == XorByte(p[0], 49);
    var c := Chain(XorCipher(), ChatKey(), ChatIv(), p);
    assert c[0] == Xor(x, ChatKey())[0] == XorByte(x[0], 48);
  }

  lemma XorSuiteInvertible()
    ensures Permutes(XorCipher()) && Invertible(CbcSuite(XorCipher()))
  {
    XorCipherPermutes();
    CbcInvertible(XorCipher());
  }

  /** What the second of two recipients decodes is not the message. */
  ghost predicate Garbled(cs: Suite, m: Message)
    requires Invertible(cs) && Fitting(m)
  {
    Unpack(Decipher(cs, Fanout(cs, Pad(Frame(m)), |Frame(m)|, 2)[1])) != Text(m)
  }

  /** There are block ciphers under which, chained as in the chat, no second recipient ever
      sees a message. */
  lemma SecondRecipientCanFail() returns (bc: BlockCipher)
    ensures Permutes(bc) && Invertible(CbcSuite(bc))
    ensures forall m: Message :: Fitting(m) ==> Garbled(CbcSuite(bc), m)
  {
    bc := XorCipher();
    XorSuiteInvertible();
    forall m: Message | Fitting(m) ensures Garbled(CbcSuite(bc), m) {
      ZeroFirst(m);
      FirstByte(Pad(Frame(m)));
      SecondGarbled(CbcSuite(bc), m);
    }
  }

  lemma ZeroFirst(m: Message)
    requires Fitting(m)
    ensures Pad(Frame(m))[0] == 0
  {
    assert Pad(Frame(m))[0] == Pad(Frame(m))[..|Frame(m)|][0];
  }
}
