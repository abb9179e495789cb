/** The Feistel cipher for 32-bit numbers (src/ff1.rs; FF1 of section 5.1 of NIST SP 800-38G, radix 2),
    over any block cipher. */
module Ff1Cipher {
  import opened Arith

  type Block = b: seq<bv8> | |b| == 16 witness seq(16, i => 0)

  /** What the key determines: the block cipher, and the encryption of the initial block. */
  datatype Ff1 = Ff1(encryptBlock: Block -> Block, initialBlock: Block)

  const FIRST_BLOCK: Block := [1, 2, 1, 0, 0, 2, 10, 16, 0, 0, 0, 32, 0, 0, 0, 0]

  function New(encryptBlock: Block -> Block): Ff1 { Ff1(encryptBlock, encryptBlock(FIRST_BLOCK)) }

  /** 16-bit and 32-bit unsigned numbers. */
  type Half = x: int | 0 <= x < 0x1_0000
  type Word = x: int | 0 <= x < 0x1_0000_0000

  function High(x: Half): bv8 { (x / 256) as bv8 }
  function Low(x: Half): bv8 { (x % 256) as bv8 }

  function XorByte(a: bv8, b: bv8): bv8 { a ^ b }

  /** The round number and a half go into the last three bytes before encryption. */
  function Mixed(block: Block, i: bv8, x: Half): Block
  {
    block[13 := XorByte(block[13], i)][14 := XorByte(block[14], High(x))][15 := XorByte(block[15], Low(x))]
  }

  /** The big-endian number in bytes 6 and 7. */
  function Read(block: Block): Half { block[6] as int * 256 + block[7] as int }

  function Round(f: Ff1, i: bv8, x: Half): Half { Read(f.encryptBlock(Mixed(f.initialBlock, i, x))) }

  /** `wrapping_add` and `wrapping_sub` */
  function Add(a: Half, b: Half): Half { (a + b) % 0x1_0000 }
  function Sub(a: Half, b: Half): Half { (a - b) % 0x1_0000 }

  // ---- The round function of the standard ----

  /** A number in so many bytes, most significant first. */
  ghost function BigEndian(x: nat, bytes: nat): (r: seq<bv8>)
    ensures |r| == bytes
  {
    if bytes == 0 then [] else BigEndian(x / 256, bytes - 1) + [(x % 256) as bv8]
  }

  /** The number in a sequence of bytes, most significant first. */
  ghost function Number(s: seq<bv8>): nat
  {
    if s == [] then 0 else Number(s[..|s| - 1]) * 256 + s[|s| - 1] as int
  }

  ghost function Xor(a: Block, b: Block): Block { seq(16, i requires 0 <= i < 16 => XorByte(a[i], b[i])) }

  /** Step 5: radix 2, ten rounds, halves of 16 of 32 digits, no tweak. */
  ghost function P(): Block
  {
    [1, 2, 1] + BigEndian(2, 3) + [10] + [16] + BigEndian(32, 4) + BigEndian(0, 4)
  }

  /** Step 6i: zeros, the round number and the half. */
  ghost function Q(i: bv8, x: Half): Block { seq(13, _ => 0) + [i] + BigEndian(x, 2) }

  /** Step 6ii: the pseudo-random function over the two blocks. */
  ghost function Prf(encryptBlock: Block -> Block, i: bv8, x: Half): Block
  {
    encryptBlock(Xor(encryptBlock(P()), Q(i, x)))
  }

  lemma FirstBlockIsP()
    ensures FIRST_BLOCK == P()
  {
    assert BigEndian(0, 0) == [];
    assert BigEndian(0, 1) == [0];
    assert BigEndian(0, 2) == [0, 0];
    assert BigEndian(0, 3) == [0, 0, 0];
    assert BigEndian(2, 3) == [0, 0, 2];
    assert BigEndian(32, 4) == [0, 0, 0, 32];
    assert BigEndian(0, 4) == [0, 0, 0, 0];
  }

  lemma TwoBytes(x: Half)
    ensures BigEndian(x, 2) == [High(x), Low(x)]
  {
    var h := x / 256;
    assert h % 256 == h;
    assert BigEndian(h / 256, 0) == [];
    assert BigEndian(h, 1) == [(h % 256) as bv8];
  }

  lemma XorZero(a: bv8) ensures XorByte(a, 0) == a {}

  lemma QBytes(i: bv8, x: Half)
    ensures var q := Q(i, x);
            (forall k :: 0 <= k < 13 ==> q[k] == 0) && q[13] == i && q[14] == High(x) && q[15] == Low(x)
  {
    hide BigEndian, High, Low;
    TwoBytes(x);
  }

  lemma MixedIsXor(block: Block, i: bv8, x: Half)
    ensures Mixed(block, i, x) == Xor(block, Q(i, x))
  {
    hide Q, High, Low, XorByte;
    QBytes(i, x);
    forall k | 0 <= k < 16 ensures Mixed(block, i, x)[k] == Xor(block, Q(i, x))[k] { XorZero(block[k]); }
  }

  lemma LastTwo(n: nat, high: int, low: int)
    requires 0 <= high < 256 && 0 <= low < 256
    ensures ((n * 256 + high) * 256 + low) % 0x1_0000 == high * 256 + low
  {
    DivUnique((n * 256 + high) * 256 + low, 0x1_0000, n, high * 256 + low);
  }

  /** The last two bytes of a number are the number modulo 2^16. */
  lemma ReadIsNumber(block: Block)
    ensures Read(block) == Number(block[..8]) % 0x1_0000
  {
    var s := block[..8];
    assert s[..7][..6] == s[..6] && s[..7][6] == block[6];
    var n, high, low := Number(s[..6]), block[6] as int, block[7] as int;
    assert Number(s) == Number(s[..7]) * 256 + low;
    assert Number(s[..7]) == n * 256 + high;
    hide Number;
    LastTwo(n, high, low);
  }

  /** Steps 6iii to 6vi: the round value is what the standard adds to a half, modulo 2^16. */
  lemma RoundIsStandard(encryptBlock: Block -> Block, i: bv8, x: Half)
    ensures Round(New(encryptBlock), i, x) == Number(Prf(encryptBlock, i, x)[..8]) % 0x1_0000
  {
    hide Mixed, Read, Number, P, Q, Xor;
    FirstBlockIsP();
    MixedIsXor(encryptBlock(FIRST_BLOCK), i, x);
    ReadIsNumber(Prf(encryptBlock, i, x));
  }

  type Halves = (Half, Half)

  function Forward(f: Ff1, i: bv8, h: Halves): Halves { (h.1, Add(h.0, Round(f, i, h.1))) }
  function Backward(f: Ff1, i: bv8, h: Halves): Halves { (Sub(h.1, Round(f, i, h.0)), h.0) }

  lemma AddSub(a: Half, r: Half)
    ensures Sub(Add(a, r), r) == a && Add(Sub(a, r), r) == a
  {
  }

  lemma RoundInverse(f: Ff1, i: bv8, h: Halves)
    ensures Backward(f, i, Forward(f, i, h)) == h && Forward(f, i, Backward(f, i, h)) == h
  {
    hide Round, Add, Sub;
    AddSub(h.0, Round(f, i, h.1));
    AddSub(h.1, Round(f, i, h.0));
  }

  function Index(n: nat): bv8
    requires n < 10
  {
    n as bv8
  }

  /** The first `n` rounds, and the first `n` rounds undone from the last. */
  ghost function Encrypts(f: Ff1, n: nat, h: Halves): Halves
    requires n <= 10
  {
    if n == 0 then h else Forward(f, Index(n - 1), Encrypts(f, n - 1, h))
  }

  ghost function Decrypts(f: Ff1, n: nat, h: Halves): Halves
    requires n <= 10
  {
    if n == 0 then h else Decrypts(f, n - 1, Backward(f, Index(n - 1), h))
  }

  lemma {:induction false} Inverse(f: Ff1, n: nat, h: Halves)
    requires n <= 10
    ensures Decrypts(f, n, Encrypts(f, n, h)) == h && Encrypts(f, n, Decrypts(f, n, h)) == h
    decreases n
  {
    hide Forward, Backward;
    if n > 0 {
      RoundInverse(f, Index(n - 1), Encrypts(f, n - 1, h));
      Inverse(f, n - 1, h);
      Inverse(f, n - 1, Backward(f, Index(n - 1), h));
      RoundInverse(f, Index(n - 1), h);
    }
  }

  function Split(data: Word): Halves { (data / 0x1_0000, data % 0x1_0000) }
  function Join(h: Halves): Word { h.0 * 0x1_0000 + h.1 }

  lemma JoinSplit(data: Word)
    ensures Join(Split(data)) == data
  {
  }

  lemma SplitJoin(h: Halves)
    ensures Split(Join(h)) == h
  {
  }

  ghost function Encrypted(f: Ff1, data: Word): Word { Join(Encrypts(f, 10, Split(data))) }
  ghost function Decrypted(f: Ff1, data: Word): Word { Join(Decrypts(f, 10, Split(data))) }

  /** Decryption and encryption undo each other, for every block cipher. */
  lemma CipherInverse(f: Ff1, data: Word)
    ensures Decrypted(f, Encrypted(f, data)) == data && Encrypted(f, Decrypted(f, data)) == data
  {
    hide Encrypts, Decrypts, Split, Join;
    Inverse(f, 10, Split(data));
    SplitJoin(Encrypts(f, 10, Split(data)));
    SplitJoin(Decrypts(f, 10, Split(data)));
    JoinSplit(data);
  }

  method Encrypt(f: Ff1, data: Word) returns (r: Word)
    ensures r == Encrypted(f, data)
  {
    hide Forward, Split, Join;
    var h := Split(data);
    for n := 0 to 10
      invariant h == Encrypts(f, n, Split(data))
    {
      h := Forward(f, Index(n), h);
    }
    r := Join(h);
  }

  method Decrypt(f: Ff1, data: Word) returns (r: Word)
    ensures r == Decrypted(f, data)
  {
    hide Backward, Split, Join;
    var h := Split(data);
    for n := 10 downto 0
      invariant Decrypts(f, n, h) == Decrypts(f, 10, Split(data))
    {
      h := Backward(f, Index(n), h);
    }
    r := Join(h);
  }
}
