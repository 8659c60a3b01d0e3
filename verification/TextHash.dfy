/** The 64-bit FNV-1a hash by which a script is named without being printed. */
module TextHash {
  import opened Powers
  import opened Strings

  type Hash = h: nat | h < 0x1_0000_0000_0000_0000

  const OFFSET: Hash := 0xcbf2_9ce4_8422_2325
  const PRIME: nat := 0x0000_0100_0000_01b3

  // PRIME is odd, so it has an inverse modulo 2^64.
  const INVERSE: nat := 0xce96_5057_aff6_957b

  /** Exclusive or of the lowest `n` bits. */
  function XorBits(a: nat, b: nat, n: nat): (x: nat)
    ensures x < Pow2(n)
  {
    if n == 0 then 0
    else (if a % 2 == b % 2 then 0 else 1) + 2 * XorBits(a / 2, b / 2, n - 1)
  }

  function Xor8(a: Byte, b: Byte): Byte {
    assert Pow2(8) == 256;
    XorBits(a, b, 8)
  }

  /** The hash with a byte folded into its lowest eight bits, the others untouched. */
  function XorByte(hash: Hash, byte: Byte): Hash {
    hash - hash % 256 + Xor8(hash % 256, byte)
  }

  function Step(hash: Hash, byte: Byte): Hash {
    (XorByte(hash, byte) * PRIME) % 0x1_0000_0000_0000_0000
  }

  function HashFrom(hash: Hash, bytes: seq<Byte>): Hash
    decreases bytes
  {
    if bytes == [] then hash else HashFrom(Step(hash, bytes[0]), bytes[1..])
  }

  method Fnv1a(bytes: seq<Byte>) returns (hash: Hash)
    ensures hash == HashFrom(OFFSET, bytes)
  {
    hash := OFFSET;
    assert bytes[0..] == bytes;
    for i := 0 to |bytes|
      invariant HashFrom(hash, bytes[i..]) == HashFrom(OFFSET, bytes)
    {
      assert bytes[i..][0] == bytes[i] && bytes[i..][1..] == bytes[i + 1..];
      hash := Step(hash, bytes[i]);
    }
  }

  /** With either operand fixed, exclusive or is one to one in the other. */
  lemma {:induction false} XorBitsInjective(a: nat, b: nat, c: nat, n: nat)
    requires a < Pow2(n) && b < Pow2(n)
    requires XorBits(a, c, n) == XorBits(b, c, n) || XorBits(c, a, n) == XorBits(c, b, n)
    ensures a == b
  {
    if n > 0 {
      XorBitsInjective(a / 2, b / 2, c / 2, n - 1);
    }
  }

  lemma Xor8Injective(a: Byte, b: Byte, c: Byte)
    requires Xor8(a, c) == Xor8(b, c) || Xor8(c, a) == Xor8(c, b)
    ensures a == b
  {
    assert Pow2(8) == 256;
    XorBitsInjective(a, b, c, 8);
  }

  lemma XorByteInjective(a: Hash, b: Hash, byte: Byte)
    requires XorByte(a, byte) == XorByte(b, byte)
    ensures a == b
  {
    hide Xor8;
    var x, y := Xor8(a % 256, byte), Xor8(b % 256, byte);
    assert XorByte(a, byte) % 256 == x && XorByte(b, byte) % 256 == y;
    Xor8Injective(a % 256, b % 256, byte);
  }

  /** The remainder is the only one of its size. */
  lemma ModIs(n: int, quotient: int, rest: Hash)
    requires n == quotient * 0x1_0000_0000_0000_0000 + rest
    ensures n % 0x1_0000_0000_0000_0000 == rest
  {
  }

  /** Multiplying by the prime modulo 2^64 can be undone. */
  lemma PrimeUndone(x: Hash)
    ensures ((x * PRIME) % 0x1_0000_0000_0000_0000 * INVERSE) % 0x1_0000_0000_0000_0000 == x
  {
    var q := (x * 0x0000_0100_0000_01b3) / 0x1_0000_0000_0000_0000;
    var r := (x * 0x0000_0100_0000_01b3) % 0x1_0000_0000_0000_0000;
    var quotient := x * 887_285_111_055 - q * 0xce96_5057_aff6_957b;
    assert r * 0xce96_5057_aff6_957b == quotient * 0x1_0000_0000_0000_0000 + x;
    ModIs(r * 0xce96_5057_aff6_957b, quotient, x);
  }

  /** A step is one to one on the hash. */
  lemma StepInjectiveInHash(a: Hash, b: Hash, byte: Byte)
    requires Step(a, byte) == Step(b, byte)
    ensures a == b
  {
    PrimeUndone(XorByte(a, byte));
    PrimeUndone(XorByte(b, byte));
    XorByteInjective(a, b, byte);
  }

  /** A step is one to one on the byte. */
  lemma StepInjectiveInByte(hash: Hash, a: Byte, b: Byte)
    requires Step(hash, a) == Step(hash, b)
    ensures a == b
  {
    PrimeUndone(XorByte(hash, a));
    PrimeUndone(XorByte(hash, b));
    Xor8Injective(a, b, hash % 256);
  }

  /** Hashes that differ stay different over the same bytes. */
  lemma {:induction false} StaysDifferent(a: Hash, b: Hash, bytes: seq<Byte>)
    requires a != b
    ensures HashFrom(a, bytes) != HashFrom(b, bytes)
    decreases bytes
  {
    if bytes != [] {
      if Step(a, bytes[0]) == Step(b, bytes[0]) {
        StepInjectiveInHash(a, b, bytes[0]);
      }
      StaysDifferent(Step(a, bytes[0]), Step(b, bytes[0]), bytes[1..]);
    }
  }

  /** Inputs of one length that differ in exactly one byte never hash alike. */
  lemma {:induction false} OneByteIsSeen(hash: Hash, x: seq<Byte>, y: seq<Byte>, at: nat)
    requires |x| == |y| && at < |x| && x[at] != y[at]
    requires forall i :: 0 <= i < |x| && i != at ==> x[i] == y[i]
    ensures HashFrom(hash, x) != HashFrom(hash, y)
    decreases at
  {
    if at == 0 {
      assert x[1..] == y[1..];
      if Step(hash, x[0]) == Step(hash, y[0]) {
        StepInjectiveInByte(hash, x[0], y[0]);
      }
      StaysDifferent(Step(hash, x[0]), Step(hash, y[0]), x[1..]);
    } else {
      OneByteIsSeen(Step(hash, x[0]), x[1..], y[1..], at - 1);
    }
  }

  // ---------------------------------------------------------------- what a step computes

  predicate Bit(n: nat, k: nat) {
    n / Pow2(k) % 2 == 1
  }

  lemma BitZero(n: nat)
    ensures Bit(n, 0) <==> n % 2 == 1
  {
    assert Pow2(0) == 1;
  }

  lemma BitOfHalf(n: nat, k: nat)
    ensures Bit(n, k + 1) <==> Bit(n / 2, k)
  {
    HalfThenDivide(n, Pow2(k));
  }

  lemma HalfThenDivide(n: nat, size: nat)
    requires size > 0
    ensures n / (2 * size) == n / 2 / size
  {
    var half := n / 2;
    var q, r := half / size, 2 * (half % size) + n % 2;
    assert half == q * size + half % size;
    assert n == q * (2 * size) + r;
    DivModUnique(n, 2 * size, q, r);
  }

  /** A bit of the exclusive or is set exactly where the operands differ. */
  lemma {:induction false} XorBitsIs(a: nat, b: nat, n: nat, k: nat)
    requires k < n
    ensures Bit(XorBits(a, b, n), k) <==> Bit(a, k) != Bit(b, k)
    decreases n
  {
    hide Bit, Pow2;
    var x := XorBits(a, b, n);
    assert x / 2 == XorBits(a / 2, b / 2, n - 1);
    assert x % 2 == if a % 2 == b % 2 then 0 else 1;
    if k == 0 {
      BitZero(x);
      BitZero(a);
      BitZero(b);
    } else {
      XorBitsIs(a / 2, b / 2, n - 1, k - 1);
      BitOfHalf(x, k - 1);
      BitOfHalf(a, k - 1);
      BitOfHalf(b, k - 1);
    }
  }

  /** Folding a byte in flips, of the lowest eight bits, those the byte has, and leaves the rest. */
  lemma XorByteIs(hash: Hash, byte: Byte, k: nat)
    requires k < 8
    ensures XorByte(hash, byte) / 256 == hash / 256
    ensures Bit(XorByte(hash, byte) % 256, k) <==> Bit(hash % 256, k) != Bit(byte, k)
  {
    XorBitsIs(hash % 256, byte, 8, k);
    assert Pow2(8) == 256;
  }

  lemma XorOf25And61()
    ensures Xor8(0x25, 0x61) == 0x44
  {
    assert XorBits(0, 0, 1) == 0;
    assert XorBits(1, 3, 2) == 2;
    assert XorBits(2, 6, 3) == 4;
    assert XorBits(4, 12, 4) == 8;
    assert XorBits(9, 24, 5) == 17;
    assert XorBits(18, 48, 6) == 34;
  }

  /** The published values for the empty input and for the letter a: the basis, the prime and the order. */
  lemma KnownHashes()
    ensures HashFrom(OFFSET, []) == 0xcbf2_9ce4_8422_2325
    ensures HashFrom(OFFSET, [0x61]) == 0xaf63_dc4c_8601_ec8c
  {
    hide Xor8;
    XorOf25And61();
    assert OFFSET % 256 == 0x25;
    assert XorByte(OFFSET, 0x61) == 0xcbf2_9ce4_8422_2344;
    ModIs(0xcbf2_9ce4_8422_2344 * PRIME, 0xcb_f29c_e5de, 0xaf63_dc4c_8601_ec8c);
    assert Step(OFFSET, 0x61) == 0xaf63_dc4c_8601_ec8c;
    assert [0x61][1..] == [];
    assert HashFrom(Step(OFFSET, 0x61), []) == Step(OFFSET, 0x61);
  }
}
