/** The checksum of packets as a bit-serial shift register: generator x^16 + x^12 + x^5 + 1
    (section 2 of ITU-T Recommendation V.41), preset to ones, most significant bit first. */
module CrcRegister {
  import opened Bytes
  import opened Bits

  type word16 = w: int | 0 <= w < 0x1_0000

  /** The generator without its leading term. */
  const GENERATOR: word16 := 0x1021
  const PRESET: word16 := 0xFFFF

  function Xor(a: word16, b: word16): word16 {
    WordBound(a, b);
    BitXor(a, b)
  }

  /** One clock: the bit leaving at the top, added to the data bit, decides whether the
      generator is added back in. */
  function StepBit(r: word16, bit: bool): word16 {
    if (r >= 0x8000) != bit then Xor(2 * r % 0x1_0000, GENERATOR) else 2 * r % 0x1_0000
  }

  function Register(r: word16, bits: seq<bool>): word16
    decreases |bits|
  {
    if bits == [] then r else Register(StepBit(r, bits[0]), bits[1..])
  }

  /** The bits of a byte in the order the register takes them. */
  function ByteBits(b: byte): (bits: seq<bool>)
    ensures |bits| == 8
  {
    [b / 128 % 2 == 1, b / 64 % 2 == 1, b / 32 % 2 == 1, b / 16 % 2 == 1,
     b / 8 % 2 == 1, b / 4 % 2 == 1, b / 2 % 2 == 1, b % 2 == 1]
  }

  function BitsOf(data: seq<byte>): (bits: seq<bool>)
    ensures |bits| == 8 * |data|
  {
    if data == [] then [] else ByteBits(data[0]) + BitsOf(data[1..])
  }

  /** The checksum of a byte string, as an unsigned 16-bit number. */
  function Checksum(data: seq<byte>): word16 {
    Register(PRESET, BitsOf(data))
  }

  /** Positions where two bit strings differ. */
  function XorBits(a: seq<bool>, b: seq<bool>): (d: seq<bool>)
    requires |a| == |b|
    ensures |d| == |a|
    ensures forall i :: 0 <= i < |a| ==> d[i] == (a[i] != b[i])
  {
    if a == [] then [] else [a[0] != b[0]] + XorBits(a[1..], b[1..])
  }

  lemma WordBound(a: word16, b: word16)
    ensures BitXor(a, b) < 0x1_0000
  {
    assert Pow2(16) == 0x1_0000 by {
      PowersAgree(2);
      Powers();
    }
    XorBound(a, b, 16);
  }

  lemma {:induction false} RegisterOfConcat(r: word16, a: seq<bool>, b: seq<bool>)
    ensures Register(r, a + b) == Register(Register(r, a), b)
    decreases |a|
  {
    if a == [] {
      assert a + b == b;
    } else {
      assert (a + b)[1..] == a[1..] + b;
      RegisterOfConcat(StepBit(r, a[0]), a[1..], b);
    }
  }

  lemma {:induction false} BitsOfConcat(a: seq<byte>, b: seq<byte>)
    ensures BitsOf(a + b) == BitsOf(a) + BitsOf(b)
  {
    if a == [] {
      assert a + b == b;
    } else {
      assert (a + b)[1..] == a[1..] + b;
      BitsOfConcat(a[1..], b);
    }
  }

  // ----- The register is linear -----

  lemma CutTopBit(a: word16)
    ensures a == 0x8000 * (a / 0x8000) + a % 0x8000
    ensures 2 * a % 0x1_0000 == 2 * (a % 0x8000)
    ensures (a >= 0x8000) == (a / 0x8000 == 1) && a / 0x8000 < 2
  {
  }

  lemma Pow2Of15()
    ensures Pow2(15) == 0x8000
  {
    assert Pow2(16) == 2 * Pow2(15);
    PowersAgree(2);
    Powers();
  }

  lemma ShiftOfXor(a: word16, b: word16)
    ensures (Xor(a, b) >= 0x8000) == ((a >= 0x8000) != (b >= 0x8000))
    ensures 2 * Xor(a, b) % 0x1_0000 == Xor(2 * a % 0x1_0000, 2 * b % 0x1_0000)
  {
    hide BitXor;
    Pow2Of15();
    CutTopBit(a);
    CutTopBit(b);
    CutTopBit(Xor(a, b));
    var ta, la, tb, lb := a / 0x8000, a % 0x8000, b / 0x8000, b % 0x8000;
    XorSplit(ta, la, tb, lb, 15);
    XorBound(la, lb, 15);
    XorStep(la, lb, 0, 0);
    TopBits(ta, tb);
  }

  lemma TopBits(s: nat, t: nat)
    requires s < 2 && t < 2
    ensures BitXor(s, t) == if s != t then 1 else 0
  {
  }

  /** A clock distributes over sums of registers and of data bits. */
  lemma StepBitLinear(r: word16, s: word16, x: bool, y: bool)
    ensures StepBit(Xor(r, s), x != y) == Xor(StepBit(r, x), StepBit(s, y))
  {
    hide BitXor;
    ShiftOfXor(r, s);
    var u, v := 2 * r % 0x1_0000, 2 * s % 0x1_0000;
    XorAssociates(u, v, GENERATOR);
    XorCommutes(v, GENERATOR);
    XorAssociates(u, GENERATOR, v);
    XorExchange(u, GENERATOR, v, GENERATOR);
    XorSelf(GENERATOR);
    XorWithZero(BitXor(u, v));
  }

  lemma XorWithZero(a: nat)
    ensures BitXor(a, 0) == a && BitXor(0, a) == a
  {
  }

  /** Superposition: the register of a sum is the sum of the registers. */
  lemma {:induction false} Superposition(r: word16, a: seq<bool>, s: word16, b: seq<bool>)
    requires |a| == |b|
    ensures Register(Xor(r, s), XorBits(a, b)) == Xor(Register(r, a), Register(s, b))
    decreases |a|
  {
    if a != [] {
      hide StepBit;
      hide Xor;
      StepBitLinear(r, s, a[0], b[0]);
      assert XorBits(a, b)[1..] == XorBits(a[1..], b[1..]);
      Superposition(StepBit(r, a[0]), a[1..], StepBit(s, b[0]), b[1..]);
    }
  }
}
