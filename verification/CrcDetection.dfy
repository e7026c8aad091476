/** What the checksum is guaranteed to notice. */
module CrcDetection {
  import opened Bytes
  import opened Bits
  import opened CrcRegister
  import opened CrcTable
  import opened CrcStep

  /** The two strings agree outside sixteen consecutive positions starting at `from`. */
  ghost predicate DifferInWindow(a: seq<bool>, b: seq<bool>, from: nat)
    requires |a| == |b|
  {
    forall k :: 0 <= k < |a| && (k < from || from + 16 <= k) ==> a[k] == b[k]
  }

  /** In how many positions two strings of one length differ. */
  function Distance(a: seq<bool>, b: seq<bool>): nat
    requires |a| == |b|
  {
    if a == [] then 0 else (if a[0] != b[0] then 1 else 0) + Distance(a[1..], b[1..])
  }

  // ----- Bursts -----

  lemma FeedbackIsOdd(w: word16)
    ensures Xor(2 * w % 0x1_0000, GENERATOR) % 2 == 1
  {
    XorHalves(2 * w % 0x1_0000, GENERATOR);
  }

  lemma UndoClock(w: word16, bit: bool, p: nat, q': nat, e: nat) returns (q: nat)
    requires StepBit(w, bit) == 2 * (p * q') && p * e == 0x8000
    ensures w == p * q
  {
    hide BitXor;
    FeedbackIsOdd(w);
    q := if w >= 0x8000 then q' + e else q';
    Distribute(p, q', e);
  }

  /** Running the register backwards from zero: n clocks earlier its low 16 - n bits were zero. */
  lemma {:induction false} Backwards(w: word16, bits: seq<bool>, p: nat) returns (q: nat)
    requires |bits| <= 15 && Register(w, bits) == 0 && p == Pow2(16 - |bits|)
    ensures w == p * q
    decreases |bits|
  {
    var n := |bits|;
    if n == 0 {
      q := 0;
    } else {
      hide StepBit;
      var q' := Backwards(StepBit(w, bits[0]), bits[1..], 2 * p);
      Pow2Sum(16 - n, n - 1);
      Pow2Of15();
      Distribute(p, q', q');
      q := UndoClock(w, bits[0], p, q', Pow2(n - 1));
    }
  }

  lemma {:induction false} QuietTail(w: word16, n: nat)
    requires Register(w, Zeros(n)) == 0
    ensures w == 0
    decreases n
  {
    if n > 0 {
      hide BitXor;
      FeedbackIsOdd(w);
      assert Zeros(n)[1..] == Zeros(n - 1);
      QuietTail(StepBit(w, false), n - 1);
    }
  }

  lemma {:induction false} QuietHead(n: nat)
    ensures Register(0, Zeros(n)) == 0
  {
    if n > 0 {
      assert Zeros(n)[1..] == Zeros(n - 1);
      QuietHead(n - 1);
    }
  }

  /** So a register cleared within fifteen clocks was even. */
  lemma ClearedWasEven(w: word16, bits: seq<bool>)
    requires |bits| <= 15 && Register(w, bits) == 0
    ensures w % 2 == 0
  {
    hide Register;
    var p := Pow2(15 - |bits|);
    var q := Backwards(w, bits, 2 * p);
    Distribute(p, q, q);
    assert w == 2 * (p * q);
  }

  lemma BurstRegister(head: nat, middle: seq<bool>, tail: nat)
    requires |middle| <= 15
    ensures Register(0, Zeros(head) + ([true] + (middle + Zeros(tail)))) != 0
  {
    hide Register;
    var rest := middle + Zeros(tail);
    QuietHead(head);
    RegisterOfConcat(0, Zeros(head), [true] + rest);
    RegisterOfConcat(0, [true], rest);
    FirstErrorBit();
    RegisterOfConcat(GENERATOR, middle, Zeros(tail));
    if Register(Register(GENERATOR, middle), Zeros(tail)) == 0 {
      QuietTail(Register(GENERATOR, middle), tail);
      ClearedWasEven(GENERATOR, middle);
    }
  }

  /** The first error bit leaves the generator, whose lowest bit is set. */
  lemma FirstErrorBit()
    ensures Register(0, [true]) == GENERATOR
  {
    XorWithZero(GENERATOR);
    assert StepBit(0, true) == GENERATOR;
    assert Register(StepBit(0, true), [true][1..]) == GENERATOR;
  }

  /** A difference that starts at position `first` and is over within sixteen positions. */
  lemma BurstLeavesTrace(d: seq<bool>, first: nat)
    requires first < |d| && d[first]
    requires forall k :: 0 <= k < |d| && (k < first || first + 16 <= k) ==> !d[k]
    ensures Register(0, d) != 0
  {
    hide Register;
    var end := if first + 16 < |d| then first + 16 else |d|;
    var middle := d[first + 1..end];
    assert d[..first] == Zeros(first) && d[end..] == Zeros(|d| - end);
    assert d == d[..first] + ([true] + (middle + d[end..]));
    BurstRegister(first, middle, |d| - end);
  }

  lemma {:induction false} FirstDifference(a: seq<bool>, b: seq<bool>) returns (first: nat)
    requires |a| == |b| && a != b
    ensures first < |a| && a[first] != b[first]
    ensures forall k :: 0 <= k < first ==> a[k] == b[k]
  {
    if a[0] != b[0] {
      first := 0;
    } else {
      first := FirstDifference(a[1..], b[1..]);
      first := first + 1;
    }
  }

  /** From any register, two different strings of one length whose differences lie within sixteen
      consecutive bits leave different registers. */
  lemma BurstDetected(r: word16, a: seq<bool>, b: seq<bool>, from: nat)
    requires |a| == |b| && a != b && DifferInWindow(a, b, from)
    ensures Register(r, a) != Register(r, b)
  {
    hide BitXor;
    var d := XorBits(a, b);
    var first := FirstDifference(a, b);
    BurstLeavesTrace(d, first);
    Superposition(r, a, r, b);
    XorSelf(r);
    XorSelf(Register(r, a));
  }

  /** Two byte strings of one length whose differences lie within sixteen consecutive bits have
      different checksums, at any length and position. */
  lemma ChecksumDetectsBursts(a: seq<byte>, b: seq<byte>, from: nat)
    requires |a| == |b| && a != b && DifferInWindow(BitsOf(a), BitsOf(b), from)
    ensures Checksum(a) != Checksum(b)
  {
    if BitsOf(a) == BitsOf(b) {
      BitsInjective(a, b);
    }
    BurstDetected(PRESET, BitsOf(a), BitsOf(b), from);
  }

  lemma {:induction false} BitsInjective(a: seq<byte>, b: seq<byte>)
    requires BitsOf(a) == BitsOf(b)
    ensures a == b
  {
    if a != [] && b != [] {
      assert ByteBits(a[0]) == BitsOf(a)[..8] == BitsOf(b)[..8] == ByteBits(b[0]);
      assert BitsOf(a[1..]) == BitsOf(a)[8..] == BitsOf(b)[8..] == BitsOf(b[1..]);
      NumberOfByteBits(a[0]);
      NumberOfByteBits(b[0]);
      BitsInjective(a[1..], b[1..]);
    }
  }

  // ----- Odd numbers of errors -----

  function Parity(bits: seq<bool>): bool {
    if bits == [] then false else bits[0] != Parity(bits[1..])
  }

  /** Whether the binary form of w has an odd number of ones. */
  function WordParity(w: nat): bool {
    if w == 0 then false else (w % 2 == 1) != WordParity(w / 2)
  }

  lemma {:induction false} ParityOfXor(a: nat, b: nat)
    ensures WordParity(BitXor(a, b)) == (WordParity(a) != WordParity(b))
    decreases a + b
  {
    if a > 0 && b > 0 {
      ParityOfXor(a / 2, b / 2);
      XorHalves(a, b);
      var d := BitXor(a, b);
      assert WordParity(d) == ((d % 2 == 1) != WordParity(d / 2));
    }
  }

  lemma {:induction false} ParityOfSplit(h: nat, l: nat, k: nat)
    requires l < Pow2(k)
    ensures WordParity(Pow2(k) * h + l) == (WordParity(h) != WordParity(l))
    decreases k
  {
    if k > 0 {
      var high := Pow2(k - 1) * h;
      var n := Regroup(Pow2(k), Pow2(k - 1), h, l, high);
      ParityOfSplit(h, l / 2, k - 1);
      ParityStep(n, high + l / 2, l % 2);
      ParityStep(l, l / 2, l % 2);
    }
  }

  lemma ParityStep(n: nat, half: nat, bit: nat)
    requires n == 2 * half + bit && bit < 2
    ensures WordParity(n) == ((bit == 1) != WordParity(half))
  {
    assert n / 2 == half && n % 2 == bit;
  }

  lemma ParityOfConstants()
    ensures WordParity(1) && WordParity(GENERATOR) && !WordParity(PRESET)
  {
    Powers2();
    Pow2Of5And12();
    assert Pow2(7) == 4 * Pow2(5);
    assert WordParity(1);
    ParityOfSplit(0x81, 1, 5);
    ParityOfSplit(1, 1, 7);
    ParityOfSplit(0xFF, 0xFF, 8);
  }

  /** The generator has an odd number of terms, so a clock changes the register's parity by exactly
      the data bit. */
  lemma StepBitParity(r: word16, bit: bool)
    ensures WordParity(StepBit(r, bit)) == (WordParity(r) != bit)
  {
    hide BitXor;
    hide WordParity;
    var low := r % 0x8000;
    ParityOfConstants();
    CutTopBit(r);
    Pow2Of15();
    ParityOfSplit(r / 0x8000, low, 15);
    ParityOfBit(r / 0x8000);
    ParityOfSplit(low, 0, 1);
    ParityOfBit(0);
    ParityOfXor(2 * low, GENERATOR);
  }

  lemma ParityOfBit(b: nat)
    requires b < 2
    ensures WordParity(b) == (b == 1)
  {
  }

  /** The register's parity is that of its start plus that of every bit clocked in. */
  lemma {:induction false} RegisterParity(r: word16, bits: seq<bool>)
    ensures WordParity(Register(r, bits)) == (WordParity(r) != Parity(bits))
    decreases |bits|
  {
    if bits != [] {
      hide StepBit;
      hide WordParity;
      StepBitParity(r, bits[0]);
      RegisterParity(StepBit(r, bits[0]), bits[1..]);
    }
  }

  lemma {:induction false} DistanceParity(a: seq<bool>, b: seq<bool>)
    requires |a| == |b|
    ensures (Distance(a, b) % 2 == 1) == (Parity(a) != Parity(b))
  {
    if a != [] {
      DistanceParity(a[1..], b[1..]);
    }
  }

  /** Any change of an odd number of bits changes the checksum. */
  lemma ChecksumDetectsOddErrors(a: seq<byte>, b: seq<byte>)
    requires |a| == |b| && Distance(BitsOf(a), BitsOf(b)) % 2 == 1
    ensures Checksum(a) != Checksum(b)
  {
    RegisterParity(PRESET, BitsOf(a));
    RegisterParity(PRESET, BitsOf(b));
    DistanceParity(BitsOf(a), BitsOf(b));
  }
}
