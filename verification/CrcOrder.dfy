/** Powers of x modulo the generator, how long it takes until they repeat, and what that means for
    errors in two bits. */
module CrcOrder {
  import opened Bytes
  import opened Bits
  import opened CrcRegister
  import opened CrcTable
  import opened CrcStep
  import opened CrcDetection

  /** A register as its coefficients, the one of x^k at index k. */
  type Coefficients = w: seq<bool> | |w| == 16 witness seq(16, _ => false)

  const I := true
  const O := false

  const ONE: Coefficients := [I, O, O, O, O, O, O, O, O, O, O, O, O, O, O, O]

  /** Multiplication by x. */
  function Clock(w: Coefficients): Coefficients {
    [w[15], w[0], w[1], w[2], w[3], w[4] != w[15], w[5], w[6],
     w[7], w[8], w[9], w[10], w[11] != w[15], w[12], w[13], w[14]]
  }

  /** The square: squaring adds up, and the squares of the powers up to x^15 are known. */
  function Squared(w: Coefficients): Coefficients {
    [
      (((w[0] != w[8]) != w[10]) != w[12]) != w[14],
      w[14],
      (((w[1] != w[9]) != w[11]) != w[13]) != w[15],
      w[15],
      ((w[2] != w[10]) != w[12]) != w[14],
      ((w[8] != w[10]) != w[12]) != w[14],
      (((w[3] != w[11]) != w[13]) != w[14]) != w[15],
      ((w[9] != w[11]) != w[13]) != w[15],
      ((w[4] != w[12]) != w[14]) != w[15],
      (w[10] != w[12]) != w[14],
      (w[5] != w[13]) != w[15],
      (w[11] != w[13]) != w[15],
      ((w[6] != w[8]) != w[10]) != w[12],
      w[12],
      ((w[7] != w[9]) != w[11]) != w[13],
      w[13]
    ]
  }

  /** x^n. */
  function Power(n: nat): Coefficients {
    if n == 0 then ONE else Clock(Power(n - 1))
  }

  // ----- Powers of powers -----

  lemma FirstQuarter(w: Coefficients, u: Coefficients, v: Coefficients)
    requires u == Squared(Clock(w)) && v == Clock(Clock(Squared(w)))
    ensures u[0] == v[0] && u[1] == v[1] && u[2] == v[2] && u[3] == v[3]
  {
  }

  lemma SecondQuarter(w: Coefficients, u: Coefficients, v: Coefficients)
    requires u == Squared(Clock(w)) && v == Clock(Clock(Squared(w)))
    ensures u[4] == v[4] && u[5] == v[5] && u[6] == v[6] && u[7] == v[7]
  {
  }

  lemma ThirdQuarter(w: Coefficients, u: Coefficients, v: Coefficients)
    requires u == Squared(Clock(w)) && v == Clock(Clock(Squared(w)))
    ensures u[8] == v[8] && u[9] == v[9] && u[10] == v[10] && u[11] == v[11]
  {
  }

  lemma LastQuarter(w: Coefficients, u: Coefficients, v: Coefficients)
    requires u == Squared(Clock(w)) && v == Clock(Clock(Squared(w)))
    ensures u[12] == v[12] && u[13] == v[13] && u[14] == v[14] && u[15] == v[15]
  {
  }

  lemma SquareOfClock(w: Coefficients)
    ensures Squared(Clock(w)) == Clock(Clock(Squared(w)))
  {
    hide Clock;
    hide Squared;
    var u, v := Squared(Clock(w)), Clock(Clock(Squared(w)));
    FirstQuarter(w, u, v);
    SecondQuarter(w, u, v);
    ThirdQuarter(w, u, v);
    LastQuarter(w, u, v);
  }

  lemma {:induction false} PowerSquared(n: nat)
    ensures Power(2 * n) == Squared(Power(n))
  {
    if n > 0 {
      PowerSquared(n - 1);
      SquareOfClock(Power(n - 1));
      assert Power(2 * n) == Clock(Clock(Power(2 * n - 2)));
    }
  }

  lemma Doubling(n: nat, m: nat)
    requires m == 2 * n || m == 2 * n + 1
    ensures Power(m) == if m == 2 * n then Squared(Power(n)) else Clock(Squared(Power(n)))
  {
    PowerSquared(n);
  }

  lemma Power1()
    ensures Power(1) == [O, I, O, O, O, O, O, O, O, O, O, O, O, O, O, O]
  {
    assert Power(1) == Clock(Power(0));
  }

  lemma Power217()
    ensures Power(217) == [I, I, O, O, O, I, I, I, O, O, O, I, O, O, I, O]
  {
    hide Power;
    Power1();
    Doubling(1, 3);
    assert Power(3) == [O, O, O, I, O, O, O, O, O, O, O, O, O, O, O, O];
    Doubling(3, 6);
    assert Power(6) == [O, O, O, O, O, O, I, O, O, O, O, O, O, O, O, O];
    Doubling(6, 13);
    assert Power(13) == [O, O, O, O, O, O, O, O, O, O, O, O, O, I, O, O];
    Doubling(13, 27);
    assert Power(27) == [I, O, O, I, O, I, O, I, I, O, O, I, O, O, O, I];
    Doubling(27, 54);
    assert Power(54) == [O, O, O, I, O, I, I, O, I, O, O, O, I, O, O, O];
    Doubling(54, 108);
    assert Power(108) == [O, O, O, O, I, O, I, O, I, I, I, O, I, I, O, O];
    Doubling(108, 217);
  }

  lemma Power264()
    ensures Power(264) == [O, I, I, O, O, O, I, O, I, O, O, I, I, O, I, O]
  {
    hide Power;
    Power1();
    Doubling(1, 2);
    assert Power(2) == [O, O, I, O, O, O, O, O, O, O, O, O, O, O, O, O];
    Doubling(2, 4);
    assert Power(4) == [O, O, O, O, I, O, O, O, O, O, O, O, O, O, O, O];
    Doubling(4, 8);
    assert Power(8) == [O, O, O, O, O, O, O, O, I, O, O, O, O, O, O, O];
    Doubling(8, 16);
    assert Power(16) == [I, O, O, O, O, I, O, O, O, O, O, O, I, O, O, O];
    Doubling(16, 33);
    assert Power(33) == [O, O, O, O, O, I, I, O, O, I, I, I, O, I, I, O];
    Doubling(33, 66);
    assert Power(66) == [O, I, I, O, O, O, I, I, I, O, O, O, O, O, I, I];
    Doubling(66, 132);
    assert Power(132) == [O, I, O, I, O, O, O, I, O, I, I, I, O, O, I, O];
    Doubling(132, 264);
  }

  lemma Power1057()
    ensures Power(1057) == [I, I, I, I, O, I, O, I, O, I, O, O, I, I, I, I]
  {
    hide Power;
    Power264();
    Doubling(264, 528);
    assert Power(528) == [I, I, O, O, I, I, O, I, O, O, O, I, I, I, I, O];
    Doubling(528, 1057);
  }

  lemma Power292()
    ensures Power(292) == [O, I, I, O, I, O, O, I, I, I, O, O, I, O, O, O]
  {
    hide Power;
    Power1();
    Doubling(1, 2);
    assert Power(2) == [O, O, I, O, O, O, O, O, O, O, O, O, O, O, O, O];
    Doubling(2, 4);
    assert Power(4) == [O, O, O, O, I, O, O, O, O, O, O, O, O, O, O, O];
    Doubling(4, 9);
    assert Power(9) == [O, O, O, O, O, O, O, O, O, I, O, O, O, O, O, O];
    Doubling(9, 18);
    assert Power(18) == [O, O, I, O, O, O, O, I, O, O, O, O, O, O, I, O];
    Doubling(18, 36);
    assert Power(36) == [I, I, O, O, O, I, I, O, I, I, O, O, O, O, I, O];
    Doubling(36, 73);
    assert Power(73) == [O, I, I, O, O, I, O, I, I, I, I, I, O, O, O, I];
    Doubling(73, 146);
    assert Power(146) == [O, O, O, I, O, O, O, I, I, I, O, O, O, O, I, O];
    Doubling(146, 292);
  }

  lemma Power4681()
    ensures Power(4681) == [O, I, O, O, O, O, I, O, O, O, I, I, O, I, O, O]
  {
    hide Power;
    Power292();
    Doubling(292, 585);
    assert Power(585) == [O, O, O, O, O, O, O, O, I, O, I, O, O, O, I, O];
    Doubling(585, 1170);
    assert Power(1170) == [I, I, O, O, O, I, I, O, I, O, O, O, O, O, O, O];
    Doubling(1170, 2340);
    assert Power(2340) == [O, O, I, O, O, I, O, O, O, O, I, O, O, O, O, O];
    Doubling(2340, 4681);
  }

  lemma Power511()
    ensures Power(511) == [O, I, I, I, I, I, I, I, I, O, O, I, O, O, O, O]
  {
    hide Power;
    Power1();
    Doubling(1, 3);
    assert Power(3) == [O, O, O, I, O, O, O, O, O, O, O, O, O, O, O, O];
    Doubling(3, 7);
    assert Power(7) == [O, O, O, O, O, O, O, I, O, O, O, O, O, O, O, O];
    Doubling(7, 15);
    assert Power(15) == [O, O, O, O, O, O, O, O, O, O, O, O, O, O, O, I];
    Doubling(15, 31);
    assert Power(31) == [O, O, O, I, I, O, O, I, I, I, O, I, I, O, O, O];
    Doubling(31, 63);
    assert Power(63) == [O, O, O, O, O, I, O, O, O, O, I, O, I, O, I, I];
    Doubling(63, 127);
    assert Power(127) == [O, I, I, I, I, I, I, O, I, I, I, O, I, O, I, O];
    Doubling(127, 255);
    assert Power(255) == [O, O, I, O, O, O, O, O, I, I, I, I, O, O, I, I];
    Doubling(255, 511);
  }

  lemma Power32767()
    ensures Power(32767) == [I, O, O, O, O, O, O, O, O, O, O, O, O, O, O, O]
  {
    hide Power;
    Power511();
    Doubling(511, 1023);
    assert Power(1023) == [O, I, O, O, O, I, I, O, I, I, O, I, I, O, O, O];
    Doubling(1023, 2047);
    assert Power(2047) == [O, O, O, I, O, I, O, I, O, I, I, I, I, I, I, O];
    Doubling(2047, 4095);
    assert Power(4095) == [I, I, I, I, O, O, I, O, I, O, I, O, I, O, I, O];
    Doubling(4095, 8191);
    assert Power(8191) == [O, I, I, I, O, O, O, O, O, O, I, O, O, O, I, O];
    Doubling(8191, 16383);
    assert Power(16383) == [O, O, I, I, O, I, O, O, O, I, O, O, O, I, O, O];
    Doubling(16383, 32767);
  }

  // ----- Coefficients and registers -----

  function Bit(b: bool): nat {
    if b then 1 else 0
  }

  function Low(w: Coefficients): (n: nat)
    ensures n < 0x10
  {
    Bit(w[0]) + 2 * Bit(w[1]) + 4 * Bit(w[2]) + 8 * Bit(w[3])
  }

  function Middle(w: Coefficients): (n: nat)
    ensures n < 0x40
  {
    Bit(w[5]) + 2 * Bit(w[6]) + 4 * Bit(w[7]) + 8 * Bit(w[8]) + 16 * Bit(w[9]) + 32 * Bit(w[10])
  }

  function High(w: Coefficients): (n: nat)
    ensures n < 8
  {
    Bit(w[12]) + 2 * Bit(w[13]) + 4 * Bit(w[14])
  }

  /** The register that holds the coefficients. */
  function Word(w: Coefficients): word16 {
    Low(w) + 0x10 * Bit(w[4]) + 0x20 * Middle(w) + 0x800 * Bit(w[11]) + 0x1000 * High(w) + 0x8000 * Bit(w[15])
  }

  lemma ToggledBits(x: word16, low: nat, b: bool, middle: nat, c: bool, high: nat)
    requires low < 0x10 && middle < 0x40 && high < 8
    requires x == 2 * low + 0x20 * Bit(b) + 0x40 * middle + 0x1000 * Bit(c) + 0x2000 * high
    ensures Toggled(x) == 1 + 2 * low + 0x20 * Bit(!b) + 0x40 * middle + 0x1000 * Bit(!c) + 0x2000 * high
  {
    assert x / 0x20 == Bit(b) + 2 * (middle + 0x40 * Bit(c) + 0x80 * high);
    assert x / 0x1000 == Bit(c) + 2 * high;
  }

  lemma StepOfParts(r: word16, low: nat, b: bool, middle: nat, c: bool, high: nat, top: bool)
    requires low < 0x10 && middle < 0x40 && high < 8
    requires r == low + 0x10 * Bit(b) + 0x20 * middle + 0x800 * Bit(c) + 0x1000 * high + 0x8000 * Bit(top)
    ensures StepBit(r, false) == Bit(top) + 2 * low + 0x20 * Bit(b != top) + 0x40 * middle
                               + 0x1000 * Bit(c != top) + 0x2000 * high
  {
    hide Xor;
    hide Toggled;
    var x := 2 * low + 0x20 * Bit(b) + 0x40 * middle + 0x1000 * Bit(c) + 0x2000 * high;
    assert 2 * r == x + 0x1_0000 * Bit(top);
    XorWithGenerator(x);
    ToggledBits(x, low, b, middle, c, high);
  }

  /** Clocking moves each part up by one place. */
  lemma PartsClocked(w: Coefficients)
    ensures var v := Clock(w);
      && Low(v) + 0x10 * Bit(v[4]) == Bit(w[15]) + 2 * Low(w)
      && Middle(v) + 0x40 * Bit(v[11]) == Bit(w[4] != w[15]) + 2 * Middle(w)
      && High(v) + 8 * Bit(v[15]) == Bit(w[11] != w[15]) + 2 * High(w)
  {
    hide Bit;
  }

  /** A clock of the register is a multiplication by x. */
  lemma ClockIsStep(w: Coefficients)
    ensures StepBit(Word(w), false) == Word(Clock(w))
  {
    hide StepBit;
    hide Low;
    hide Middle;
    hide High;
    hide Clock;
    PartsClocked(w);
    StepOfParts(Word(w), Low(w), w[4], Middle(w), w[11], High(w), w[15]);
  }

  /** n clocks without data on 1 leave x^n. */
  lemma {:induction false} RegisterIsPower(n: nat)
    ensures Register(1, Zeros(n)) == Word(Power(n))
  {
    hide StepBit;
    hide Clock;
    if n == 0 {
      assert Word(ONE) == 1;
    } else {
      RegisterIsPower(n - 1);
      LastClock(1, n);
      ClockIsStep(Power(n - 1));
    }
  }

  lemma LastClock(r: word16, n: nat)
    requires n > 0
    ensures Register(r, Zeros(n)) == StepBit(Register(r, Zeros(n - 1)), false)
  {
    hide StepBit;
    ZerosSum(n - 1, 1);
    RegisterOfConcat(r, Zeros(n - 1), Zeros(1));
    assert Zeros(1)[1..] == [] && Zeros(1)[0] == false;
  }

  lemma ZerosSum(m: nat, n: nat)
    ensures Zeros(m + n) == Zeros(m) + Zeros(n)
  {
  }

  // ----- Periods -----

  /** After n clocks without data every register is back; 1 stands for all of them. */
  predicate IsPeriod(n: nat) {
    Register(1, Zeros(n)) == 1
  }

  lemma PeriodSum(m: nat, n: nat)
    requires IsPeriod(m)
    ensures IsPeriod(m + n) <==> IsPeriod(n)
  {
    hide Register;
    ZerosSum(m, n);
    RegisterOfConcat(1, Zeros(m), Zeros(n));
  }

  lemma {:induction false} PeriodMultiple(m: nat, k: nat)
    requires IsPeriod(m)
    ensures IsPeriod(m * k)
  {
    if k == 0 {
      NoClock();
    } else {
      PeriodMultiple(m, k - 1);
      PeriodSum(m, m * (k - 1));
      assert m * k == m + m * (k - 1);
    }
  }

  lemma NoClock()
    ensures IsPeriod(0)
  {
  }

  const PERIOD := 32767

  lemma PeriodOfPower(n: nat)
    ensures Power(n) == ONE ==> IsPeriod(n)
    ensures Power(n)[1] ==> !IsPeriod(n)
  {
    hide Power;
    hide Register;
    RegisterIsPower(n);
  }

  lemma KnownPeriods()
    ensures IsPeriod(PERIOD) && !IsPeriod(PERIOD / 7) && !IsPeriod(PERIOD / 31) && !IsPeriod(PERIOD / 151)
  {
    hide Power;
    hide IsPeriod;
    Power32767();
    Power4681();
    Power1057();
    Power217();
    PeriodOfPower(32767);
    PeriodOfPower(4681);
    PeriodOfPower(1057);
    PeriodOfPower(217);
  }

  lemma Multiple(m: nat, d: nat)
    requires d > 0
    ensures m % d == 0 <==> exists k: nat :: m == k * d
  {
    assert m == m / d * d + m % d;
    if k: nat :| m == k * d {
      ProductRemainder(k, d);
    }
  }

  lemma ProductRemainder(k: nat, d: nat)
    requires d > 0
    ensures (k * d) % d == 0
  {
    QuotientIs(k * d, d, k, 0);
  }

  /** What is closed under differences and holds of two numbers holds of a common divisor of them. */
  lemma {:induction false} CommonDivisor(a: nat, b: nat, closed: nat -> bool) returns (c: nat)
    requires a > 0 && closed(a) && closed(b)
    requires forall x: nat, y: nat :: closed(x) && closed(y) && y <= x ==> closed(x - y)
    ensures c > 0 && a % c == 0 && b % c == 0 && closed(c)
    decreases a + b
  {
    if b == 0 {
      c := a;
      ProductRemainder(1, a);
    } else if a <= b {
      c := CommonDivisor(a, b - a, closed);
      SumDivides(a, b - a, c);
    } else {
      c := CommonDivisor(b, a - b, closed);
      SumDivides(b, a - b, c);
    }
  }

  lemma SumDivides(m: nat, n: nat, c: nat)
    requires c > 0 && m % c == 0 && n % c == 0
    ensures (m + n) % c == 0
  {
    Multiple(m, c);
    Multiple(n, c);
    var j: nat :| m == j * c;
    var k: nat :| n == k * c;
    assert m + n == (j + k) * c;
    ProductRemainder(j + k, c);
  }

  lemma DifferenceDivides(m: nat, n: nat, c: nat)
    requires c > 0 && m % c == 0 && n % c == 0 && n <= m
    ensures (m - n) % c == 0
  {
    Multiple(m, c);
    Multiple(n, c);
    var j: nat :| m == j * c;
    var k: nat :| n == k * c;
    if j < k {
      ProductBelow(c, j, k);
    }
    assert m - n == (j - k) * c;
    ProductRemainder(j - k, c);
  }

  predicate IsFactor(q: nat) {
    q == 7 || q == 31 || q == 151
  }

  lemma NoSmallDivisor(q: nat, k: nat)
    requires IsFactor(q) && 2 <= k <= 12 && k != q
    ensures q % k != 0
  {
    assert k in {2, 3, 4, 5, 6, 7, 8, 9, 10, 11, 12};
  }

  lemma LargeProduct(e: nat, k: nat)
    ensures e > 12 && k > 12 ==> k * e > 151
  {
    if e > 12 && k > 12 {
      ProductBelow(e, 12, k);
    }
  }

  /** The factors of the period are prime. */
  lemma FactorIsPrime(q: nat, e: nat)
    requires IsFactor(q) && e > 0 && q % e == 0
    ensures e == 1 || e == q
  {
    var k := q / e;
    assert q == k * e;
    if 2 <= e <= 12 && e != q {
      NoSmallDivisor(q, e);
    } else if e > 12 && k != 1 {
      LargeProduct(e, k);
      ProductRemainder(e, k);
      NoSmallDivisor(q, k);
    }
  }

  predicate DividesTimes(c: nat, m: nat, t: nat)
    requires c > 0
  {
    (t * m) % c == 0
  }

  lemma DividesAway(c: nat, m: nat, x: nat, y: nat)
    requires c > 0 && DividesTimes(c, m, x) && DividesTimes(c, m, y) && y <= x
    ensures DividesTimes(c, m, x - y)
  {
    assert x * m - y * m == (x - y) * m;
    assert y * m <= x * m;
    DifferenceDivides(x * m, y * m, c);
  }

  lemma DividesSome(c: nat, m: nat)
    requires c > 0
    ensures DividesTimes(c, m, c) && (DividesTimes(c, m, 1) ==> m % c == 0)
  {
    ProductRemainder(m, c);
    assert m * c == c * m;
  }

  /** What divides a prime times m divides m, or is divided by the prime. */
  lemma PrimeDivides(q: nat, c: nat, m: nat)
    requires IsFactor(q) && c > 0 && (q * m) % c == 0
    ensures c % q == 0 || m % c == 0
  {
    assert DividesTimes(c, m, q);
    hide DividesTimes;
    var closed := (t: nat) => DividesTimes(c, m, t);
    forall x: nat, y: nat | closed(x) && closed(y) && y <= x
      ensures closed(x - y)
    {
      DividesAway(c, m, x, y);
    }
    DividesSome(c, m);
    var e := CommonDivisor(q, c, closed);
    FactorIsPrime(q, e);
  }

  /** A period that divides the known one is divided by each of its factors. */
  lemma FactorDivides(q: nat, c: nat)
    requires IsFactor(q) && c > 0 && PERIOD % c == 0 && IsPeriod(c)
    ensures c % q == 0
  {
    hide IsPeriod;
    var m := PERIOD / q;
    assert q * m == PERIOD;
    PrimeDivides(q, c, m);
    if m % c == 0 {
      Multiple(m, c);
      var k: nat :| m == k * c;
      PeriodMultiple(c, k);
      KnownPeriods();
    }
  }

  lemma AllFactors(c: nat)
    requires c % 7 == 0 && c % 31 == 0 && c % 151 == 0
    ensures c % PERIOD == 0
  {
    var a := c / 7;
    var b: int := 9 * (c / 31) - 2 * a;
    Combined(c, a, c / 31, b, c / 151);
  }

  lemma Combined(c: nat, a: nat, m: nat, b: int, n: nat)
    requires c == 7 * a == 31 * m == 151 * n && b == 9 * m - 2 * a
    ensures c % PERIOD == 0
  {
    var d := 135 * n - 194 * b;
    assert a == 31 * b && b == 151 * d;
    assert c == PERIOD * d;
  }

  lemma PeriodDifference(m: nat, n: nat)
    requires IsPeriod(m) && IsPeriod(n) && n <= m
    ensures IsPeriod(m - n)
  {
    hide IsPeriod;
    PeriodSum(n, m - n);
  }

  /** The order of the generator: the registers are back exactly after multiples of 32767 clocks. */
  lemma PeriodExactly(n: nat)
    ensures IsPeriod(n) <==> n % PERIOD == 0
  {
    hide IsPeriod;
    KnownPeriods();
    if n % PERIOD == 0 {
      PeriodMultiple(PERIOD, n / PERIOD);
    }
    if IsPeriod(n) {
      var closed := (t: nat) => IsPeriod(t);
      forall x: nat, y: nat | closed(x) && closed(y) && y <= x
        ensures closed(x - y)
      {
        PeriodDifference(x, y);
      }
      var c := CommonDivisor(PERIOD, n, closed);
      FactorDivides(7, c);
      FactorDivides(31, c);
      FactorDivides(151, c);
      AllFactors(c);
      DividesOn(n, c, PERIOD);
    }
  }

  lemma DividesOn(n: nat, c: nat, d: nat)
    requires c > 0 && d > 0 && n % c == 0 && c % d == 0
    ensures n % d == 0
  {
    var j, k := n / c, c / d;
    assert n == j * c && c == k * d;
    assert j * (k * d) == (j * k) * d;
    ProductRemainder(j * k, d);
  }

  // ----- Errors in two bits -----

  lemma SixteenClocks()
    ensures Register(1, Zeros(16)) == GENERATOR
  {
    hide Register;
    hide BitXor;
    Pow2Of15();
    ShiftsOut(1, 15, 0x8000);
    LastClock(1, 16);
    XorWithZero(GENERATOR);
  }

  /** What the first error bit leaves is back after a period, and only then. */
  lemma GeneratorReturns(d: nat)
    ensures Register(GENERATOR, Zeros(d)) == GENERATOR <==> IsPeriod(d)
  {
    hide Register;
    hide BitXor;
    SixteenClocks();
    var r := Register(1, Zeros(d));
    ZerosSum(16, d);
    ZerosSum(d, 16);
    RegisterOfConcat(1, Zeros(16), Zeros(d));
    RegisterOfConcat(1, Zeros(d), Zeros(16));
    assert 16 + d == d + 16;
    Superposition(r, Zeros(16), 1, Zeros(16));
    assert XorBits(Zeros(16), Zeros(16)) == Zeros(16);
    if Register(r, Zeros(16)) == GENERATOR {
      XorSelf(GENERATOR);
      QuietTail(Xor(r, 1), 16);
      XorCancels(r, 1);
    }
  }

  /** The two strings differ at positions i and j, and nowhere else. */
  ghost predicate DifferAt(a: seq<bool>, b: seq<bool>, i: nat, j: nat)
    requires |a| == |b|
  {
    forall k :: 0 <= k < |a| ==> (a[k] != b[k] <==> k == i || k == j)
  }

  /** The second error bit cancels the first if the register would be back at that clock. */
  lemma SecondErrorBit(d: nat)
    requires d > 0
    ensures StepBit(Register(GENERATOR, Zeros(d - 1)), true) == Xor(Register(GENERATOR, Zeros(d)), GENERATOR)
  {
    hide Register;
    hide BitXor;
    var r := Register(GENERATOR, Zeros(d - 1));
    LastClock(GENERATOR, d);
    StepBitLinear(r, 0, false, true);
    XorWithZero(r);
    XorWithZero(GENERATOR);
  }

  lemma TwoErrorBits(head: nat, d: nat, tail: nat)
    requires d > 0
    ensures Register(0, Zeros(head) + ([true] + (Zeros(d - 1) + ([true] + Zeros(tail))))) == 0 <==> d % PERIOD == 0
  {
    hide Register;
    hide BitXor;
    var rest := Zeros(d - 1) + ([true] + Zeros(tail));
    QuietHead(head);
    RegisterOfConcat(0, Zeros(head), [true] + rest);
    RegisterOfConcat(0, [true], rest);
    FirstErrorBit();
    RegisterOfConcat(GENERATOR, Zeros(d - 1), [true] + Zeros(tail));
    var r := Register(GENERATOR, Zeros(d - 1));
    OneClock(r, [true] + Zeros(tail));
    SecondErrorBit(d);
    GeneratorReturns(d);
    PeriodExactly(d);
    var last := StepBit(r, true);
    XorCancels(Register(GENERATOR, Zeros(d)), GENERATOR);
    XorSelf(GENERATOR);
    if last == 0 {
      QuietHead(tail);
    }
    if Register(last, Zeros(tail)) == 0 {
      QuietTail(last, tail);
    }
  }

  lemma OneClock(r: word16, bits: seq<bool>)
    requires bits != []
    ensures Register(r, bits) == Register(StepBit(r, bits[0]), bits[1..])
  {
    hide StepBit;
  }

  lemma TwoBitShape(d: seq<bool>, i: nat, j: nat)
    requires i < j < |d| && forall k :: 0 <= k < |d| ==> (d[k] <==> k == i || k == j)
    ensures d == Zeros(i) + ([true] + (Zeros(j - i - 1) + ([true] + Zeros(|d| - j - 1))))
  {
    assert d[..i] == Zeros(i) && d[i + 1..j] == Zeros(j - i - 1) && d[j + 1..] == Zeros(|d| - j - 1);
    assert d == d[..i] + ([true] + (d[i + 1..j] + ([true] + d[j + 1..])));
  }

  /** From any register, two strings that differ in exactly two bits leave the same register if and
      only if the bits are a multiple of 32767 apart. */
  lemma TwoBitsDetected(r: word16, a: seq<bool>, b: seq<bool>, i: nat, j: nat)
    requires |a| == |b| && i < j < |a| && DifferAt(a, b, i, j)
    ensures Register(r, a) == Register(r, b) <==> (j - i) % PERIOD == 0
  {
    hide Register;
    hide BitXor;
    var d := XorBits(a, b);
    TwoBitShape(d, i, j);
    TwoErrorBits(i, j - i, |d| - j - 1);
    Superposition(r, a, r, b);
    XorSelf(r);
    XorSelf(Register(r, a));
    XorCancels(Register(r, a), Register(r, b));
  }

  /** Damage to exactly two bits goes unnoticed if and only if they are a multiple of 32767 apart. */
  lemma ChecksumDetectsTwoBitErrors(a: seq<byte>, b: seq<byte>, i: nat, j: nat)
    requires |a| == |b| && i < j < 8 * |a| && DifferAt(BitsOf(a), BitsOf(b), i, j)
    ensures Checksum(a) == Checksum(b) <==> (j - i) % PERIOD == 0
  {
    TwoBitsDetected(PRESET, BitsOf(a), BitsOf(b), i, j);
  }
}
