/** Receive-buffer capacities, which the server computes in binary32 floating point. */
module Float32 {
  import opened Bytes

  const RECV_BUFFER_SIZE := 1024
  const SIGNIFICAND := 0x100_0000  // 2^24
  const TWO_32 := 0x1_0000_0000

  /** The largest size whose capacity is still a 32-bit number. */
  const LARGEST_REQUEST := TWO_32 - 1920

  // ----- uint32_t to float -----

  /** The distance between neighbouring floats at x. */
  function Ulp(x: nat): (u: nat)
    ensures u > 0
  {
    if x < SIGNIFICAND then 1 else 2 * Ulp(x / 2)
  }

  /** Conversion rounding to nearest, ties to even (section 4.3.1 of IEEE 754-2008). */
  function ToFloat(x: nat): nat {
    var u := Ulp(x);
    var q, r := x / u, x % u;
    if 2 * r < u || (2 * r == u && q % 2 == 0) then q * u else (q + 1) * u
  }

  /** The integers a float can hold, exponent range aside. */
  ghost predicate Representable(y: nat) {
    exists m: nat, k: nat :: m < SIGNIFICAND && y == Scaled(m, k)
  }

  function Scaled(m: nat, k: nat): nat {
    m * Pow2(k)
  }

  function Distance(a: int, b: int): nat {
    if a < b then b - a else a - b
  }

  lemma {:induction false} UlpIsPower(x: nat) returns (k: nat)
    ensures Ulp(x) == Pow2(k) && x / Ulp(x) < SIGNIFICAND
    ensures k > 0 ==> x / Ulp(x) >= SIGNIFICAND / 2
  {
    if x < SIGNIFICAND {
      k := 0;
    } else {
      var j := UlpIsPower(x / 2);
      HalfQuotient(x, Ulp(x / 2));
      k := j + 1;
    }
  }

  lemma HalfQuotient(x: nat, u: nat)
    requires u > 0
    ensures x / (2 * u) == x / 2 / u
  {
    var q, r := x / 2 / u, x / 2 % u;
    assert x / 2 == q * u + r;
    var s := 2 * r + x % 2;
    assert x == q * (2 * u) + s;
    QuotientIs(x, 2 * u, q, s);
  }

  /** The float is one of the two neighbours of x on the grid of its ulp, and the nearer one. */
  lemma ToFloatOnGrid(x: nat)
    ensures var u := Ulp(x); var r := x % u;
      && (ToFloat(x) == x - r || ToFloat(x) == x - r + u)
      && Distance(ToFloat(x), x) == (if 2 * r <= u then r else u - r)
      && Distance(ToFloat(x), x) <= u / 2
  {
    var u := Ulp(x);
    var q, r := x / u, x % u;
    assert x == q * u + r;
    assert (q + 1) * u == q * u + u;
  }

  lemma ToFloatIsFloat(x: nat)
    ensures Representable(ToFloat(x))
  {
    var k := UlpIsPower(x);
    var q := x / Ulp(x);
    if q + 1 < SIGNIFICAND {
      assert ToFloat(x) == Scaled(q, k) || ToFloat(x) == Scaled(q + 1, k);
    } else {
      var h: nat := SIGNIFICAND / 2;
      assert (q + 1) * Pow2(k) == h * Pow2(k + 1);
      assert ToFloat(x) == Scaled(q, k) || ToFloat(x) == Scaled(h, k + 1);
    }
  }

  /** No float is nearer to x. */
  lemma ToFloatIsNearest(x: nat, y: nat)
    requires Representable(y)
    ensures Distance(ToFloat(x), x) <= Distance(y, x)
  {
    hide ToFloat;
    hide Ulp;
    hide Pow2;
    var k := UlpIsPower(x);
    var u := Ulp(x);
    var q, r := x / u, x % u;
    assert x == q * u + r;
    ToFloatOnGrid(x);
    hide Distance;
    var m: nat, j: nat :| m < SIGNIFICAND && y == Scaled(m, j);
    if j >= k {
      Multiple(m, j, k);
      var n := m * Pow2(j - k);
      GridDistance(x, u, q, r, n);
    } else {
      CoarserIsSmaller(m, j, k);
      CoarserIsFarther(x, u, q, r, y);
    }
  }

  lemma CoarserIsFarther(x: nat, u: nat, q: nat, r: nat, y: nat)
    requires x == q * u + r && q >= SIGNIFICAND / 2 && y < (SIGNIFICAND / 2) * u
    ensures y < x && Distance(y, x) >= r
  {
    AtLeastTimes(q, SIGNIFICAND / 2, u);
  }

  lemma Multiple(m: nat, j: nat, k: nat)
    requires j >= k
    ensures m * Pow2(j) == (m * Pow2(j - k)) * Pow2(k)
  {
    Pow2Sum(j - k, k);
    assert m * (Pow2(j - k) * Pow2(k)) == (m * Pow2(j - k)) * Pow2(k);
  }

  lemma GridDistance(x: nat, u: nat, q: nat, r: nat, n: nat)
    requires u > 0 && r < u && x == q * u + r
    ensures Distance(n * u, x) >= r || Distance(n * u, x) >= u - r
  {
    if n <= q {
      AtLeastTimes(q, n, u);
    } else {
      AtLeastTimes(n, q + 1, u);
      assert (q + 1) * u == q * u + u;
    }
  }

  lemma CoarserIsSmaller(m: nat, j: nat, k: nat)
    requires j < k && m < SIGNIFICAND
    ensures m * Pow2(j) < (SIGNIFICAND / 2) * Pow2(k)
  {
    var p, h := Pow2(j), Pow2(k - 1);
    assert Pow2(k) == 2 * h;
    hide Pow2;
    Pow2Monotone(j, k - 1);
    ProductBelow(p, m, SIGNIFICAND);
    Swapped(p, m);
  }

  lemma Swapped(a: nat, b: nat)
    ensures a * b == b * a
  {
  }

  // ----- Capacities -----

  /** `ceil((float) x / (float) RECV_BUFFER_SIZE) * RECV_BUFFER_SIZE + RECV_BUFFER_SIZE`. Dividing by
      1024 only changes a float's exponent, so the conversion is the one step that rounds. */
  function RequiredCapacity(x: nat): nat {
    (ToFloat(x) + RECV_BUFFER_SIZE - 1) / RECV_BUFFER_SIZE * RECV_BUFFER_SIZE + RECV_BUFFER_SIZE
  }

  lemma UlpUpTo(x: nat)
    requires x < TWO_32
    ensures Ulp(x) <= 256
  {
    UlpBelow(x, 8);
    UlpPowers();
  }

  lemma UlpPowers()
    ensures Pow2(8) == 256 && Pow2(32) == TWO_32
  {
    PowersAgree(1);
    PowersAgree(4);
    Powers();
  }

  lemma {:induction false} UlpBelow(x: nat, k: nat)
    requires x < SIGNIFICAND * Pow2(k)
    ensures Ulp(x) <= Pow2(k)
  {
    if k > 0 && x >= SIGNIFICAND {
      assert SIGNIFICAND * Pow2(k) == 2 * (SIGNIFICAND * Pow2(k - 1));
      UlpBelow(x / 2, k - 1);
    }
  }

  lemma {:induction false} UlpAbove(x: nat, k: nat)
    requires 2 * x >= SIGNIFICAND * Pow2(k)
    ensures Ulp(x) >= Pow2(k)
  {
    if k > 0 {
      assert SIGNIFICAND * Pow2(k) == 2 * (SIGNIFICAND * Pow2(k - 1));
      AtLeastTimes(Pow2(k - 1), 1, SIGNIFICAND);
      UlpAbove(x / 2, k - 1);
    }
  }

  /** Neither the product nor the sum behind the division rounds. */
  lemma NothingElseRounds(x: nat)
    requires x < TWO_32
    ensures Representable(RequiredCapacity(x) - RECV_BUFFER_SIZE) && Representable(RequiredCapacity(x))
  {
    UlpUpTo(x);
    ToFloatOnGrid(x);
    var c := (ToFloat(x) + RECV_BUFFER_SIZE - 1) / RECV_BUFFER_SIZE;
    assert Pow2(10) == RECV_BUFFER_SIZE by {
      PowersAgree(1);
      Powers();
      assert Pow2(10) == 2 * Pow2(9) && Pow2(9) == 2 * Pow2(8);
    }
    assert RequiredCapacity(x) - RECV_BUFFER_SIZE == Scaled(c, 10);
    assert RequiredCapacity(x) == Scaled(c + 1, 10);
  }

  /** Room for at least 896 bytes more than asked for, 1024 where the conversion is exact. */
  lemma CapacityHasRoom(x: nat)
    requires x < TWO_32
    ensures RequiredCapacity(x) % RECV_BUFFER_SIZE == 0
    ensures RequiredCapacity(x) >= x + 896
    ensures x < SIGNIFICAND ==> RequiredCapacity(x) >= x + 1024
  {
    UlpUpTo(x);
    ToFloatOnGrid(x);
    CeilingBounds(ToFloat(x));
  }

  /** The grid divides the unit of capacity, an even number of times. */
  lemma UlpDivides(x: nat) returns (n: nat)
    requires x < TWO_32
    ensures RECV_BUFFER_SIZE == Ulp(x) * n && n % 2 == 0
  {
    hide Pow2;
    hide Ulp;
    var k := UlpIsPower(x);
    UlpUpTo(x);
    SmallPowers();
    if k > 8 {
      Pow2Monotone(9, k);
    }
    n := Pow2(10 - k);
    Pow2Sum(k, 10 - k);
    Pow2Sum(1, 9 - k);
  }

  lemma SmallPowers()
    ensures Pow2(1) == 2 && Pow2(9) == 512 && Pow2(10) == 1024
  {
    UlpPowers();
    assert Pow2(9) == 2 * Pow2(8) && Pow2(10) == 2 * Pow2(9);
  }

  /** Just above an even point of the grid, halfway cases round down to it. */
  lemma RoundNear(x: nat, u: nat, q: nat, r: nat)
    requires u == Ulp(x) && x == q * u + r && r < u && q % 2 == 0
    ensures ToFloat(x) == if 2 * r <= u then q * u else q * u + u
  {
    hide Ulp;
    QuotientIs(x, u, q, r);
    assert (q + 1) * u == q * u + u;
  }

  lemma RoundFar(x: nat, u: nat, q: nat, r: nat)
    requires u == Ulp(x) && x == q * u + r && r >= u
    ensures ToFloat(x) >= q * u + u
  {
    hide Ulp;
    var p := x / u;
    assert x == p * u + x % u;
    ToFloatOnGrid(x);
    hide ToFloat;
    if p <= q {
      AtLeastTimes(q, p, u);
    } else {
      AtLeastTimes(p, q + 1, u);
      assert (q + 1) * u == q * u + u;
    }
  }

  /** What the conversion leads to: the multiple of the unit below, unless the size is above that by
      more than half the distance between floats. */
  lemma RoundsToUnit(x: nat, c: nat, r: nat)
    requires x < TWO_32 && x == c * RECV_BUFFER_SIZE + r
    ensures ToFloat(x) >= x - r && (ToFloat(x) == x - r <==> 2 * r <= Ulp(x))
  {
    var n := UlpDivides(x);
    var u := Ulp(x);
    hide Ulp;
    hide ToFloat;
    Regrouped(c, u, n);
    EvenProduct(c, n);
    if r < u {
      RoundNear(x, u, c * n, r);
    } else {
      RoundFar(x, u, c * n, r);
    }
  }

  lemma Regrouped(c: nat, u: nat, n: nat)
    ensures c * (u * n) == (c * n) * u
  {
  }

  lemma EvenProduct(c: nat, n: nat)
    requires n % 2 == 0
    ensures (c * n) % 2 == 0
  {
    var h := n / 2;
    assert c * n == 2 * (c * h);
  }

  lemma NextPoint(q: nat, s: nat, m: nat, u: nat)
    requires q * u + s < m * u
    ensures q * u + u <= m * u
  {
    if m <= q {
      AtLeastTimes(q, m, u);
    } else {
      AtLeastTimes(m, q + 1, u);
    }
  }

  lemma NextAtMost(x: nat, u: nat, s: nat)
    requires u == Ulp(x) && s == x % u
    ensures ToFloat(x) <= x - s + u
  {
    hide Ulp;
    hide ToFloat;
    ToFloatOnGrid(x);
  }

  lemma RoundBelow(x: nat, u: nat, m: nat)
    requires u == Ulp(x) && x < m * u
    ensures ToFloat(x) <= m * u
  {
    hide Ulp;
    hide ToFloat;
    var q, s := x / u, x % u;
    assert x == q * u + s;
    NextAtMost(x, u, s);
    NextPoint(q, s, m, u);
  }

  lemma RoundsWithinUnit(x: nat, c: nat)
    requires x < TWO_32 && x < (c + 1) * RECV_BUFFER_SIZE
    ensures ToFloat(x) <= (c + 1) * RECV_BUFFER_SIZE
  {
    var n := UlpDivides(x);
    var u := Ulp(x);
    hide Ulp;
    hide ToFloat;
    Regrouped(c + 1, u, n);
    RoundBelow(x, u, (c + 1) * n);
  }

  /** The capacity in integer arithmetic: the next multiple of 1024 above the size, and another 1024
      unless the size rounds down to a multiple or is one. */
  lemma CapacityExactly(x: nat)
    requires x < TWO_32
    ensures RequiredCapacity(x) == x - x % 1024 + 1024 + (if 2 * (x % 1024) > Ulp(x) then 1024 else 0)
  {
    hide ToFloat;
    hide Ulp;
    var c, r := x / RECV_BUFFER_SIZE, x % RECV_BUFFER_SIZE;
    RoundsToUnit(x, c, r);
    RoundsWithinUnit(x, c);
    CeilingWithin(ToFloat(x), c);
  }

  lemma CeilingWithin(y: nat, c: nat)
    requires c * RECV_BUFFER_SIZE <= y <= (c + 1) * RECV_BUFFER_SIZE
    ensures (y + RECV_BUFFER_SIZE - 1) / RECV_BUFFER_SIZE * RECV_BUFFER_SIZE
         == if y == c * RECV_BUFFER_SIZE then y else (c + 1) * RECV_BUFFER_SIZE
  {
  }

  /** The capacity is never more than 2176 above the size, nor 2048 where the conversion is exact. */
  lemma CapacityIsTight(x: nat)
    requires x < TWO_32
    ensures RequiredCapacity(x) < x + 2176
    ensures x < 0x100_0000 ==> RequiredCapacity(x) < x + 2048
  {
    UlpUpTo(x);
    ToFloatOnGrid(x);
    CeilingBounds(ToFloat(x));
  }

  /** There is room for a full unit exactly if the size is a multiple of the unit, or does not round
      down to one. */
  lemma RoomExactly(x: nat)
    requires x < TWO_32
    ensures RequiredCapacity(x) >= x + RECV_BUFFER_SIZE
       <==> x % RECV_BUFFER_SIZE == 0 || 2 * (x % RECV_BUFFER_SIZE) > Ulp(x)
  {
    hide ToFloat;
    hide Ulp;
    var c, r := x / RECV_BUFFER_SIZE, x % RECV_BUFFER_SIZE;
    RoundsToUnit(x, c, r);
    var y := ToFloat(x);
    CeilingAbove(y, c);
    assert r == 0 ==> 2 * r <= Ulp(x);
  }

  /** Rounding up to the unit keeps multiples of it and lifts what is above them. */
  lemma CeilingAbove(y: nat, c: nat)
    requires y >= c * RECV_BUFFER_SIZE
    ensures var ceiling := (y + RECV_BUFFER_SIZE - 1) / RECV_BUFFER_SIZE * RECV_BUFFER_SIZE;
      if y == c * RECV_BUFFER_SIZE then ceiling == y else ceiling >= (c + 1) * RECV_BUFFER_SIZE
  {
  }

  /** A size with 1023 bytes of room, and one with the least room there is. */
  lemma RoomIsLess()
    ensures RequiredCapacity(0x100_0001) == 0x100_0001 + 1023
    ensures RequiredCapacity(0x8000_0080) == 0x8000_0080 + 896
  {
    hide Ulp;
    UlpPowers();
    SmallPowers();
    UlpUpTo(0x8000_0080);
    UlpAbove(0x8000_0080, 8);
    UlpBelow(0x100_0001, 1);
    UlpAbove(0x100_0001, 1);
  }

  lemma CeilingBounds(y: nat)
    ensures var c := (y + RECV_BUFFER_SIZE - 1) / RECV_BUFFER_SIZE * RECV_BUFFER_SIZE;
      c % RECV_BUFFER_SIZE == 0 && y <= c < y + RECV_BUFFER_SIZE
  {
  }

  /** The capacity is a 32-bit number exactly up to the largest request. */
  lemma CapacityFits(x: nat)
    requires x < TWO_32
    ensures RequiredCapacity(x) < TWO_32 <==> x <= LARGEST_REQUEST
  {
    UlpUpTo(x);
    ToFloatOnGrid(x);
    CeilingBounds(ToFloat(x));
    if x >= TWO_32 - 4096 {
      UlpNearTop(x);
    }
  }

  lemma UlpNearTop(x: nat)
    requires TWO_32 - 4096 <= x < TWO_32
    ensures Ulp(x) == 256
  {
    UlpPowers();
    UlpUpTo(x);
    UlpAbove(x, 8);
  }
}
