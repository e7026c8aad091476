/** Bitwise `|` and `^` on non-negative numbers, and the algebra the packet code needs of them. */
module Bits {
  import opened Bytes

  function BitOr(a: nat, b: nat): nat
    decreases a + b
  {
    if a == 0 then b
    else if b == 0 then a
    else 2 * BitOr(a / 2, b / 2) + (if a % 2 == 1 || b % 2 == 1 then 1 else 0)
  }

  function BitXor(a: nat, b: nat): nat
    decreases a + b
  {
    if a == 0 then b
    else if b == 0 then a
    else 2 * BitXor(a / 2, b / 2) + (if a % 2 != b % 2 then 1 else 0)
  }

  lemma OrZero(a: nat)
    ensures BitOr(a, 0) == a
  {
  }

  /** Or-ing in bits above everything set so far is an addition. */
  lemma {:induction false} OrDisjoint(a: nat, k: nat, m: nat)
    requires a < Pow2(k)
    ensures BitOr(a, Pow2(k) * m) == a + Pow2(k) * m
  {
    if k > 0 && m > 0 && a > 0 {
      assert Pow2(k) * m == 2 * (Pow2(k - 1) * m);
      OrDisjoint(a / 2, k - 1, m);
    }
  }

  lemma {:induction false} OrBound(a: nat, b: nat, k: nat)
    requires a < Pow2(k) && b < Pow2(k)
    ensures BitOr(a, b) < Pow2(k)
  {
    if k > 0 && a > 0 && b > 0 {
      OrBound(a / 2, b / 2, k - 1);
    }
  }

  lemma XorHalves(a: nat, b: nat)
    ensures BitXor(a, b) / 2 == BitXor(a / 2, b / 2)
    ensures BitXor(a, b) % 2 == if a % 2 != b % 2 then 1 else 0
  {
  }

  lemma {:induction false} XorBound(a: nat, b: nat, k: nat)
    requires a < Pow2(k) && b < Pow2(k)
    ensures BitXor(a, b) < Pow2(k)
  {
    if k > 0 && a > 0 && b > 0 {
      XorBound(a / 2, b / 2, k - 1);
    }
  }

  lemma {:induction false} XorCommutes(a: nat, b: nat)
    ensures BitXor(a, b) == BitXor(b, a)
    decreases a + b
  {
    if a > 0 && b > 0 {
      XorCommutes(a / 2, b / 2);
    }
  }

  lemma {:induction false} XorAssociates(a: nat, b: nat, c: nat)
    ensures BitXor(BitXor(a, b), c) == BitXor(a, BitXor(b, c))
    decreases a + b + c
  {
    if a > 0 && b > 0 && c > 0 {
      XorAssociates(a / 2, b / 2, c / 2);
      XorHalves(a, b);
      XorHalves(b, c);
      XorHalves(BitXor(a, b), c);
      XorHalves(a, BitXor(b, c));
    }
  }

  lemma {:induction false} XorSelf(a: nat)
    ensures BitXor(a, a) == 0
  {
    if a > 0 {
      XorSelf(a / 2);
    }
  }

  lemma XorCancels(a: nat, b: nat)
    ensures BitXor(BitXor(a, b), b) == a
    ensures BitXor(a, b) == 0 ==> a == b
  {
    XorAssociates(a, b, b);
    XorSelf(b);
  }

  lemma XorZero(u: nat, v: nat)
    requires u == 0 && v == 0
    ensures BitXor(u, v) == 0
  {
  }

  lemma XorStep(x: nat, y: nat, c: nat, d: nat)
    requires c < 2 && d < 2
    ensures BitXor(2 * x + c, 2 * y + d) == 2 * BitXor(x, y) + (if c != d then 1 else 0)
  {
    hide BitXor;
    XorHalves(2 * x + c, 2 * y + d);
  }

  lemma Regroup(whole: nat, h: nat, p: nat, u: nat, high: nat) returns (n: nat)
    requires whole == 2 * h && high == h * p
    ensures n == whole * p + u == 2 * (high + u / 2) + u % 2
  {
    n := whole * p + u;
    assert whole * p == 2 * (h * p);
  }

  lemma XorSplitStep(hp: nat, u: nat, hq: nat, v: nat, hx: nat, a: nat, b: nat, c: nat)
    requires a == 2 * (hp + u / 2) + u % 2 && b == 2 * (hq + v / 2) + v % 2
    requires BitXor(hp + u / 2, hq + v / 2) == hx + BitXor(u / 2, v / 2)
    requires c == 2 * (hx + BitXor(u, v) / 2) + BitXor(u, v) % 2
    ensures BitXor(a, b) == c
  {
    hide BitXor;
    XorStep(hp + u / 2, hq + v / 2, u % 2, v % 2);
    XorHalves(u, v);
  }

  /** Sums distribute over a cut between high and low bits. */
  lemma {:induction false} XorSplit(p: nat, u: nat, q: nat, v: nat, k: nat)
    requires u < Pow2(k) && v < Pow2(k)
    ensures BitXor(Pow2(k) * p + u, Pow2(k) * q + v) == Pow2(k) * BitXor(p, q) + BitXor(u, v)
    decreases k
  {
    hide BitXor;
    if k == 0 {
      XorZero(u, v);
    } else {
      var h := Pow2(k - 1);
      var hp, hq, hx := h * p, h * q, h * BitXor(p, q);
      XorSplit(p, u / 2, q, v / 2, k - 1);
      var a := Regroup(Pow2(k), h, p, u, hp);
      var b := Regroup(Pow2(k), h, q, v, hq);
      var c := Regroup(Pow2(k), h, BitXor(p, q), BitXor(u, v), hx);
      XorSplitStep(hp, u, hq, v, hx, a, b, c);
    }
  }

  /** Four sums regrouped. */
  lemma XorExchange(a: nat, b: nat, c: nat, d: nat)
    ensures BitXor(BitXor(a, b), BitXor(c, d)) == BitXor(BitXor(a, c), BitXor(b, d))
  {
    XorAssociates(a, b, BitXor(c, d));
    XorAssociates(b, c, d);
    XorCommutes(b, c);
    XorAssociates(c, b, d);
    XorAssociates(a, c, BitXor(b, d));
  }
}
