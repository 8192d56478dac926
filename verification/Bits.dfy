/** Bitwise operations on unsigned words, as numbers. */
module Bits {
  function Pow2(k: nat): nat {
    if k == 0 then 1 else 2 * Pow2(k - 1)
  }

  function Or(a: nat, b: nat): nat {
    if a == 0 && b == 0 then 0 else 2 * Or(a / 2, b / 2) + (if a % 2 == 1 || b % 2 == 1 then 1 else 0)
  }

  function And(a: nat, b: nat): nat {
    if a == 0 || b == 0 then 0 else 2 * And(a / 2, b / 2) + (if a % 2 == 1 && b % 2 == 1 then 1 else 0)
  }

  function Xor(a: nat, b: nat): nat {
    if a == 0 && b == 0 then 0 else 2 * Xor(a / 2, b / 2) + (if a % 2 != b % 2 then 1 else 0)
  }

  function Shr(v: nat, s: nat): (r: nat)
    ensures r <= v
  {
    if s == 0 then v else Shr(v / 2, s - 1)
  }

  lemma Pow2Base()
    ensures Pow2(0) == 1 && Pow2(1) == 2
  {
  }

  lemma Pow2Step(k: nat)
    requires k > 0
    ensures Pow2(k) == 2 * Pow2(k - 1)
  {
  }

  lemma {:induction false} Pow2Positive(k: nat)
    ensures Pow2(k) >= 1
  {
    if k > 0 {
      Pow2Positive(k - 1);
    }
  }

  lemma ProductDoubles(twice: nat, x: nat, y: nat)
    requires twice == 2 * x
    ensures twice * y == 2 * (x * y)
  {
  }

  lemma {:induction false} Pow2Add(a: nat, b: nat)
    ensures Pow2(a + b) == Pow2(a) * Pow2(b)
  {
    if a > 0 {
      hide Pow2;
      Pow2Add(a - 1, b);
      Pow2Step(a);
      Pow2Step(a + b);
      ProductDoubles(Pow2(a), Pow2(a - 1), Pow2(b));
    }
  }

  lemma {:induction false} Pow2Grows(a: nat, b: nat)
    requires a <= b
    ensures Pow2(a) <= Pow2(b)
    ensures a < b ==> 2 * Pow2(a) <= Pow2(b)
    decreases b
  {
    Pow2Positive(b);
    if a < b {
      Pow2Grows(a, b - 1);
    }
  }

  lemma WordSize()
    ensures Pow2(64) == 0x1_0000_0000_0000_0000 && Pow2(63) == 0x8000_0000_0000_0000
  {
    hide Pow2;
    Pow2Base();
    Pow2Step(64);
    Pow2Add(1, 1);
    Pow2Add(2, 2);
    Pow2Add(4, 4);
    Pow2Add(8, 8);
    Pow2Add(16, 16);
    Pow2Add(32, 32);
  }

  lemma {:induction false} ShrFits(v: nat, k: nat, s: nat)
    requires v < Pow2(k) && s <= k
    ensures Shr(v, s) < Pow2(k - s)
  {
    if s > 0 {
      ShrFits(v / 2, k - 1, s - 1);
    }
  }

  lemma {:induction false} ShrMisses(v: nat, k: nat, s: nat, g: nat)
    requires s <= k && Pow2(k) <= v + g * Pow2(s)
    ensures Pow2(k - s) <= Shr(v, s) + g
  {
    hide Pow2;
    if s == 0 {
      Pow2Base();
      assert g * Pow2(0) == g;
    } else {
      Pow2Step(k);
      Pow2Step(s);
      ProductDoubles(Pow2(s), Pow2(s - 1), g);
      HalfMisses(v, Pow2(k - 1), g * Pow2(s - 1));
      ShrMisses(v / 2, k - 1, s - 1, g);
    }
  }

  lemma HalfMisses(v: nat, p: nat, x: nat)
    requires 2 * p <= v + 2 * x
    ensures p <= v / 2 + x
  {
  }

  /** Or covers both operands and stays within their width. */
  lemma {:induction false} OrBounds(a: nat, b: nat, k: nat)
    requires a < Pow2(k) && b < Pow2(k)
    ensures a <= Or(a, b) && b <= Or(a, b) && Or(a, b) < Pow2(k)
    decreases k
  {
    if k > 0 {
      OrBounds(a / 2, b / 2, k - 1);
    }
  }

  lemma {:induction false} OrZero(a: nat)
    ensures Or(a, 0) == a
  {
    if a > 0 {
      OrZero(a / 2);
    }
  }

  /** Or leaves the bits above the second operand alone. */
  lemma {:induction false} OrHigh(h: nat, l: nat, b: nat, j: nat)
    requires l < Pow2(j) && b < Pow2(j)
    ensures Or(h * Pow2(j) + l, b) == h * Pow2(j) + Or(l, b)
  {
    if j == 0 {
      OrZero(h);
    } else {
      var q := h * Pow2(j - 1);
      ProductDoubles(Pow2(j), Pow2(j - 1), h);
      var x := 2 * q + l;
      assert x / 2 == q + l / 2 && x % 2 == l % 2;
      OrHigh(h, l / 2, b / 2, j - 1);
    }
  }

  /** Masking with 2^k - 1 is the remainder modulo 2^k. */
  lemma {:induction false} MaskIsModulo(x: nat, k: nat)
    ensures Pow2(k) > 0 && And(x, Pow2(k) - 1) == x % Pow2(k)
  {
    hide And;
    if k == 0 {
      AndZero(x);
    } else {
      MaskIsModulo(x / 2, k - 1);
      var p := Pow2(k - 1);
      AndOdd(x, p - 1);
      ModuloByHalves(x, p);
    }
  }

  lemma AndZero(x: nat)
    ensures And(x, 0) == 0
  {
  }

  lemma AndOdd(x: nat, m: nat)
    ensures And(x, 2 * m + 1) == 2 * And(x / 2, m) + x % 2
  {
    var w := 2 * m + 1;
    assert w / 2 == m && w % 2 == 1;
  }

  lemma ModuloByHalves(x: nat, p: nat)
    requires p > 0
    ensures x % (2 * p) == 2 * (x / 2 % p) + x % 2
  {
    var q, r := x / 2 / p, x / 2 % p;
    assert x == 2 * (q * p + r) + x % 2;
    DivModUnique(x, 2 * p, q, 2 * r + x % 2);
  }

  lemma SmallMultiple(k: int, d: int, m: int)
    requires m == k * d && -d < m < d
    ensures k == 0
  {
  }

  lemma DivModUnique(x: nat, d: nat, q: nat, r: nat)
    requires d > 0 && r < d && x == q * d + r
    ensures x / d == q && x % d == r
  {
    var q', r' := x / d, x % d;
    assert x == q' * d + r';
    assert (q' - q) * d == r - r';
    SmallMultiple(q' - q, d, r - r');
  }

  /** The slot of a ring of `c` slots that position `x` falls on. */
  function Slot(x: nat, c: nat): (r: nat)
    requires c > 0
    ensures r < c
  {
    x % c
  }

  lemma SlotZero(c: nat)
    requires c > 0
    ensures Slot(0, c) == 0
  {
  }

  lemma SlotAfter(x: nat, c: nat)
    requires c > 0
    ensures Slot(Slot(x, c) + 1, c) == Slot(x + 1, c)
  {
    var q, r := x / c, x % c;
    assert x == q * c + r;
    if r + 1 < c {
      DivModUnique(x + 1, c, q, r + 1);
      DivModUnique(r + 1, c, 0, r + 1);
    } else {
      DivModUnique(x + 1, c, q + 1, 0);
      DivModUnique(r + 1, c, 1, 0);
    }
  }

  lemma SlotWraps(x: nat, c: nat)
    requires c > 0
    ensures Slot(x + c, c) == Slot(x, c)
  {
    DivModUnique(x + c, c, x / c + 1, x % c);
  }

  /** Fewer than `c` consecutive positions fall on distinct slots. */
  lemma SlotsDistinct(a: nat, b: nat, c: nat)
    requires a < b < a + c
    ensures Slot(a, c) != Slot(b, c)
  {
    if a % c == b % c {
      var qa, qb := a / c, b / c;
      assert a == qa * c + a % c && b == qb * c + b % c;
      assert (qb - qa) * c == b - a;
      SmallMultiple(qb - qa, c, b - a);
      assert false;
    }
  }

  lemma SlotsSpread(x: nat, n: nat, c: nat)
    requires n < c
    ensures forall i | x <= i < x + n :: Slot(i, c) != Slot(x + n, c)
  {
    forall i | x <= i < x + n ensures Slot(i, c) != Slot(x + n, c) {
      SlotsDistinct(i, x + n, c);
    }
  }

  lemma MaskIsSlot(x: nat, k: nat)
    ensures Pow2(k) > 0 && And(x, Pow2(k) - 1) == Slot(x, Pow2(k))
  {
    MaskIsModulo(x, k);
  }

  // --- Exclusive or and shifts -----------------------------------------------------------------

  lemma XorStep(a: nat, b: nat)
    ensures Xor(a, b) / 2 == Xor(a / 2, b / 2) && Xor(a, b) % 2 == (if a % 2 != b % 2 then 1 else 0)
  {
  }

  lemma {:induction false} XorTwice(a: nat, b: nat)
    ensures Xor(Xor(a, b), b) == a
    decreases a + b
  {
    if a > 0 || b > 0 {
      XorTwice(a / 2, b / 2);
      XorStep(a, b);
      XorStep(Xor(a, b), b);
    }
  }

  lemma {:induction false} XorFits(a: nat, b: nat, k: nat)
    requires a < Pow2(k) && b < Pow2(k)
    ensures Xor(a, b) < Pow2(k)
    decreases k
  {
    if k > 0 {
      XorFits(a / 2, b / 2, k - 1);
    }
  }

  lemma XorZero(a: nat)
    ensures Xor(a, 0) == a
  {
    XorTwice(a, 0);
    if a > 0 {
      XorZero(a / 2);
    }
  }

  lemma {:induction false} ShrXor(a: nat, b: nat, s: nat)
    ensures Shr(Xor(a, b), s) == Xor(Shr(a, s), Shr(b, s))
    decreases s
  {
    if s > 0 {
      XorStep(a, b);
      ShrXor(a / 2, b / 2, s - 1);
    }
  }

  /** A word of `k` bits shifted by `k` or more is gone, also in two steps. */
  lemma {:induction false} ShrGone(v: nat, k: nat, s: nat, t: nat)
    requires v < Pow2(k) && k <= s + t
    ensures Shr(Shr(v, s), t) == 0
    decreases s + t
  {
    if k == 0 {
      ShrZero(s);
      ShrZero(t);
    } else if s > 0 {
      ShrGone(v / 2, k - 1, s - 1, t);
    } else {
      ShrGone(v / 2, k - 1, 0, t - 1);
    }
  }

  lemma {:induction false} ShrZero(s: nat)
    ensures Shr(0, s) == 0
  {
    if s > 0 {
      ShrZero(s - 1);
    }
  }

  /** Or-ing a word exclusively with itself shifted by at least half its width is undone by doing it again. */
  lemma FoldTwice(v: nat, k: nat, s: nat)
    requires v < Pow2(k) && k <= 2 * s
    ensures var w := Xor(v, Shr(v, s)); w < Pow2(k) && Xor(w, Shr(w, s)) == v
  {
    hide Xor, Shr, Pow2;
    var u := Shr(v, s);
    var w := Xor(v, u);
    XorFits(v, u, k);
    ShrXor(v, u, s);
    ShrGone(v, k, s, s);
    XorZero(u);
    XorTwice(v, u);
  }

  /** Multiplying by a number and then by its inverse, modulo `m`, gives the number back. */
  lemma InverseModulo(x: nat, c: nat, d: nat, k: nat, m: nat)
    requires x < m && c * d == k * m + 1
    ensures x * c % m * d % m == x
  {
    var q, r := x * c / m, x * c % m;
    assert x * c == q * m + r;
    var z := x * k - q * d;
    InverseSum(x, c, d, k, m, q, r);
    assert r * d == z * m + x;
    if z < 0 {
      NegativeMultiple(z, m, x);
      assert false;
    }
    DivModUnique(r * d, m, z, x);
  }

  lemma InverseSum(x: int, c: int, d: int, k: int, m: int, q: int, r: int)
    requires c * d == k * m + 1 && x * c == q * m + r
    ensures r * d == (x * k - q * d) * m + x
  {
    calc {
      r * d;
      (x * c - q * m) * d;
      x * (c * d) - q * d * m;
      x * (k * m + 1) - q * d * m;
      (x * k - q * d) * m + x;
    }
  }

  lemma NegativeMultiple(z: int, m: nat, x: nat)
    requires z < 0 && x < m
    ensures z * m + x < 0
  {
    assert z * m <= -1 * m;
  }
}
