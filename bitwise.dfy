/**
 * Python's integer bit operators as the memory test uses them: `x >> k` on
 * any integer (the range checks), and `&`, `|`, `& ~m` on the non-negative
 * integers that make up addresses and bytes. Each operator is defined
 * recursively on the binary digits, and the lemmas below say what it does to
 * every bit lane.
 */
module Bitwise {

  /** `1 << k` */
  function Pow2(k: nat): (p: nat)
    ensures p >= 1
  {
    if k == 0 then 1 else 2 * Pow2(k - 1)
  }

  /** The powers the memory test uses: byte and address widths. */
  lemma Pow2Widths()
    ensures Pow2(8) == 256 && Pow2(16) == 65536
  {
    assert Pow2(4) == 16;
    assert Pow2(8) == 16 * Pow2(4) by { assert Pow2(8) == 2 * Pow2(7) == 4 * Pow2(6) == 8 * Pow2(5) == 16 * Pow2(4); }
    assert Pow2(16) == 256 * Pow2(8) by {
      assert Pow2(16) == 2 * Pow2(15) == 4 * Pow2(14) == 8 * Pow2(13) == 16 * Pow2(12);
      assert Pow2(12) == 2 * Pow2(11) == 4 * Pow2(10) == 8 * Pow2(9) == 16 * Pow2(8);
    }
  }

  /** Powers of two grow with the exponent. */
  lemma {:induction false} Pow2Below(i: nat, w: nat)
    requires i < w
    ensures Pow2(i) < Pow2(w)
  {
    if i < w - 1 {
      Pow2Below(i, w - 1);
    }
  }

  /** Python's `x >> k`: floor division by 2^k, for negative `x` as well. */
  function Shr(x: int, k: nat): int
    decreases k
  {
    if k == 0 then x else Shr(x / 2, k - 1)
  }

  /** Python's `x & y` on non-negative integers. */
  function And(x: nat, y: nat): nat
  {
    if x == 0 || y == 0 then 0
    else 2 * And(x / 2, y / 2) + (if x % 2 == 1 && y % 2 == 1 then 1 else 0)
  }

  /** Python's `x | y` on non-negative integers. */
  function Or(x: nat, y: nat): nat
    decreases x + y
  {
    if x == 0 then y
    else if y == 0 then x
    else 2 * Or(x / 2, y / 2) + (if x % 2 == 1 || y % 2 == 1 then 1 else 0)
  }

  /** Python's `x & ~m` on non-negative integers: `x` with the lanes of `m` cleared. */
  function AndNot(x: nat, m: nat): nat
  {
    if x == 0 then 0
    else if m == 0 then x
    else 2 * AndNot(x / 2, m / 2) + (if x % 2 == 1 && m % 2 == 0 then 1 else 0)
  }

  /** Lane `i` of `v`, written `(v >> i) & 1` in the source. */
  function Bit(v: nat, i: nat): (b: nat)
    ensures b == 0 || b == 1
  {
    ShrOfNat(v, i);
    assert And(Shr(v, i), 1) == Shr(v, i) % 2 by {
      if Shr(v, i) != 0 { assert And(Shr(v, i) / 2, 0) == 0; }
    }
    And(Shr(v, i), 1)
  }

  predicate IsByte(v: int)
  {
    0 <= v < 256
  }

  // ---------------------------------------------------------------------
  // Shifts

  /** `x >> k` is zero exactly when `x` fits in `k` bits: the source's range checks. */
  lemma {:induction false} ShrIsZero(x: int, k: nat)
    ensures Shr(x, k) == 0 <==> 0 <= x < Pow2(k)
    decreases k
  {
    if k > 0 {
      ShrIsZero(x / 2, k - 1);
    }
  }

  lemma {:induction false} ShrOfNat(x: int, k: nat)
    requires x >= 0
    ensures 0 <= Shr(x, k) <= x
  {
    if k > 0 {
      ShrOfNat(x / 2, k - 1);
    }
  }

  /** Shifting a value of `w` bits right by `k` leaves a value of `w - k` bits. */
  lemma {:induction false} ShrBound(x: int, k: nat, w: nat)
    requires k <= w && 0 <= x < Pow2(w)
    ensures 0 <= Shr(x, k) < Pow2(w - k)
  {
    if k > 0 {
      ShrBound(x / 2, k - 1, w - 1);
    }
  }

  // ---------------------------------------------------------------------
  // Masks

  /** `x & (2^w - 1)` keeps the low `w` bits: together with `x >> w` it rebuilds `x`. */
  lemma {:induction false} LowMaskSplit(x: nat, w: nat)
    ensures And(x, Pow2(w) - 1) + Pow2(w) * Shr(x, w) == x
  {
    if w == 0 {
      assert And(x, 0) == 0;
    } else if x == 0 {
      ShrIsZero(0, w);
    } else {
      var m, p := Pow2(w) - 1, Pow2(w - 1);
      assert Pow2(w) == 2 * p;
      assert m / 2 == p - 1 && m % 2 == 1;
      var a, s := And(x / 2, p - 1), Shr(x / 2, w - 1);
      assert And(x, m) == 2 * a + x % 2;
      assert Shr(x, w) == s;
      LowMaskSplit(x / 2, w - 1);
      Twice(p, s);
    }
  }

  lemma Twice(p: int, s: int)
    ensures (2 * p) * s == 2 * (p * s)
  {
  }

  /** `x & y` never exceeds `y`. */
  lemma {:induction false} AndBound(x: nat, y: nat)
    ensures And(x, y) <= y
  {
    if x != 0 && y != 0 {
      AndBound(x / 2, y / 2);
    }
  }

  /** A value of `w` bits is left alone by the mask `2^w - 1`. */
  lemma LowMaskKeeps(x: nat, w: nat)
    requires x < Pow2(w)
    ensures And(x, Pow2(w) - 1) == x
  {
    LowMaskSplit(x, w);
    ShrIsZero(x, w);
  }

  // ---------------------------------------------------------------------
  // Lanes

  lemma BitZero(v: nat)
    ensures Bit(v, 0) == v % 2
  {
    if v != 0 { assert And(v / 2, 0) == 0; }
  }

  lemma BitSucc(v: nat, i: nat)
    ensures Bit(v, i + 1) == Bit(v / 2, i)
  {
    assert Shr(v, i + 1) == Shr(v / 2, i);
  }

  lemma {:induction false} BitOfZero(i: nat)
    ensures Bit(0, i) == 0
  {
    ShrIsZero(0, i);
  }

  /** Lane `i` of `2^l` is set exactly when `i == l`. */
  lemma {:induction false} BitOfPow2(l: nat, i: nat)
    ensures Bit(Pow2(l), i) == if i == l then 1 else 0
  {
    if i == 0 {
      BitZero(Pow2(l));
    } else if l == 0 {
      BitSucc(1, i - 1);
      BitOfZero(i - 1);
    } else {
      BitSucc(Pow2(l), i - 1);
      BitOfPow2(l - 1, i - 1);
    }
  }

  /** Every lane of `x | y` is the disjunction of the two lanes. */
  lemma {:induction false} BitOfOr(x: nat, y: nat, i: nat)
    ensures Bit(Or(x, y), i) == if Bit(x, i) == 1 || Bit(y, i) == 1 then 1 else 0
    decreases i
  {
    if x == 0 {
      BitOfZero(i);
    } else if y == 0 {
      BitOfZero(i);
    } else if i == 0 {
      BitZero(Or(x, y)); BitZero(x); BitZero(y);
    } else {
      BitSucc(Or(x, y), i - 1); BitSucc(x, i - 1); BitSucc(y, i - 1);
      BitOfOr(x / 2, y / 2, i - 1);
    }
  }

  /** Every lane of `x & ~m` is lane of `x` unless `m` has it set. */
  lemma {:induction false} BitOfAndNot(x: nat, m: nat, i: nat)
    ensures Bit(AndNot(x, m), i) == if Bit(x, i) == 1 && Bit(m, i) == 0 then 1 else 0
    decreases i
  {
    if x == 0 {
      BitOfZero(i);
    } else if m == 0 {
      BitOfZero(i);
    } else if i == 0 {
      BitZero(AndNot(x, m)); BitZero(x); BitZero(m);
    } else {
      BitSucc(AndNot(x, m), i - 1); BitSucc(x, i - 1); BitSucc(m, i - 1);
      BitOfAndNot(x / 2, m / 2, i - 1);
    }
  }

  /** `x | y` of two `w`-bit values has `w` bits. */
  lemma {:induction false} OrBound(x: nat, y: nat, w: nat)
    requires x < Pow2(w) && y < Pow2(w)
    ensures Or(x, y) < Pow2(w)
    decreases x + y
  {
    if x != 0 && y != 0 {
      OrBound(x / 2, y / 2, w - 1);
    }
  }

  /** `x & ~m` never exceeds `x`. */
  lemma {:induction false} AndNotBound(x: nat, m: nat)
    ensures AndNot(x, m) <= x
  {
    if x != 0 && m != 0 {
      AndNotBound(x / 2, m / 2);
    }
  }

  /** Two `w`-bit values that agree on every lane below `w` are equal. */
  lemma {:induction false} BitsDetermine(u: nat, v: nat, w: nat)
    requires u < Pow2(w) && v < Pow2(w)
    requires forall j :: 0 <= j < w ==> Bit(u, j) == Bit(v, j)
    ensures u == v
  {
    if w > 0 {
      assert Bit(u, 0) == Bit(v, 0);
      BitZero(u); BitZero(v);
      forall j | 0 <= j < w - 1
        ensures Bit(u / 2, j) == Bit(v / 2, j)
      {
        assert Bit(u, j + 1) == Bit(v, j + 1);
        BitSucc(u, j); BitSucc(v, j);
      }
      BitsDetermine(u / 2, v / 2, w - 1);
    }
  }

  /** A byte with every lane set is 0xFF. */
  lemma AllLanesSet(v: nat)
    requires v < 256
    requires forall j :: 0 <= j < 8 ==> Bit(v, j) == 1
    ensures v == 0xFF
  {
    forall j | 0 <= j < 8
      ensures Bit(0xFF, j) == 1
    {
      OnesBit(8, j);
    }
    BitsDetermine(v, 0xFF, 8);
  }

  /** A byte with every lane clear is 0x00. */
  lemma AllLanesClear(v: nat)
    requires v < 256
    requires forall j :: 0 <= j < 8 ==> Bit(v, j) == 0
    ensures v == 0
  {
    forall j | 0 <= j < 8
      ensures Bit(0, j) == 0
    {
      BitOfZero(j);
    }
    BitsDetermine(v, 0, 8);
  }

  lemma {:induction false} OnesBit(w: nat, j: nat)
    requires j < w
    ensures Bit(Pow2(w) - 1, j) == 1
  {
    var m := Pow2(w) - 1;
    if j == 0 {
      BitZero(m);
    } else {
      BitSucc(m, j - 1);
      assert m / 2 == Pow2(w - 1) - 1;
      OnesBit(w - 1, j - 1);
    }
  }
}
