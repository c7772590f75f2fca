/** Natural numbers bit by bit: or, and, shift, powers of two. */
module Bits {

  function Pow2(k: nat): (p: nat)
    ensures p >= 1
  {
    if k == 0 then 1 else 2 * Pow2(k - 1)
  }

  // ----- Bits of a natural number -----

  predicate Bit(x: nat, j: nat) {
    if j == 0 then x % 2 == 1 else Bit(x / 2, j - 1)
  }

  /** x | y */
  function Or(x: nat, y: nat): nat
    decreases x + y
  {
    if x == 0 && y == 0 then 0
    else 2 * Or(x / 2, y / 2) + (if x % 2 == 1 || y % 2 == 1 then 1 else 0)
  }

  /** x >> i */
  function Shr(x: nat, i: nat): nat {
    if i == 0 then x else Shr(x / 2, i - 1)
  }

  /** x << i, with `fill` shifted in. */
  function Shl(x: nat, i: nat, fill: nat): nat
    requires fill < 2
  {
    if i == 0 then x else 2 * Shl(x, i - 1, fill) + fill
  }

  /** The `i` lowest bits. */
  function Low(x: nat, i: nat): nat {
    if i == 0 then 0 else 2 * Low(x / 2, i - 1) + x % 2
  }

  lemma {:induction false} ShiftsDivide(x: nat, i: nat)
    ensures Shr(x, i) == x / Pow2(i) && Low(x, i) == x % Pow2(i)
  {
    if i > 0 {
      ShiftsDivide(x / 2, i - 1);
      Halved(x, Pow2(i - 1));
    }
  }

  lemma {:induction false} ShiftMultiplies(x: nat, i: nat)
    ensures Shl(x, i, 0) == x * Pow2(i)
  {
    if i > 0 {
      ShiftMultiplies(x, i - 1);
      Regroup(x, Pow2(i - 1), 0);
    }
  }

  lemma {:induction false} OnesShiftedIn(i: nat)
    ensures Shl(0, i, 1) == Pow2(i) - 1
  {
    if i > 0 {
      OnesShiftedIn(i - 1);
    }
  }

  lemma OrHalves(x: nat, y: nat)
    ensures Or(x, y) / 2 == Or(x / 2, y / 2)
    ensures Or(x, y) % 2 == 1 <==> x % 2 == 1 || y % 2 == 1
  {
    if x == 0 && y == 0 {
    } else {
      var r := Or(x / 2, y / 2);
      assert Or(x, y) == 2 * r + (if x % 2 == 1 || y % 2 == 1 then 1 else 0);
    }
  }

  lemma {:induction false} OrBit(x: nat, y: nat, j: nat)
    ensures Bit(Or(x, y), j) <==> Bit(x, j) || Bit(y, j)
    decreases j
  {
    OrHalves(x, y);
    if j > 0 {
      OrBit(x / 2, y / 2, j - 1);
    }
  }

  lemma {:induction false} OrZero(y: nat)
    ensures Or(0, y) == y
  {
    if y > 0 {
      OrZero(y / 2);
    }
  }

  lemma {:induction false} OrCommutes(x: nat, y: nat)
    ensures Or(x, y) == Or(y, x)
    decreases x + y
  {
    if x > 0 || y > 0 {
      OrCommutes(x / 2, y / 2);
    }
  }

  lemma {:induction false} ShrBit(x: nat, i: nat, j: nat)
    ensures Bit(Shr(x, i), j) <==> Bit(x, i + j)
    decreases i
  {
    if i > 0 {
      ShrBit(x / 2, i - 1, j);
    }
  }

  /** The highest bit set is bit `k - 1`. */
  lemma {:induction false} TopBit(x: nat) returns (k: nat)
    ensures x < Pow2(k) && (x > 0 ==> k > 0 && Pow2(k - 1) <= x && Bit(x, k - 1)) && (x == 0 ==> k == 0)
    ensures forall j: nat :: j >= k ==> !Bit(x, j)
  {
    if x == 0 {
      k := 0;
      NoBits();
    } else {
      k := TopBit(x / 2);
      k := k + 1;
      forall j | j >= k
        ensures !Bit(x, j)
      {
        assert !Bit(x / 2, j - 1);
      }
    }
  }

  lemma NoBits()
    ensures forall j: nat :: !Bit(0, j)
  {
    forall j: nat
      ensures !Bit(0, j)
    {
      NoBit(j);
    }
  }

  lemma {:induction false} NoBit(j: nat)
    ensures !Bit(0, j)
  {
    if j > 0 {
      NoBit(j - 1);
    }
  }

  lemma {:induction false} AllOnes(x: nat, k: nat)
    requires forall j: nat :: Bit(x, j) <==> j < k
    ensures x == Pow2(k) - 1
    decreases k
  {
    assert Bit(x, 0) <==> 0 < k;
    if k == 0 {
      var t := TopBit(x);
    } else {
      forall j: nat
        ensures Bit(x / 2, j) <==> j < k - 1
      {
        assert Bit(x, j + 1) <==> j + 1 < k;
      }
      AllOnes(x / 2, k - 1);
    }
  }

  // ----- Masks -----

  /** x & y */
  function And(x: nat, y: nat): (r: nat)
    ensures r <= x && r <= y
    decreases x + y
  {
    if x == 0 || y == 0 then 0
    else 2 * And(x / 2, y / 2) + (if x % 2 == 1 && y % 2 == 1 then 1 else 0)
  }

  lemma AndHalves(x: nat, y: nat)
    ensures And(x, y) == 2 * And(x / 2, y / 2) + (if x % 2 == 1 && y % 2 == 1 then 1 else 0)
  {
  }

  /** Taking away the lowest bit of `x` and one factor of two of the divisor. */
  lemma Halved(x: nat, q: nat)
    requires q > 0
    ensures x / (2 * q) == x / 2 / q && x % (2 * q) == 2 * (x / 2 % q) + x % 2
  {
    var a, b := x / 2 / q, x / 2 % q;
    assert x / 2 == a * q + b;
    assert x == a * (2 * q) + (2 * b + x % 2) by {
      Regroup(a, q, b);
    }
    RemainderIs(x, 2 * q, a, 2 * b + x % 2);
  }

  lemma Regroup(a: int, q: int, b: int)
    ensures 2 * (a * q + b) == a * (2 * q) + 2 * b
  {
  }

  /** A mask whose `k` low bits are set keeps those bits. */
  lemma {:induction false} AndLow(x: nat, y: nat, k: nat)
    ensures And(x, Shl(y, k, 1)) == Shl(And(Shr(x, k), y), k, 0) + Low(x, k)
    decreases k
  {
    if k > 0 {
      var m, z := Shl(y, k, 1), And(Shr(x, k), y);
      AndHalves(x, m);
      AndLow(x / 2, y, k - 1);
      assert m / 2 == Shl(y, k - 1, 1) && m % 2 == 1;
      assert And(x, m) == 2 * (Shl(z, k - 1, 0) + Low(x / 2, k - 1)) + x % 2;
    }
  }

  /** Masking the low bits is taking the remainder by a power of two. */
  lemma AndMask(x: nat, k: nat)
    ensures And(x, Pow2(k) - 1) == x % Pow2(k)
  {
    AndLow(x, 0, k);
    OnesShiftedIn(k);
    ShiftsDivide(x, k);
    ShiftMultiplies(0, k);
  }

  /** Setting bits from the `k`-th on leaves the low bits alone. */
  lemma {:induction false} OrHigh(x: nat, y: nat, k: nat)
    ensures Or(x, Shl(y, k, 0)) == Shl(Or(Shr(x, k), y), k, 0) + Low(x, k)
    decreases k
  {
    if k > 0 {
      var m := Shl(y, k, 0);
      OrHalves(x, m);
      OrHigh(x / 2, y, k - 1);
      assert m / 2 == Shl(y, k - 1, 0) && m % 2 == 0;
      assert Or(x, m) == 2 * (Or(x, m) / 2) + Or(x, m) % 2;
    }
  }

  /** Or of parts that do not overlap adds them. */
  lemma OrApart(x: nat, y: nat, k: nat)
    requires x < Pow2(k)
    ensures Or(x, Shl(y, k, 0)) == Shl(y, k, 0) + x
  {
    OrHigh(x, y, k);
    ShiftsDivide(x, k);
    RemainderIs(x, Pow2(k), 0, x);
    OrZero(y);
  }

  lemma RemainderIs(x: int, d: int, q: int, r: int)
    requires d > 0 && x == q * d + r && 0 <= r < d
    ensures x % d == r && x / d == q
  {
    var e := x / d - q;
    SmallMultiple(e, d, r - x % d);
  }

  lemma SmallMultiple(e: int, d: int, m: int)
    requires e * d == m && -d < m < d
    ensures e == 0
  {
    if e > 0 {
      AtLeast(e, d);
    } else if e < 0 {
      AtLeast(-e, d);
    }
  }

  lemma {:induction false} AtLeast(e: int, d: int)
    requires e > 0 && d > 0
    ensures e * d >= d
    decreases e
  {
    if e > 1 {
      AtLeast(e - 1, d);
    }
  }

  lemma {:induction false} AndSelf(x: nat)
    ensures And(x, x) == x
  {
    if x > 0 {
      AndSelf(x / 2);
    }
  }

  /** x & (x - 1) is zero just for the powers of two. */
  lemma {:induction false} PowerTest(x: nat) returns (k: nat)
    requires x > 0
    ensures And(x, x - 1) == 0 ==> x == Pow2(k)
  {
    if x == 1 {
      k := 0;
    } else if x % 2 == 1 {
      k := 0;
      AndSelf(x / 2);
    } else {
      k := PowerTest(x / 2);
      k := k + 1;
    }
  }

  lemma {:induction false} PowersPassTest(k: nat)
    ensures And(Pow2(k), Pow2(k) - 1) == 0
  {
    if k > 0 {
      PowersPassTest(k - 1);
    }
  }

  /** The test x & (x - 1) == 0 is exact. */
  lemma PowerTestIsExact(x: nat)
    requires x > 0
    ensures And(x, x - 1) == 0 <==> exists k: nat :: x == Pow2(k)
  {
    var k := PowerTest(x);
    if j: nat :| x == Pow2(j) {
      PowersPassTest(j);
    }
  }

  lemma {:induction false} PowersMultiply(j: nat, k: nat)
    ensures Pow2(j + k) == Pow2(j) * Pow2(k)
  {
    if j > 0 {
      PowersMultiply(j - 1, k);
    }
  }

  lemma {:induction false} PowerGrows(j: nat, k: nat)
    requires j <= k
    ensures Pow2(j) <= Pow2(k)
  {
    if j < k {
      PowerGrows(j, k - 1);
    }
  }
}
