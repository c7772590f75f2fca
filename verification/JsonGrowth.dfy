/** pow2gt of test/test_cjson/cJSON.c: the size a print buffer grows to. */
module JsonGrowth {
  import opened Bits

  /** Below bit `k` the top `i` bits are set, and none from `k` on. */
  ghost predicate TopOnes(x: nat, k: nat, i: nat) {
    forall j: nat {:trigger Bit(x, j)} :: (k - i <= j < k ==> Bit(x, j)) && (j >= k ==> !Bit(x, j))
  }

  function Smear(x: nat, i: nat): nat {
    Or(x, Shr(x, i))
  }

  lemma SmearDoubles(x: nat, k: nat, i: nat)
    requires TopOnes(x, k, i)
    ensures TopOnes(Smear(x, i), k, 2 * i)
  {
    forall j: nat
      ensures k - 2 * i <= j < k ==> Bit(Smear(x, i), j)
      ensures j >= k ==> !Bit(Smear(x, i), j)
    {
      OrBit(x, Shr(x, i), j);
      ShrBit(x, i, j);
      assert Bit(x, j) || !Bit(x, j);
    }
  }

  function Pow2gt(x: nat): nat
    requires x > 0
  {
    Smear(Smear(Smear(Smear(Smear(x - 1, 1), 2), 4), 8), 16) + 1
  }

  /** For sizes up to 2^30: the least power of two that is no less, which fits 31 bits. */
  lemma {:induction false} GrowsToPower(x: nat) returns (k: nat)
    requires 0 < x <= 0x4000_0000
    ensures Pow2gt(x) == Pow2(k) && k <= 30 && x <= Pow2gt(x) <= 0x4000_0000
    ensures k > 0 ==> Pow2(k - 1) < x
  {
    var y := x - 1;
    Thirty();
    k := TopBit(y);
    if k > 30 {
      PowerGrows(30, k - 1);
    }
    assert TopOnes(y, k, 1);
    SmearDoubles(y, k, 1);
    var y1 := Smear(y, 1);
    SmearDoubles(y1, k, 2);
    var y2 := Smear(y1, 2);
    SmearDoubles(y2, k, 4);
    var y3 := Smear(y2, 4);
    SmearDoubles(y3, k, 8);
    var y4 := Smear(y3, 8);
    SmearDoubles(y4, k, 16);
    var y5 := Smear(y4, 16);
    assert forall j: nat :: Bit(y5, j) <==> j < k;
    AllOnes(y5, k);
    PowerGrows(k, 30);
  }

  lemma Thirty()
    ensures Pow2(30) == 0x4000_0000
  {
    assert Pow2(5) == 32;
    assert Pow2(10) == 1024;
    assert Pow2(15) == 0x8000;
    assert Pow2(20) == 0x10_0000;
    assert Pow2(25) == 0x200_0000;
  }
}
