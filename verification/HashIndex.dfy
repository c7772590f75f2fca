/** Keys of platform/common/src/mxHashTable.cpp and the bins they belong to. */
module HashIndex {
  import opened Bits

  type Int32 = n: int | -0x8000_0000 <= n < 0x8000_0000

  /** A character of a string key, as signed as the source's char. */
  type Char8 = c: int | -128 <= c < 128

  datatype Key =
    | IntKey(k: Int32)
    | PairKey(k1: Int32, k2: Int32)
    | StringKey(s: seq<Char8>)
    | PointerKey(p: int)

  datatype HashType = INT32Type | INT64Type | StringType | MainCCType | PointerType

  const HASH_STR_CONSTANT: nat := 31
  const TWO_32: nat := 0x1_0000_0000

  /** The 32 bits of a number, as signed and as unsigned. */
  function Signed(x: int): Int32 {
    (x + 0x8000_0000) % TWO_32 - 0x8000_0000
  }

  function Unsigned(x: int): (u: nat)
    ensures u < TWO_32
  {
    x % TWO_32
  }

  /** The tables of each type take one kind of key. */
  predicate Accepts(t: HashType, key: Key) {
    match key
    case IntKey(_) => t == INT32Type || t == MainCCType
    case PairKey(_, _) => t == INT64Type
    case StringKey(_) => t == StringType
    case PointerKey(_) => t == PointerType
  }

  /** isSameKey, for keys of one kind: an empty string and a null pointer match nothing. */
  predicate Matches(a: Key, b: Key) {
    a == b && (a.StringKey? ==> a.s != []) && (a.PointerKey? ==> a.p != 0)
  }

  /** The keys that can be found again: all numbers and pairs, strings that are not empty
      and pointers that are not null. */
  predicate Proper(key: Key) {
    match key
    case IntKey(_) => true
    case PairKey(_, _) => true
    case StringKey(s) => |s| > 0
    case PointerKey(p) => p < 0 || p > 0
  }

  /** A proper key matches itself and nothing else; any other key matches nothing. */
  lemma MatchesExactly(a: Key, b: Key)
    ensures Matches(a, b) <==> a == b && Proper(a)
  {
  }

  function StringSum(s: seq<Char8>): (sum: nat)
    ensures sum < TWO_32
  {
    if s == [] then 0 else Unsigned(HASH_STR_CONSTANT * StringSum(s[..|s| - 1]) + s[|s| - 1])
  }

  /** The number a key is reduced to before it is taken modulo the number of bins. */
  function HashOf(t: HashType, key: Key): int {
    match key
    case IntKey(k) => if t == MainCCType then Signed(k * 4) + k / 0x100_0000 % 4 else k
    case PairKey(k1, k2) => Signed(k1 + k2)
    case StringKey(s) => StringSum(s)
    case PointerKey(p) => Signed(p * 4 + p / 0x100_0000 % 4)
  }

  /** The bin of a key in a table of `bins` bins. */
  function BinOf(t: HashType, key: Key, bins: nat): (i: nat)
    requires bins > 0
    ensures i < bins
  {
    HashOf(t, key) % bins
  }

  // ----- How the source computes it -----

  /** The remainder of C, with the sign of the dividend. */
  function TruncatedRemainder(a: int, b: int): int
    requires b > 0
  {
    if a >= 0 then a % b else -(-a % b)
  }

  /** `a & mask` on 32 bits, for a mask that is not negative. */
  function Masked(a: int, mask: nat): nat {
    And(Unsigned(a), mask)
  }

  lemma TruncatedIsEuclidean(a: int, b: int)
    requires b > 0
    ensures var r := TruncatedRemainder(a, b);
            (if r < 0 then r + b else r) == a % b
  {
    if a < 0 {
      var q, r := -a / b, -a % b;
      assert -a == q * b + r;
      if r == 0 {
        assert a == -q * b + 0;
        RemainderIs(a, b, -q, 0);
      } else {
        assert a == (-q - 1) * b + (b - r);
        RemainderIs(a, b, -q - 1, b - r);
      }
    }
  }

  lemma NestedRemainder(a: int, b: int, m: int, n: int)
    requires b > 0 && n > 0 && n == b * m
    ensures a % n % b == a % b
  {
    var q, u := a / n, a % n;
    var c, r := u / b, u % b;
    assert a == q * n + u && u == c * b + r;
    Distribute(q, m, b, c);
    assert a == (q * m + c) * b + r;
    RemainderIs(a, b, q * m + c, r);
  }

  lemma Distribute(q: int, m: int, b: int, c: int)
    ensures q * (b * m) + c * b == (q * m + c) * b
  {
  }

  lemma PowerDivides(k: nat)
    requires Pow2(k) < 0x8000_0000
    ensures k <= 32 && TWO_32 == Pow2(k) * Pow2(32 - k)
  {
    Power32();
    if k > 32 {
      PowerGrows(32, k);
    } else {
      PowersMultiply(k, 32 - k);
    }
  }

  /** Masking with a power of two less one is the same remainder, for negative numbers too. */
  lemma MaskIsEuclidean(a: int, bins: nat)
    requires 0 < bins < 0x8000_0000 && And(bins, bins - 1) == 0
    ensures Masked(a, bins - 1) == a % bins
  {
    var k := PowerTest(bins);
    AndMask(Unsigned(a), k);
    PowerDivides(k);
    NestedRemainder(a, bins, Pow2(32 - k), TWO_32);
  }

  lemma Power32()
    ensures Pow2(32) == TWO_32
  {
    assert Pow2(8) == 0x100;
    PowersMultiply(8, 8);
    PowersMultiply(16, 16);
  }

  method SumString(s: seq<Char8>) returns (sum: nat)
    ensures sum == StringSum(s)
  {
    sum := 0;
    var i := 0;
    assert s[..0] == [];
    while i < |s|
      invariant i <= |s| && sum == StringSum(s[..i])
    {
      assert s[..i + 1][..i] == s[..i];
      sum := Unsigned(HASH_STR_CONSTANT * sum + s[i]);
      i := i + 1;
    }
    assert s[..i] == s;
  }

  /** findBinIndex: -1 if the table does not take such keys. */
  method FindBinIndex(t: HashType, key: Key, binNumber: nat, bitMask: nat) returns (index: int)
    requires 0 < binNumber < 0x8000_0000
    requires bitMask == if And(binNumber, binNumber - 1) == 0 then binNumber - 1 else 0
    ensures index == if Accepts(t, key) then BinOf(t, key, binNumber) else -1
  {
    if !Accepts(t, key) {
      return -1;
    }
    var newKey: int;
    match key {
      case IntKey(k) =>
        newKey := if t == MainCCType then Signed(k * 4) + k / 0x100_0000 % 4 else k;
      case PairKey(k1, k2) =>
        newKey := Signed(k1 + k2);
      case StringKey(s) =>
        newKey := SumString(s);
      case PointerKey(p) =>
        newKey := Signed(p * 4 + p / 0x100_0000 % 4);
    }
    var val;
    if bitMask != 0 {
      MaskIsEuclidean(newKey, binNumber);
      val := Masked(newKey, bitMask);
    } else {
      TruncatedIsEuclidean(newKey, binNumber);
      val := TruncatedRemainder(newKey, binNumber);
    }
    if val < 0 {
      val := val + binNumber;
    }
    return val;
  }
}
