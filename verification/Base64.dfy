/** The base 64 decoder of platform/common/src/chunk.cpp against the encoding of section 4
    of RFC 4648. */
module Base64 {
  import opened Bits

  type Byte = b: int | 0 <= b < 256

  // ----- The encoding, as the RFC defines it -----

  /** The digits of section 4, or of section 5 with its two other characters. */
  function Digit64(v: nat, urlSafe: bool): char
    requires v < 64
  {
    if v < 26 then 'A' + v as char
    else if v < 52 then 'a' + (v - 26) as char
    else if v < 62 then '0' + (v - 52) as char
    else if v == 62 then (if urlSafe then '-' else '+')
    else (if urlSafe then '_' else '/')
  }

  function Encode(bytes: seq<Byte>, urlSafe: bool): string {
    if |bytes| == 0 then ""
    else if |bytes| == 1 then
      [Digit64(bytes[0] / 4, urlSafe), Digit64(bytes[0] % 4 * 16, urlSafe), '=', '=']
    else if |bytes| == 2 then
      [Digit64(bytes[0] / 4, urlSafe), Digit64(bytes[0] % 4 * 16 + bytes[1] / 16, urlSafe),
       Digit64(bytes[1] % 16 * 4, urlSafe), '=']
    else
      [Digit64(bytes[0] / 4, urlSafe), Digit64(bytes[0] % 4 * 16 + bytes[1] / 16, urlSafe),
       Digit64(bytes[1] % 16 * 4 + bytes[2] / 64, urlSafe), Digit64(bytes[2] % 64, urlSafe)]
      + Encode(bytes[3..], urlSafe)
  }

  // ----- The decoder -----

  /** b642bin, cut to a byte where it is stored: 255 for a character that is no digit. */
  function DigitValue(c: char): Byte {
    if 'A' <= c <= 'Z' then c as int - 'A' as int
    else if 'a' <= c <= 'z' then 26 + (c as int - 'a' as int)
    else if '0' <= c <= '9' then 52 + (c as int - '0' as int)
    else if c == '+' || c == '-' then 62
    else if c == '/' || c == '_' then 63
    else if c == '=' then 0
    else 255
  }

  /** (x << 2) | (y >> 4), (x << 4) | (y >> 2) and (x << 6) | y, cut to bytes. */
  function Upper(x: Byte, y: Byte): Byte {
    Or(x * 4, y / 16) % 256
  }

  function Middle(x: Byte, y: Byte): Byte {
    Or(x * 16, y / 4) % 256
  }

  function Lower(x: Byte, y: Byte): Byte {
    Or(x * 64, y) % 256
  }

  /** The three bytes of four characters. */
  function Group(s: string): seq<Byte>
    requires |s| >= 4
  {
    var a, b, c, d := DigitValue(s[0]), DigitValue(s[1]), DigitValue(s[2]), DigitValue(s[3]);
    [Upper(a, b), Middle(b, c), Lower(c, d)]
  }

  /** All bytes of the whole groups, padding included. */
  function Groups(s: string): (r: seq<Byte>)
    ensures |r| == |s| / 4 * 3
  {
    if |s| < 4 then []
    else
      assert |s[4..]| / 4 == |s| / 4 - 1;
      Group(s) + Groups(s[4..])
  }

  /** The length counted after `n` characters: three for each group begun, less one for
      each padding character while there is something to take from. */
  function OutLength(s: string, n: nat): nat
    requires n <= |s|
  {
    if n == 0 then 0
    else
      var counted := OutLength(s, n - 1) + (if (n - 1) % 4 == 0 then 3 else 0);
      if s[n - 1] == '=' && counted > 0 then counted - 1 else counted
  }

  // ----- Digits -----

  lemma DigitRoundTrip(v: nat, urlSafe: bool)
    requires v < 64
    ensures DigitValue(Digit64(v, urlSafe)) == v && Digit64(v, urlSafe) != '='
  {
  }

  /** Nothing else has a value: any other character but the padding is marked as no digit. */
  lemma OnlyDigits(c: char)
    ensures DigitValue(c) == 255 <==> c != '=' && forall v: nat, urlSafe :: v < 64 ==> Digit64(v, urlSafe) != c
  {
    if DigitValue(c) != 255 && c != '=' {
      var v: nat := DigitValue(c);
      assert Digit64(v, c == '-' || c == '_') == c;
    }
    forall v: nat, urlSafe | v < 64
      ensures DigitValue(Digit64(v, urlSafe)) == v
    {
      DigitRoundTrip(v, urlSafe);
    }
  }

  /** Or of parts that do not overlap adds them. */
  lemma OrAdds(x: nat, y: nat, k: nat)
    requires y < Pow2(k)
    ensures Or(x * Pow2(k), y) == x * Pow2(k) + y
  {
    ShiftMultiplies(x, k);
    OrCommutes(Shl(x, k, 0), y);
    OrApart(y, x, k);
  }

  lemma UpperJoins(x: Byte, y: Byte)
    requires x < 64 && y < 64
    ensures Upper(x, y) == x * 4 + y / 16
  {
    assert Pow2(2) == 4;
    OrAdds(x, y / 16, 2);
  }

  lemma MiddleJoins(x: Byte, y: Byte)
    requires x < 64 && y < 64
    ensures Middle(x, y) == x % 16 * 16 + y / 4
  {
    assert Pow2(4) == 16;
    OrAdds(x, y / 4, 4);
    RemainderIs(x * 16 + y / 4, 256, x / 16, x % 16 * 16 + y / 4);
  }

  lemma LowerJoins(x: Byte, y: Byte)
    requires x < 64 && y < 64
    ensures Lower(x, y) == x % 4 * 64 + y
  {
    assert Pow2(6) == 64;
    OrAdds(x, y, 6);
    RemainderIs(x * 64 + y, 256, x / 4, x % 4 * 64 + y);
  }

  lemma Joins(a: Byte, b: Byte, c: Byte, d: Byte)
    requires a < 64 && b < 64 && c < 64 && d < 64
    ensures Upper(a, b) == a * 4 + b / 16 && Middle(b, c) == b % 16 * 16 + c / 4 && Lower(c, d) == c % 4 * 64 + d
  {
    UpperJoins(a, b);
    MiddleJoins(b, c);
    LowerJoins(c, d);
  }

  lemma Pieces(x: Byte, y: Byte)
    ensures x / 4 < 64 && x % 4 * 16 + y / 16 < 64
    ensures (x % 4 * 16 + y / 16) / 16 == x % 4 && (x % 4 * 16 + y / 16) % 16 == y / 16
    ensures x / 4 * 4 + x % 4 == x
  {
  }

  lemma MorePieces(y: Byte, z: Byte)
    ensures y % 16 * 4 + z / 64 < 64 && z % 64 < 64
    ensures (y % 16 * 4 + z / 64) / 4 == y % 16 && (y % 16 * 4 + z / 64) % 4 == z / 64
    ensures y / 16 * 16 + y % 16 == y && z / 64 * 64 + z % 64 == z
  {
  }

  lemma GroupOf(s: string, a: Byte, b: Byte, c: Byte, d: Byte)
    requires |s| >= 4 && a < 64 && b < 64 && c < 64 && d < 64
    requires DigitValue(s[0]) == a && DigitValue(s[1]) == b && DigitValue(s[2]) == c && DigitValue(s[3]) == d
    ensures |Group(s)| == 3
    ensures Group(s)[0] == a * 4 + b / 16 && Group(s)[1] == b % 16 * 16 + c / 4 && Group(s)[2] == c % 4 * 64 + d
  {
    Joins(a, b, c, d);
  }

  lemma Rejoined(x: Byte, y: Byte, z: Byte, b: Byte, c: Byte)
    requires b == x % 4 * 16 + y / 16 && c == y % 16 * 4 + z / 64
    ensures b < 64 && c < 64
    ensures x / 4 * 4 + b / 16 == x && b % 16 * 16 + c / 4 == y && c % 4 * 64 + z % 64 == z
  {
    Pieces(x, y);
    MorePieces(y, z);
  }

  /** Four digits written for three bytes; a missing byte counts as zero and its digit may
      be padding. */
  lemma GroupRoundTrip(x: Byte, y: Byte, z: Byte, s: string)
    requires |s| >= 4 && DigitValue(s[0]) == x / 4 && DigitValue(s[1]) == x % 4 * 16 + y / 16
    requires DigitValue(s[2]) == y % 16 * 4 + z / 64 && DigitValue(s[3]) == z % 64
    ensures Group(s) == [x, y, z]
  {
    var b, c := DigitValue(s[1]), DigitValue(s[2]);
    Rejoined(x, y, z, b, c);
    GroupOf(s, x / 4, b, c, z % 64);
  }

  lemma DigitsOf(x: Byte, y: Byte, z: Byte, urlSafe: bool)
    ensures DigitValue(Digit64(x / 4, urlSafe)) == x / 4
    ensures DigitValue(Digit64(x % 4 * 16 + y / 16, urlSafe)) == x % 4 * 16 + y / 16
    ensures DigitValue(Digit64(y % 16 * 4 + z / 64, urlSafe)) == y % 16 * 4 + z / 64
    ensures DigitValue(Digit64(z % 64, urlSafe)) == z % 64
  {
    DigitRoundTrip(x / 4, urlSafe);
    DigitRoundTrip(x % 4 * 16 + y / 16, urlSafe);
    DigitRoundTrip(y % 16 * 4 + z / 64, urlSafe);
    DigitRoundTrip(z % 64, urlSafe);
  }

  // ----- Decoding what was encoded -----

  /** Padding is where the last group lacks bytes, and nowhere else. */
  lemma ShortPadding(bytes: seq<Byte>, urlSafe: bool)
    requires 1 <= |bytes| <= 2
    ensures var e := Encode(bytes, urlSafe);
            |e| == 4 && forall i :: 0 <= i < 4 ==> (e[i] == '=' <==> i > |bytes|)
  {
    DigitsOf(bytes[0], if |bytes| == 2 then bytes[1] else 0, 0, urlSafe);
  }

  lemma FullPadding(bytes: seq<Byte>, urlSafe: bool)
    requires |bytes| >= 3
    ensures var e := Encode(bytes, urlSafe);
            |e| >= 4 && e[4..] == Encode(bytes[3..], urlSafe) && forall i :: 0 <= i < 4 ==> e[i] != '='
  {
    DigitsOf(bytes[0], bytes[1], bytes[2], urlSafe);
  }

  lemma {:induction false} PaddingPlace(bytes: seq<Byte>, urlSafe: bool)
    ensures var e := Encode(bytes, urlSafe);
            && |e| == (|bytes| + 2) / 3 * 4
            && forall i :: 0 <= i < |e| ==> (e[i] == '=' <==> i >= (|bytes| * 4 + 2) / 3)
    decreases |bytes|
  {
    if |bytes| >= 3 {
      PaddingPlace(bytes[3..], urlSafe);
      FullPadding(bytes, urlSafe);
      LaterPadding(Encode(bytes, urlSafe), Encode(bytes[3..], urlSafe), |bytes| - 3);
    } else if |bytes| > 0 {
      ShortPadding(bytes, urlSafe);
    }
  }

  /** One more full group in front moves the padding by four. */
  lemma LaterPadding(e: string, f: string, n: nat)
    requires |e| == |f| + 4 && e[4..] == f && |f| == (n + 2) / 3 * 4
    requires forall i :: 0 <= i < 4 ==> e[i] != '='
    requires forall i :: 0 <= i < |f| ==> (f[i] == '=' <==> i >= (n * 4 + 2) / 3)
    ensures |e| == (n + 3 + 2) / 3 * 4
    ensures forall i :: 0 <= i < |e| ==> (e[i] == '=' <==> i >= ((n + 3) * 4 + 2) / 3)
  {
    assert ((n + 3) * 4 + 2) / 3 == (n * 4 + 2) / 3 + 4;
    forall i | 4 <= i < |e|
      ensures e[i] == '=' <==> i >= ((n + 3) * 4 + 2) / 3
    {
      assert e[i] == f[i - 4];
    }
  }

  lemma ShortGroup(bytes: seq<Byte>, urlSafe: bool)
    requires 1 <= |bytes| <= 2
    ensures var e := Encode(bytes, urlSafe);
            |e| == 4 && Group(e)[..|bytes|] == bytes && Groups(e) == Group(e)
  {
    var e := Encode(bytes, urlSafe);
    var x, y := bytes[0], if |bytes| > 1 then bytes[1] else 0;
    DigitsOf(x, y, 0, urlSafe);
    GroupRoundTrip(x, y, 0, e);
    assert e[4..] == [];
    assert Group(e) + [] == Group(e);
  }

  lemma FullGroup(bytes: seq<Byte>, urlSafe: bool)
    requires |bytes| >= 3
    ensures var e := Encode(bytes, urlSafe);
            |e| >= 4 && Groups(e) == bytes[..3] + Groups(Encode(bytes[3..], urlSafe))
  {
    var e := Encode(bytes, urlSafe);
    DigitsOf(bytes[0], bytes[1], bytes[2], urlSafe);
    GroupRoundTrip(bytes[0], bytes[1], bytes[2], e);
    assert e[4..] == Encode(bytes[3..], urlSafe);
    assert Group(e) == bytes[..3];
  }

  /** The whole groups decode to the bytes, followed by what the padding stands for. */
  lemma {:induction false} GroupsOfEncoding(bytes: seq<Byte>, urlSafe: bool)
    ensures var g := Groups(Encode(bytes, urlSafe));
            |g| >= |bytes| && g[..|bytes|] == bytes
    decreases |bytes|
  {
    if |bytes| >= 3 {
      FullGroup(bytes, urlSafe);
      GroupsOfEncoding(bytes[3..], urlSafe);
      var g, h := Groups(Encode(bytes, urlSafe)), Groups(Encode(bytes[3..], urlSafe));
      assert g[..|bytes|] == bytes[..3] + h[..|bytes| - 3] == bytes;
    } else if |bytes| > 0 {
      ShortGroup(bytes, urlSafe);
    }
  }

  lemma {:induction false} PlainLength(s: string, n: nat)
    requires n <= |s| && forall i :: 0 <= i < n ==> s[i] != '='
    ensures OutLength(s, n) == (n + 3) / 4 * 3
  {
    if n > 0 {
      PlainLength(s, n - 1);
    }
  }

  lemma Sizes(n: nat, g: nat, r: nat)
    requires n == 3 * g + r && r < 3
    ensures (n + 2) / 3 * 4 == if r == 0 then 4 * g else 4 * g + 4
    ensures (n * 4 + 2) / 3 == if r == 0 then 4 * g else 4 * g + r + 1
  {
  }

  lemma LastGroup(e: string, g: nat, r: nat)
    requires 1 <= r < 3 && |e| == 4 * g + 4 && OutLength(e, 4 * g + r + 1) == 3 * g + 3
    requires e[4 * g + 3] == '=' && (e[4 * g + 2] == '=' <==> r == 1)
    ensures OutLength(e, |e|) == 3 * g + r
  {
    LengthSteps(e, 4 * g, g);
  }

  /** With `r` bytes in the last group. */
  lemma LengthOfPadded(e: string, g: nat, r: nat)
    requires r < 3 && |e| == if r == 0 then 4 * g else 4 * g + 4
    requires forall i :: 0 <= i < |e| ==> (e[i] == '=' <==> r > 0 && i >= 4 * g + r + 1)
    ensures OutLength(e, |e|) == 3 * g + r
  {
    if r == 0 {
      PlainLength(e, 4 * g);
    } else {
      PlainLength(e, 4 * g + r + 1);
      assert (4 * g + r + 1 + 3) / 4 == g + 1;
      LastGroup(e, g, r);
    }
  }

  lemma LengthOfEncoding(bytes: seq<Byte>, urlSafe: bool)
    ensures var e := Encode(bytes, urlSafe); OutLength(e, |e|) == |bytes|
  {
    PaddingPlace(bytes, urlSafe);
    Sizes(|bytes|, |bytes| / 3, |bytes| % 3);
    LengthOfPadded(Encode(bytes, urlSafe), |bytes| / 3, |bytes| % 3);
  }

  /** The length of chunk_from_base64 and the groups, one group after the other. */
  lemma {:induction false} GroupsNext(s: string, i: nat)
    requires 4 * i + 4 <= |s|
    ensures |Groups(s)| >= 3 * i + 3 && Groups(s)[3 * i..3 * i + 3] == Group(s[4 * i..])
    decreases i
  {
    if i == 0 {
      assert s[0..] == s;
    } else {
      GroupsNext(s[4..], i - 1);
      assert s[4..][4 * (i - 1)..] == s[4 * i..];
      var g, m := Groups(s[4..]), 3 * (i - 1);
      assert Groups(s) == Group(s) + g;
      assert (Group(s) + g)[m + 3..m + 6] == g[m..m + 3];
    }
  }

  /** chunk_from_base64 into a buffer with room for the whole groups. */
  method FromBase64(base64: string, buf: array<Byte>) returns (outlen: nat)
    requires |base64| / 4 * 3 <= buf.Length
    modifies buf
    ensures outlen == OutLength(base64, |base64| / 4 * 4)
    ensures buf[..|base64| / 4 * 3] == Groups(base64)
  {
    var len := |base64| / 4 * 3;
    var pos: nat, i: nat := 0, 0;
    ghost var g: nat := 0;
    outlen := 0;
    while i < len
      invariant i == 3 * g && pos == 4 * g && g <= |base64| / 4
      invariant outlen == OutLength(base64, pos)
      invariant buf[..i] == Groups(base64)[..i]
    {
      GroupsNext(base64, g);
      outlen := DecodeGroup(base64, pos, g, buf, i, outlen);
      NextSlice(buf[..], Groups(base64), i);
      pos, i, g := pos + 4, i + 3, g + 1;
    }
  }

  lemma NextSlice(a: seq<Byte>, b: seq<Byte>, i: nat)
    requires i + 3 <= |a| && i + 3 <= |b| && a[..i] == b[..i] && a[i..i + 3] == b[i..i + 3]
    ensures a[..i + 3] == b[..i + 3]
  {
    assert a[..i + 3] == a[..i] + a[i..i + 3];
    assert b[..i + 3] == b[..i] + b[i..i + 3];
  }

  /** One round of the outer loop. */
  method DecodeGroup(base64: string, pos: nat, ghost g: nat, buf: array<Byte>, i: nat, counted: nat)
    returns (outlen: nat)
    requires pos == 4 * g && pos + 4 <= |base64| && i + 3 <= buf.Length && counted == OutLength(base64, pos)
    modifies buf
    ensures outlen == OutLength(base64, pos + 4)
    ensures buf[..i] == old(buf[..i]) && buf[i..i + 3] == Group(base64[pos..])
  {
    var b0, b1, b2, b3;
    LengthSteps(base64, pos, g);
    outlen := counted + 3;
    b0, outlen := NextDigit(base64, pos, outlen);
    assert outlen == OutLength(base64, pos + 1);
    b1, outlen := NextDigit(base64, pos + 1, outlen);
    assert outlen == OutLength(base64, pos + 2);
    b2, outlen := NextDigit(base64, pos + 2, outlen);
    assert outlen == OutLength(base64, pos + 3);
    b3, outlen := NextDigit(base64, pos + 3, outlen);
    buf[i], buf[i + 1], buf[i + 2] := Upper(b0, b1), Middle(b1, b2), Lower(b2, b3);
  }

  function LessPadding(c: char, counted: nat): nat {
    if c == '=' && counted > 0 then counted - 1 else counted
  }

  lemma LengthSteps(s: string, pos: nat, g: nat)
    requires pos == 4 * g && pos + 4 <= |s|
    ensures OutLength(s, pos + 1) == LessPadding(s[pos], OutLength(s, pos) + 3)
    ensures OutLength(s, pos + 2) == LessPadding(s[pos + 1], OutLength(s, pos + 1))
    ensures OutLength(s, pos + 3) == LessPadding(s[pos + 2], OutLength(s, pos + 2))
    ensures OutLength(s, pos + 4) == LessPadding(s[pos + 3], OutLength(s, pos + 3))
  {
    assert pos % 4 == 0 && (pos + 1) % 4 == 1 && (pos + 2) % 4 == 2 && (pos + 3) % 4 == 3;
  }

  method NextDigit(base64: string, pos: nat, counted: nat) returns (b: Byte, outlen: nat)
    requires pos < |base64|
    ensures b == DigitValue(base64[pos])
    ensures outlen == if base64[pos] == '=' && counted > 0 then counted - 1 else counted
  {
    outlen := counted;
    if base64[pos] == '=' && outlen > 0 {
      outlen := outlen - 1;
    }
    b := DigitValue(base64[pos]);
  }

  /** Decoding the padded encoding of any bytes, in either alphabet, gives those bytes and
      their number. */
  lemma EncodingDecodes(bytes: seq<Byte>, urlSafe: bool)
    ensures var e := Encode(bytes, urlSafe);
            && |e| / 4 * 4 == |e| && OutLength(e, |e|) == |bytes| <= |Groups(e)| == |e| / 4 * 3
            && Groups(e)[..|bytes|] == bytes
  {
    LengthOfEncoding(bytes, urlSafe);
    GroupsOfEncoding(bytes, urlSafe);
    PaddingPlace(bytes, urlSafe);
  }
}
