/** `\u` escapes: what the parser of test/test_cjson/cJSON.c writes for them is the UTF-8
    of section 3 of RFC 3629. */
module JsonUnicode {
  import opened Common
  import opened JsonText
  import opened JsonParse
  import opened JsonRoundTrip

  predicate IsScalar(uc: nat) {
    uc < 0xD800 || 0xE000 <= uc < 0x11_0000
  }

  predicate IsTail(c: char) {
    0x80 <= c as int <= 0xBF
  }

  /** The code point of a byte sequence by the syntax of section 4 of RFC 3629. */
  function Decode(b: string): Option<nat> {
    if |b| == 1 && b[0] as int < 0x80 then Some(b[0] as int)
    else if |b| == 2 && 0xC2 <= b[0] as int <= 0xDF && IsTail(b[1]) then
      Some((b[0] as int - 0xC0) * 0x40 + (b[1] as int - 0x80))
    else if |b| == 3 && 0xE0 <= b[0] as int <= 0xEF && IsTail(b[1]) && IsTail(b[2])
      && (b[0] as int == 0xE0 ==> b[1] as int >= 0xA0) && (b[0] as int == 0xED ==> b[1] as int <= 0x9F) then
      Some((b[0] as int - 0xE0) * 0x1000 + (b[1] as int - 0x80) * 0x40 + (b[2] as int - 0x80))
    else if |b| == 4 && 0xF0 <= b[0] as int <= 0xF4 && IsTail(b[1]) && IsTail(b[2]) && IsTail(b[3])
      && (b[0] as int == 0xF0 ==> b[1] as int >= 0x90) && (b[0] as int == 0xF4 ==> b[1] as int <= 0x8F) then
      Some((b[0] as int - 0xF0) * 0x4_0000 + (b[1] as int - 0x80) * 0x1000
           + (b[2] as int - 0x80) * 0x40 + (b[3] as int - 0x80))
    else None
  }

  lemma Split(a: nat, t: nat)
    requires t < 0x40
    ensures (a * 0x40 + t) / 0x40 == a && (a * 0x40 + t) % 0x40 == t
  {
  }

  lemma Two(uc: nat)
    requires 0x80 <= uc < 0x800
    ensures Decode(Utf8(uc)) == Some(uc)
  {
    var b := Utf8(uc);
    assert b[0] as int == 0xC0 + uc / 0x40 && b[1] as int == 0x80 + uc % 0x40;
  }

  lemma Three(uc: nat)
    requires IsScalar(uc) && 0x800 <= uc < 0x1_0000
    ensures Decode(Utf8(uc)) == Some(uc)
  {
    var b := Utf8(uc);
    var x, y, z := uc / 0x1000, uc / 0x40 % 0x40, uc % 0x40;
    assert b[0] as int == 0xE0 + x && b[1] as int == 0x80 + y && b[2] as int == 0x80 + z;
    assert uc == x * 0x1000 + y * 0x40 + z;
  }

  lemma Digits64(uc: nat)
    ensures uc / 0x1000 == uc / 0x40 / 0x40 && uc / 0x4_0000 == uc / 0x40 / 0x40 / 0x40
  {
  }

  lemma FourParts(uc: nat, w: nat, x: nat, y: nat, z: nat)
    requires 0x1_0000 <= uc < 0x11_0000
    requires w == uc / 0x4_0000 && x == uc / 0x1000 % 0x40 && y == uc / 0x40 % 0x40 && z == uc % 0x40
    ensures uc == w * 0x4_0000 + x * 0x1000 + y * 0x40 + z
    ensures w <= 4 && x < 0x40 && y < 0x40 && z < 0x40
    ensures (w == 0 ==> x >= 0x10) && (w == 4 ==> x <= 0xF)
  {
    Digits64(uc);
    var a := uc / 0x40;
    var b := a / 0x40;
    assert uc == a * 0x40 + z;
    assert a == b * 0x40 + y;
    assert b == w * 0x40 + x;
  }

  lemma Four(uc: nat)
    requires 0x1_0000 <= uc < 0x11_0000
    ensures Decode(Utf8(uc)) == Some(uc)
  {
    var b := Utf8(uc);
    var w, x, y, z := uc / 0x4_0000, uc / 0x1000 % 0x40, uc / 0x40 % 0x40, uc % 0x40;
    FourParts(uc, w, x, y, z);
    assert b == [(0xF0 + w) as char, (0x80 + x) as char, (0x80 + y) as char, (0x80 + z) as char];
  }

  /** The written bytes decode to the code point. */
  lemma Utf8Decodes(uc: nat)
    requires IsScalar(uc)
    ensures Decode(Utf8(uc)) == Some(uc)
  {
    if uc < 0x80 {
    } else if uc < 0x800 {
      Two(uc);
    } else if uc < 0x1_0000 {
      Three(uc);
    } else {
      Four(uc);
    }
  }

  /** And no other bytes do. */
  lemma DecodesToOne(b: string, uc: nat)
    requires Decode(b) == Some(uc)
    ensures IsScalar(uc) && b == Utf8(uc)
  {
    if |b| == 2 {
      Split(b[0] as int - 0xC0, b[1] as int - 0x80);
    } else if |b| == 3 {
      ThreeBytes(b, uc);
    } else if |b| == 4 {
      FourBytes(b, uc);
    }
  }

  lemma ThreeBytes(b: string, uc: nat)
    requires Decode(b) == Some(uc) && |b| == 3
    ensures IsScalar(uc) && b == Utf8(uc)
  {
    var x, y, z := b[0] as int - 0xE0, b[1] as int - 0x80, b[2] as int - 0x80;
    Split(x * 0x40 + y, z);
    Split(x, y);
    assert uc / 0x1000 == x && uc / 0x40 % 0x40 == y && uc % 0x40 == z;
    assert 0x800 <= uc < 0x1_0000 && !(0xD800 <= uc < 0xE000);
  }

  lemma FourBytes(b: string, uc: nat)
    requires Decode(b) == Some(uc) && |b| == 4
    ensures IsScalar(uc) && b == Utf8(uc)
  {
    var w, x, y, z := b[0] as int - 0xF0, b[1] as int - 0x80, b[2] as int - 0x80, b[3] as int - 0x80;
    Split((w * 0x40 + x) * 0x40 + y, z);
    Split(w * 0x40 + x, y);
    Split(w, x);
    assert uc / 0x40 == (w * 0x40 + x) * 0x40 + y;
    assert uc / 0x1000 == w * 0x40 + x && uc / 0x4_0000 == w;
    assert 0x1_0000 <= uc < 0x11_0000;
  }

  function HexText(h: nat, rest: string): string
    requires h < 0x1_0000
  {
    Cons(HexDigit(h / 0x1000),
         Cons(HexDigit(h / 0x100 % 0x10), Cons(HexDigit(h / 0x10 % 0x10), Cons(HexDigit(h % 0x10), rest))))
  }

  lemma HexTextParses(h: nat, rest: string)
    requires h < 0x1_0000
    ensures var s := HexText(h, rest); IsHex4(s) && Hex4(s) == h && |s| == |rest| + 4 && s[4..] == rest
  {
    var s := HexText(h, rest);
    assert s ==
           [HexDigit(h / 0x1000), HexDigit(h / 0x100 % 0x10), HexDigit(h / 0x10 % 0x10), HexDigit(h % 0x10)] + rest;
    HexRoundTrip(h / 0x1000);
    HexRoundTrip(h / 0x100 % 0x10);
    HexRoundTrip(h / 0x10 % 0x10);
    HexRoundTrip(h % 0x10);
    HexSum(h);
  }

  lemma Digits16(h: nat)
    ensures h / 0x100 == h / 0x10 / 0x10 && h / 0x1000 == h / 0x10 / 0x10 / 0x10
  {
  }

  lemma HexSum(h: nat)
    requires h < 0x1_0000
    ensures h == h / 0x1000 * 0x1000 + h / 0x100 % 0x10 * 0x100 + h / 0x10 % 0x10 * 0x10 + h % 0x10
  {
    Digits16(h);
    var a := h / 0x10;
    var b := a / 0x10;
    var c := b / 0x10;
    assert h == a * 0x10 + h % 0x10;
    assert a == b * 0x10 + a % 0x10;
    assert b == c * 0x10 + b % 0x10;
  }

  /** A code point as UTF-16 escapes, the first `\u` already read. */
  function EscapeText(uc: nat, rest: string): string
    requires IsScalar(uc)
  {
    if uc < 0x1_0000 then HexText(uc, rest)
    else
      HexText(0xD800 + (uc - 0x1_0000) / 0x400,
              Cons('\\', Cons('u', HexText(0xDC00 + (uc - 0x1_0000) % 0x400, rest))))
  }

  lemma OneEscapeDecodes(uc: nat, rest: string)
    requires IsScalar(uc) && 0 < uc < 0x1_0000
    ensures ParseUnit(HexText(uc, rest)) == Unit(Utf8(uc), 4) && HexText(uc, rest)[4..] == rest
  {
    HexTextParses(uc, rest);
  }

  lemma PairDecodes(uc: nat, rest: string)
    requires 0x1_0000 <= uc < 0x11_0000
    ensures ParseUnit(EscapeText(uc, rest)) == Unit(Utf8(uc), 10) && EscapeText(uc, rest)[10..] == rest
  {
    var hi, lo := 0xD800 + (uc - 0x1_0000) / 0x400, 0xDC00 + (uc - 0x1_0000) % 0x400;
    PairSum(uc, hi, lo);
    UnitOfPair(hi, lo, rest);
  }

  /** Every escaped code point but zero is decoded to its UTF-8 bytes, as one escape or as
      a surrogate pair. */
  lemma EscapeDecodes(uc: nat, rest: string)
    requires IsScalar(uc) && uc != 0
    ensures var u := ParseUnit(EscapeText(uc, rest));
            u.Unit? && Decode(u.bytes) == Some(uc) && EscapeText(uc, rest)[u.used..] == rest
  {
    Utf8Decodes(uc);
    if uc < 0x1_0000 {
      OneEscapeDecodes(uc, rest);
    } else {
      PairDecodes(uc, rest);
    }
  }

  lemma {:induction false} UnitOfPair(hi: nat, lo: nat, rest: string)
    requires 0xD800 <= hi <= 0xDBFF && 0xDC00 <= lo <= 0xDFFF
    ensures var s := HexText(hi, Cons('\\', Cons('u', HexText(lo, rest))));
            ParseUnit(s) == Unit(Utf8(0x1_0000 + hi % 0x400 * 0x400 + lo % 0x400), 10) && s[10..] == rest
  {
    var second := HexText(lo, rest);
    var tail := Cons('\\', Cons('u', second));
    var s := HexText(hi, tail);
    HexTextParses(hi, tail);
    HexTextParses(lo, rest);
    assert s[4] == s[4..][0] && s[5] == s[4..][1];
    assert s[6..] == s[4..][2..] == second;
    assert s[10..] == s[6..][4..];
  }

  lemma PairSum(uc: nat, hi: nat, lo: nat)
    requires 0x1_0000 <= uc < 0x11_0000
    requires hi == 0xD800 + (uc - 0x1_0000) / 0x400 && lo == 0xDC00 + (uc - 0x1_0000) % 0x400
    ensures 0xD800 <= hi <= 0xDBFF && 0xDC00 <= lo <= 0xDFFF
    ensures 0x1_0000 + hi % 0x400 * 0x400 + lo % 0x400 == uc
  {
  }

  /** In a string literal. */
  lemma LiteralDecodes(uc: nat, rest: string)
    requires IsScalar(uc) && uc != 0
    ensures StringBody(Cons('\\', Cons('u', EscapeText(uc, rest)))) == Prepend(Utf8(uc), StringBody(rest))
  {
    EscapeDecodes(uc, rest);
    UnitInBody(EscapeText(uc, rest));
    DecodesToOne(ParseUnit(EscapeText(uc, rest)).bytes, uc);
  }

  // ----- The other escapes, as section 7 of RFC 8259 lists them -----

  /** A letter behind a backslash stands for the character `code`. */
  ghost predicate StandsFor(letter: char, code: nat) {
    code < 0x80
    && forall rest :: StringBody(Cons('\\', Cons(letter, rest))) == Prepend([code as char], StringBody(rest))
  }

  lemma LetterDecodes(letter: char, code: nat)
    requires code < 0x80 && letter != 'u' && Unescape(letter) == code as char
    ensures StandsFor(letter, code)
  {
    forall rest
      ensures StringBody(Cons('\\', Cons(letter, rest))) == Prepend([code as char], StringBody(rest))
    {
      ShortRoundTrip(letter, rest);
    }
  }

  lemma ShortEscapesDecode()
    ensures StandsFor('\"', 0x22) && StandsFor('\\', 0x5C) && StandsFor('/', 0x2F) && StandsFor('b', 0x08)
    ensures StandsFor('f', 0x0C) && StandsFor('n', 0x0A) && StandsFor('r', 0x0D) && StandsFor('t', 0x09)
  {
    LetterDecodes('\"', 0x22);
    LetterDecodes('\\', 0x5C);
    LetterDecodes('/', 0x2F);
    LetterDecodes('b', 0x08);
    LetterDecodes('f', 0x0C);
    LetterDecodes('n', 0x0A);
    LetterDecodes('r', 0x0D);
    LetterDecodes('t', 0x09);
  }

  /** A hexadecimal digit counts alike in capitals. */
  lemma HexDigitValues(d: nat)
    requires d < 16
    ensures HexValue("0123456789abcdef"[d]) == d && HexValue("0123456789ABCDEF"[d]) == d
  {
    assert "0123456789abcdef"[d] == if d < 10 then '0' + d as char else 'a' + (d - 10) as char;
    assert "0123456789ABCDEF"[d] == if d < 10 then '0' + d as char else 'A' + (d - 10) as char;
  }

  // ----- Values read from any text -----

  lemma {:induction false} BodyIsClean(s: string)
    requires NulFree(s) && StringBody(s).Ok?
    ensures NulFree(StringBody(s).value) && NulFree(StringBody(s).rest)
    decreases |s|
  {
    if s != [] && s[0] != '\"' {
      var p := NextStep(s);
      StepIsClean(s);
      BodyIsClean(s[p.used..]);
    }
  }

  lemma {:induction false} StepIsClean(s: string)
    requires NulFree(s) && s != [] && NextStep(s).Step?
    ensures NulFree(NextStep(s).bytes) && NulFree(s[NextStep(s).used..])
  {
  }

  lemma {:induction false} SkipIsClean(s: string)
    requires NulFree(s)
    ensures NulFree(Skip(s))
  {
    if s != [] && s[0] <= ' ' {
      SkipIsClean(s[1..]);
    }
  }

  lemma {:induction false} DigitsIsClean(s: string, n: nat)
    requires NulFree(s)
    ensures NulFree(Digits(s, n).1)
  {
    if s != [] && IsDigit(s[0]) {
      DigitsIsClean(s[1..], n * 10 + (s[0] as int - '0' as int));
    }
  }

  lemma NumberIsClean(s: string)
    requires NulFree(s) && s != [] && (s[0] == '-' || IsDigit(s[0])) && ParseNumber(s).Ok?
    ensures Clean(ParseNumber(s).value) && NulFree(ParseNumber(s).rest)
  {
    var s1 := if s[0] == '-' then s[1..] else s;
    var s2 := if s1 != [] && s1[0] == '0' then s1[1..] else s1;
    DigitsIsClean(s2, 0);
  }

  lemma {:induction false} ParsedIsClean(s: string)
    requires NulFree(s) && ParseValue(s).Ok?
    ensures Clean(ParseValue(s).value) && NulFree(ParseValue(s).rest)
    decreases |s|, 1
  {
    if StartsWith(s, "null") || StartsWith(s, "false") || StartsWith(s, "true") {
    } else if s[0] == '\"' {
      BodyIsClean(s[1..]);
    } else if s[0] == '-' || IsDigit(s[0]) {
      NumberIsClean(s);
    } else {
      SkipIsClean(s[1..]);
      var t := Skip(s[1..]);
      if s[0] == '[' && t[0] != ']' {
        ItemsAreClean(t);
      } else if s[0] == '{' && t[0] != '}' {
        MembersAreClean(t);
      }
    }
  }

  lemma {:induction false} ItemsAreClean(s: string)
    requires NulFree(s) && ParseItems(s).Ok?
    ensures CleanItems(ParseItems(s).value) && NulFree(ParseItems(s).rest)
    decreases |s|, 2
  {
    ParsedIsClean(s);
    var t := Skip(ParseValue(s).rest);
    SkipIsClean(ParseValue(s).rest);
    if t[0] == ',' {
      SkipIsClean(t[1..]);
      ItemsAreClean(Skip(t[1..]));
    }
  }

  lemma {:induction false} MembersAreClean(s: string)
    requires NulFree(s) && ParseMembers(s).Ok?
    ensures CleanMembers(ParseMembers(s).value) && NulFree(ParseMembers(s).rest)
    decreases |s|, 3
  {
    var name := ParseString(s);
    BodyIsClean(s[1..]);
    SkipIsClean(name.rest);
    AfterNameIsClean(name.value, Skip(name.rest));
  }

  lemma {:induction false} AfterNameIsClean(name: string, t: string)
    requires NulFree(name) && NulFree(t) && AfterName(name, t).Ok?
    ensures CleanMembers(AfterName(name, t).value) && NulFree(AfterName(name, t).rest)
    decreases |t|, 2
  {
    SkipIsClean(t[1..]);
    var v := ParseValue(Skip(t[1..]));
    ParsedIsClean(Skip(t[1..]));
    SkipIsClean(v.rest);
    AfterMemberIsClean(Skip(v.rest));
  }

  lemma {:induction false} AfterMemberIsClean(t: string)
    requires NulFree(t) && AfterMember(t).Ok?
    ensures CleanMembers(AfterMember(t).value) && NulFree(AfterMember(t).rest)
    decreases |t|, 0
  {
    if t[0] == ',' {
      SkipIsClean(t[1..]);
      MembersAreClean(Skip(t[1..]));
    }
  }

  /** Whatever text was parsed: printing the value in either format and parsing that text
      gives the same value. */
  lemma ParsePrintParse(text: string, fmt: bool)
    requires NulFree(text) && ParseWithOpts(text, false).Ok?
    ensures var v := ParseWithOpts(text, false).value;
            ParseWithOpts(Text(v, 0, fmt, ""), true) == Ok(v, "")
  {
    SkipIsClean(text);
    ParsedIsClean(Skip(text));
    PrintParse(ParseWithOpts(text, false).value, fmt, true);
  }
}
