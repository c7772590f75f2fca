/** The parser of test/test_cjson/cJSON.c as functions on the text that is left. */
module JsonParse {
  import opened JsonText

  /** `Fail(at)` leaves the error pointer at `at`.  `Outside` marks input this model does
      not follow: a fraction, an exponent, a number beyond 32 bits, or an escape that is
      cut short. */
  datatype Parsed<T> = Ok(value: T, rest: string) | Fail(at: string) | Outside

  function Skip(s: string): (r: string)
    ensures |r| <= |s|
    ensures r != [] ==> r[0] > ' '
  {
    if s != [] && s[0] <= ' ' then Skip(s[1..]) else s
  }

  predicate IsDigit(c: char) {
    '0' <= c <= '9'
  }

  predicate StartsWith(s: string, word: string)
    ensures StartsWith(s, word) ==> |word| <= |s|
  {
    word == [] || (s != [] && s[0] == word[0] && StartsWith(s[1..], word[1..]))
  }

  // ----- Numbers -----

  function Digits(s: string, n: nat): (r: (nat, string))
    ensures |r.1| <= |s| && (s != [] && IsDigit(s[0]) ==> |r.1| < |s|)
  {
    if s != [] && IsDigit(s[0]) then Digits(s[1..], n * 10 + (s[0] as int - '0' as int)) else (n, s)
  }

  /** Whether a number stops in front of `s`, with no fraction or exponent. */
  predicate StopsNumber(s: string) {
    s == [] || (s[0] != 'e' && s[0] != 'E' && !(s[0] == '.' && |s| > 1 && IsDigit(s[1])))
  }

  function ParseNumber(s: string): (r: Parsed<Json>)
    requires s != [] && (s[0] == '-' || IsDigit(s[0]))
    ensures r.Ok? ==> |r.rest| < |s|
    ensures !r.Fail?
  {
    var s1 := if s[0] == '-' then s[1..] else s;
    var s2 := if s1 != [] && s1[0] == '0' then s1[1..] else s1;
    var (n, rest) := if s2 != [] && '1' <= s2[0] <= '9' then Digits(s2, 0) else (0, s2);
    var m: int := n;
    var value := if s[0] == '-' then -m else m;
    if StopsNumber(rest) && -0x8000_0000 <= value < 0x8000_0000 then Ok(Number(value), rest) else Outside
  }

  // ----- Strings -----

  function HexValue(c: char): (d: int)
    ensures -1 <= d < 16
  {
    if '0' <= c <= '9' then c as int - '0' as int
    else if 'A' <= c <= 'F' then 10 + (c as int - 'A' as int)
    else if 'a' <= c <= 'f' then 10 + (c as int - 'a' as int)
    else -1
  }

  predicate IsHex4(s: string) {
    |s| >= 4 && HexValue(s[0]) >= 0 && HexValue(s[1]) >= 0 && HexValue(s[2]) >= 0 && HexValue(s[3]) >= 0
  }

  function Hex4(s: string): (h: nat)
    requires IsHex4(s)
    ensures h < 0x1_0000
  {
    HexValue(s[0]) * 0x1000 + HexValue(s[1]) * 0x100 + HexValue(s[2]) * 0x10 + HexValue(s[3])
  }

  /** The bytes of a code point, as section 3 of RFC 3629 encodes it. */
  function Utf8(uc: nat): (bytes: string)
    requires uc < 0x11_0000
    ensures 1 <= |bytes| <= 4
  {
    if uc < 0x80 then [uc as char]
    else if uc < 0x800 then [(0xC0 + uc / 0x40) as char, (0x80 + uc % 0x40) as char]
    else if uc < 0x1_0000 then
      [(0xE0 + uc / 0x1000) as char, (0x80 + uc / 0x40 % 0x40) as char, (0x80 + uc % 0x40) as char]
    else
      [(0xF0 + uc / 0x4_0000) as char, (0x80 + uc / 0x1000 % 0x40) as char,
       (0x80 + uc / 0x40 % 0x40) as char, (0x80 + uc % 0x40) as char]
  }

  /** What a `\u` escape stands for and how many characters it takes after the `u`; a
      zero, a lone low surrogate and a high surrogate without its partner stand for
      nothing. */
  datatype Unit = Unit(bytes: string, used: nat) | BadUnit

  function ParseUnit(s: string): (u: Unit)
    ensures u.Unit? ==> 4 <= u.used <= |s| && |u.bytes| <= 4
  {
    if !IsHex4(s) then BadUnit
    else
      var uc := Hex4(s);
      if 0xDC00 <= uc <= 0xDFFF || uc == 0 then Unit([], 4)
      else if uc < 0xD800 || uc > 0xDFFF then Unit(Utf8(uc), 4)
      else if |s| < 6 || s[4] != '\\' || s[5] != 'u' then Unit([], 4)
      else if !IsHex4(s[6..]) then BadUnit
      else
        var uc2 := Hex4(s[6..]);
        if uc2 < 0xDC00 || uc2 > 0xDFFF then Unit([], 10)
        else Unit(Utf8(0x1_0000 + uc % 0x400 * 0x400 + uc2 % 0x400), 10)
  }

  function Prepend(bytes: string, r: Parsed<string>): Parsed<string> {
    if r.Ok? then Ok(bytes + r.value, r.rest) else r
  }

  function Unescape(c: char): char {
    match c
    case 'b' => '\U{8}'
    case 'f' => '\U{c}'
    case 'n' => '\n'
    case 'r' => '\r'
    case 't' => '\t'
    case _ => c
  }

  /** One character or escape inside a string literal: its bytes and its length. */
  datatype Step = Step(bytes: string, used: nat) | Cut

  function NextStep(s: string): (p: Step)
    requires s != []
    ensures p.Step? ==> 1 <= p.used <= |s|
  {
    if s[0] != '\\' then Step([s[0]], 1)
    else if |s| == 1 then Cut
    else if s[1] != 'u' then Step([Unescape(s[1])], 2)
    else
      var u := ParseUnit(s[2..]);
      if u.Unit? then Step(u.bytes, 2 + u.used) else Cut
  }

  /** The rest of a string literal; a literal may end with the text. */
  function StringBody(s: string): (r: Parsed<string>)
    ensures r.Ok? ==> |r.rest| <= |s|
    ensures !r.Fail?
    decreases |s|
  {
    if s == [] then Ok([], [])
    else if s[0] == '\"' then Ok([], s[1..])
    else
      var p := NextStep(s);
      if p.Cut? then Outside else Prepend(p.bytes, StringBody(s[p.used..]))
  }

  function ParseString(s: string): (r: Parsed<string>)
    ensures r.Ok? ==> |r.rest| < |s|
    ensures r.Fail? ==> s == [] || s[0] != '\"'
  {
    if s == [] || s[0] != '\"' then Fail(s) else StringBody(s[1..])
  }

  // ----- Values -----

  function ParseValue(s: string): (r: Parsed<Json>)
    ensures r.Ok? ==> |r.rest| < |s|
    decreases |s|, 1
  {
    if StartsWith(s, "null") then Ok(Null, s[4..])
    else if StartsWith(s, "false") then Ok(False, s[5..])
    else if StartsWith(s, "true") then Ok(True, s[4..])
    else if s == [] then Fail(s)
    else if s[0] == '\"' then
      var r := ParseString(s);
      if r.Ok? then Ok(String(r.value), r.rest) else if r.Fail? then Fail(r.at) else Outside
    else if s[0] == '-' || IsDigit(s[0]) then ParseNumber(s)
    else if s[0] == '[' then ParseArray(s)
    else if s[0] == '{' then ParseObject(s)
    else Fail(s)
  }

  function ParseArray(s: string): (r: Parsed<Json>)
    requires s != []
    ensures r.Ok? ==> |r.rest| < |s|
    decreases |s|, 0
  {
    var t := Skip(s[1..]);
    if t != [] && t[0] == ']' then Ok(Array(NoItems), t[1..])
    else
      var r := ParseItems(t);
      if r.Ok? then Ok(Array(r.value), r.rest) else if r.Fail? then Fail(r.at) else Outside
  }

  function ParseObject(s: string): (r: Parsed<Json>)
    requires s != []
    ensures r.Ok? ==> |r.rest| < |s|
    decreases |s|, 0
  {
    var t := Skip(s[1..]);
    if t != [] && t[0] == '}' then Ok(Object(NoMembers), t[1..])
    else
      var r := ParseMembers(t);
      if r.Ok? then Ok(Object(r.value), r.rest) else if r.Fail? then Fail(r.at) else Outside
  }

  function AddItem(v: Json, r: Parsed<Items>): (q: Parsed<Items>)
    ensures q.Ok? <==> r.Ok?
    ensures q.Ok? ==> q.rest == r.rest && q.value.Item?
  {
    if r.Ok? then Ok(Item(v, r.value), r.rest) else r
  }

  function AddMember(name: string, v: Json, r: Parsed<Members>): (q: Parsed<Members>)
    ensures q.Ok? <==> r.Ok?
    ensures q.Ok? ==> q.rest == r.rest && q.value.Member?
  {
    if r.Ok? then Ok(Member(name, v, r.value), r.rest) else r
  }

  /** One or more items and the closing bracket. */
  function ParseItems(s: string): (r: Parsed<Items>)
    ensures r.Ok? ==> |r.rest| < |s|
    decreases |s|, 2
  {
    var v := ParseValue(s);
    if v.Ok? then AddItem(v.value, AfterItem(Skip(v.rest)))
    else if v.Fail? then Fail(v.at)
    else Outside
  }

  /** What follows an item: a comma and more items, or the closing bracket. */
  function AfterItem(t: string): (r: Parsed<Items>)
    ensures r.Ok? ==> |r.rest| < |t|
    decreases |t|, 0
  {
    if t != [] && t[0] == ',' then ParseItems(Skip(t[1..]))
    else if t != [] && t[0] == ']' then Ok(NoItems, t[1..])
    else Fail(t)
  }

  /** One or more members and the closing brace. */
  function ParseMembers(s: string): (r: Parsed<Members>)
    ensures r.Ok? ==> |r.rest| < |s|
    decreases |s|, 2
  {
    var name := ParseString(s);
    if name.Ok? then AfterName(name.value, Skip(name.rest))
    else if name.Fail? then Fail(name.at)
    else Outside
  }

  function AfterName(name: string, t: string): (r: Parsed<Members>)
    ensures r.Ok? ==> |r.rest| < |t|
    decreases |t|, 1
  {
    if t == [] || t[0] != ':' then Fail(t)
    else
      var v := ParseValue(Skip(t[1..]));
      if v.Ok? then AddMember(name, v.value, AfterMember(Skip(v.rest)))
      else if v.Fail? then Fail(v.at)
      else Outside
  }

  function AfterMember(t: string): (r: Parsed<Members>)
    ensures r.Ok? ==> |r.rest| < |t|
    decreases |t|, 0
  {
    if t != [] && t[0] == ',' then ParseMembers(Skip(t[1..]))
    else if t != [] && t[0] == '}' then Ok(NoMembers, t[1..])
    else Fail(t)
  }

  function ParseWithOpts(text: string, requireNullTerminated: bool): Parsed<Json> {
    var r := ParseValue(Skip(text));
    if r.Ok? && requireNullTerminated then
      var end := Skip(r.rest);
      if end == [] then Ok(r.value, end) else Fail(end)
    else r
  }
}
