/** The parser of test/test_cjson/cJSON.c as it runs: a cursor over the text, loops that
    write the decoded string, and items linked one after the other. */
module JsonReader {
  import opened Bits
  import opened JsonText
  import opened JsonParse

  /** The outcome of reading at a position: the value and the position after it, or the
      position of the error. */
  datatype Read<T> = Got(value: T, pos: nat) | Error(at: nat) | Leaves

  /** What was read is what the parser function makes of the text from `start` on. */
  ghost predicate Agrees<T>(text: string, r: Read<T>, p: Parsed<T>) {
    match r
    case Got(v, pos) => pos <= |text| && p == Ok(v, text[pos..])
    case Error(at) => at <= |text| && p == Fail(text[at..])
    case Leaves => p == Outside
  }

  lemma Next(text: string, i: nat)
    requires i < |text|
    ensures text[i..] != [] && text[i..][0] == text[i] && text[i..][1..] == text[i + 1..]
  {
  }

  lemma NextIf(text: string, i: nat)
    requires i <= |text| && NulFree(text)
    ensures text[i..] == [] <==> At(text, i) == NUL
    ensures i < |text| ==> text[i..][0] == At(text, i) && text[i..][1..] == text[i + 1..]
  {
  }

  lemma Further(text: string, i: nat, n: nat)
    requires i + n <= |text|
    ensures |text[i..]| >= n && text[i..][n..] == text[i + n..]
  {
  }

  /** The character at a position; the terminator at the end. */
  function At(text: string, i: nat): char {
    if i < |text| then text[i] else NUL
  }

  method SkipBlanks(text: string, start: nat) returns (pos: nat)
    requires start <= |text|
    ensures pos <= |text| && text[pos..] == Skip(text[start..])
  {
    pos := start;
    while pos < |text| && text[pos] <= ' '
      invariant pos <= |text| && Skip(text[pos..]) == Skip(text[start..])
    {
      Next(text, pos);
      pos := pos + 1;
    }
  }

  method ReadDigits(text: string, start: nat) returns (n: nat, pos: nat)
    requires start < |text| && IsDigit(text[start])
    ensures pos <= |text| && Digits(text[start..], 0) == (n, text[pos..])
  {
    n, pos := 0, start;
    while pos < |text| && IsDigit(text[pos])
      invariant pos <= |text| && Digits(text[pos..], n) == Digits(text[start..], 0)
    {
      Next(text, pos);
      n := n * 10 + (text[pos] as int - '0' as int);
      pos := pos + 1;
    }
  }

  /** Whether a fraction or an exponent follows. */
  method Continues(text: string, pos: nat) returns (more: bool)
    requires pos <= |text|
    ensures more == !StopsNumber(text[pos..])
  {
    if pos + 1 < |text| {
      Further(text, pos, 2);
    }
    more := (At(text, pos) == '.' && IsDigit(At(text, pos + 1))) || At(text, pos) == 'e' || At(text, pos) == 'E';
  }

  method ReadNumber(text: string, start: nat) returns (r: Read<Json>)
    requires start < |text| && (text[start] == '-' || IsDigit(text[start]))
    ensures Agrees(text, r, ParseNumber(text[start..]))
  {
    var num := start;
    var n: nat, minus := 0, false;
    Next(text, num);
    if text[num] == '-' {
      minus := true;
      num := num + 1;
    }
    ghost var s1 := text[num..];
    if At(text, num) == '0' {
      Next(text, num);
      num := num + 1;
    }
    ghost var s2 := text[num..];
    assert s2 == if s1 != [] && s1[0] == '0' then s1[1..] else s1;
    if '1' <= At(text, num) <= '9' {
      n, num := ReadDigits(text, num);
    }
    assert (n, text[num..]) == if s2 != [] && '1' <= s2[0] <= '9' then Digits(s2, 0) else (0, s2);
    var more := Continues(text, num);
    var m: int := n;
    var value := if minus then -m else m;
    if more || !(-0x8000_0000 <= value < 0x8000_0000) {
      r := Leaves;
    } else {
      r := Got(Number(value), num);
    }
  }

  // ----- Strings -----

  /** How many characters the first pass over a string literal counts; negative if the
      literal ends in the middle of an escape. */
  function Scan(s: string): (n: int)
    ensures n >= -1
    decreases |s|
  {
    if s == [] || s[0] == '\"' then 0
    else
      var more := if s[0] != '\\' then Scan(s[1..]) else if |s| == 1 then -1 else Scan(s[2..]);
      if more < 0 then -1 else more + 1
  }

  lemma ScanPlain(s: string, c: char, t: string)
    requires s != [] && s[0] == c && s[1..] == t && c != '\"' && c != '\\'
    ensures Scan(s) == if Scan(t) < 0 then -1 else Scan(t) + 1
  {
  }

  lemma ScanHex(s: string)
    requires IsHex4(s)
    ensures Scan(s) == if Scan(s[4..]) < 0 then -1 else Scan(s[4..]) + 4
  {
    Further(s, 1, 1);
    Further(s, 2, 1);
    Further(s, 3, 1);
    ScanPlain(s, s[0], s[1..]);
    ScanPlain(s[1..], s[1], s[2..]);
    ScanPlain(s[2..], s[2], s[3..]);
    ScanPlain(s[3..], s[3], s[4..]);
  }

  lemma PairScans(h: string)
    requires ParseUnit(h).Unit? && ParseUnit(h).used == 10
    ensures Scan(h[10..]) >= 0 ==> Scan(h[4..]) == Scan(h[10..]) + 5
  {
    assert h[4..][0] == '\\' && h[4..][2..] == h[6..] && h[6..][4..] == h[10..];
    ScanHex(h[6..]);
  }

  /** The count has room for what a `\u` escape decodes to. */
  lemma ScanUnit(h: string)
    requires ParseUnit(h).Unit? && Scan(h) >= 0
    ensures var u := ParseUnit(h); Scan(h[u.used..]) >= 0 && |u.bytes| + Scan(h[u.used..]) <= Scan(h)
  {
    ScanHex(h);
    if ParseUnit(h).used == 10 {
      if Scan(h[10..]) < 0 {
        PairCut(h);
      }
      PairScans(h);
    }
  }

  lemma PairCut(h: string)
    requires ParseUnit(h).Unit? && ParseUnit(h).used == 10 && Scan(h[10..]) < 0
    ensures Scan(h[4..]) < 0
  {
    assert h[4..][0] == '\\' && h[4..][2..] == h[6..] && h[6..][4..] == h[10..];
    ScanHex(h[6..]);
  }

  /** The count has room for what a step decodes to. */
  lemma ScanStep(s: string)
    requires s != [] && s[0] != '\"' && Scan(s) >= 0
    ensures var p := NextStep(s);
            p.Step? ==> Scan(s[p.used..]) >= 0 && |p.bytes| + Scan(s[p.used..]) <= Scan(s)
  {
    var p := NextStep(s);
    if p.Step? && p.used > 2 {
      ScanUnit(s[2..]);
      assert s[2..][p.used - 2..] == s[p.used..];
    }
  }

  /** A literal that ends in the middle of an escape. */
  lemma {:induction false} ScanFails(s: string)
    requires Scan(s) < 0
    ensures StringBody(s).Outside?
    decreases |s|
  {
    var p := NextStep(s);
    if p.Step? {
      if p.used > 2 {
        ScanHex(s[2..]);
        assert s[2..][p.used - 2..] == s[p.used..];
        if p.used == 12 && Scan(s[p.used..]) >= 0 {
          PairScans(s[2..]);
        }
      }
      ScanFails(s[p.used..]);
    }
  }

  method CountString(text: string, start: nat) returns (len: nat, pos: nat)
    requires start <= |text| && NulFree(text)
    ensures pos > |text| ==> Scan(text[start..]) < 0
    ensures pos <= |text| ==> Scan(text[start..]) == len
  {
    len, pos := 0, start;
    while At(text, pos) != '\"' && At(text, pos) != NUL
      invariant pos <= |text| + 1
      invariant pos > |text| ==> Scan(text[start..]) < 0
      invariant pos <= |text| ==>
                  Scan(text[start..]) == if Scan(text[pos..]) < 0 then -1 else len + Scan(text[pos..])
      decreases |text| + 1 - pos
    {
      Next(text, pos);
      len := len + 1;
      var c := text[pos];
      pos := pos + 1;
      if c == '\\' {
        if pos < |text| {
          Further(text, pos - 1, 2);
        }
        pos := pos + 1;
      }
    }
  }

  // ----- Decoding -----

  /** parse_hex4, which here reports a missing digit instead of returning zero. */
  method ReadHex4(text: string, pos: nat) returns (ok: bool, h: nat)
    requires pos <= |text|
    ensures ok == IsHex4(text[pos..]) && (ok ==> h == Hex4(text[pos..]))
  {
    h := 0;
    var c := At(text, pos);
    if HexValue(c) < 0 { return false, 0; }
    h := h + HexValue(c);
    h := h * 16;
    c := At(text, pos + 1);
    if HexValue(c) < 0 { return false, 0; }
    h := h + HexValue(c);
    h := h * 16;
    c := At(text, pos + 2);
    if HexValue(c) < 0 { return false, 0; }
    h := h + HexValue(c);
    h := h * 16;
    c := At(text, pos + 3);
    if HexValue(c) < 0 { return false, 0; }
    h := h + HexValue(c);
    return true, h;
  }

  // ----- The shifts and masks of a code point -----

  lemma SixBits(code: nat)
    ensures code / 0x40 / 0x40 == code / 0x1000 && code / 0x1000 / 0x40 == code / 0x4_0000
  {
  }

  lemma SixUnder(z: nat, l: nat)
    requires l < 0x40
    ensures Shl(z, 6, 0) == z * 0x40 && Shr(Shl(z, 6, 0) + l, 6) == z && Low(Shl(z, 6, 0) + l, 6) == l
  {
    assert Pow2(6) == 0x40;
    ShiftMultiplies(z, 6);
    ShiftsDivide(z * 0x40 + l, 6);
  }

  lemma TailMasked(z: nat, l: nat)
    requires l < 0x40 && And(z, 2) == 2
    ensures And(Shl(z, 6, 0) + l, 0xBF) == 0x80 + l
  {
    assert Shl(2, 6, 1) == 0xBF;
    SixUnder(z, l);
    SixUnder(2, l);
    AndLow(Shl(z, 6, 0) + l, 2, 6);
  }

  /** A trailing byte: the six lowest bits under the mark 10. */
  lemma TailByte(uc: nat)
    ensures And(Or(uc, 0x80), 0xBF) == 0x80 + uc % 0x40 && Shr(uc, 6) == uc / 0x40
  {
    assert Pow2(6) == 0x40 && Shl(2, 6, 0) == 0x80;
    ShiftsDivide(uc, 6);
    OrHigh(uc, 2, 6);
    MarkOfTail(Shr(uc, 6));
    TailMasked(Or(Shr(uc, 6), 2), uc % 0x40);
  }

  lemma MarkOfTail(z: nat)
    ensures And(Or(z, 2), 2) == 2
  {
    OrHalves(z, 2);
    OrHalves(z / 2, 1);
    AndHalves(Or(z, 2), 2);
    AndHalves(Or(z / 2, 1), 1);
  }

  /** The twenty bits of a surrogate pair. */
  lemma {:induction false} PairBits(u: nat, v: nat)
    ensures Or(Shl(And(u, 0x3FF), 10, 0), And(v, 0x3FF)) == u % 0x400 * 0x400 + v % 0x400
  {
    AndMask(u, 10);
    AndMask(v, 10);
    OrCommutes(Shl(And(u, 0x3FF), 10, 0), And(v, 0x3FF));
    OrApart(v % 0x400, u % 0x400, 10);
    ShiftMultiplies(u % 0x400, 10);
  }

  function FirstByteMark(len: nat): nat {
    if len == 2 then 0xC0 else if len == 3 then 0xE0 else if len == 4 then 0xF0 else 0
  }

  /** A leading byte: what is left of the code point under the mark of the length. */
  lemma LeadByte(uc: nat, len: nat)
    requires 1 <= len <= 4 && uc < (if len == 1 then 0x80 else if len == 2 then 0x20 else if len == 3 then 0x10 else 8)
    ensures Or(uc, FirstByteMark(len)) == FirstByteMark(len) + uc
  {
    if len == 1 {
      OrApart(uc, 0, 7);
    } else if len == 2 {
      OrApart(uc, 6, 5);
    } else if len == 3 {
      OrApart(uc, 14, 4);
    } else {
      OrApart(uc, 30, 3);
    }
  }

  /** Writes one trailing byte before `ptr2` and takes its bits off the code point. */
  method PutTail(out: array<char>, ptr2: nat, uc: nat) returns (ptr2': nat, uc': nat)
    requires 0 < ptr2 <= out.Length
    modifies out
    ensures ptr2' == ptr2 - 1 && uc' == uc / 0x40
    ensures out[..] == old(out[..])[ptr2' := (0x80 + uc % 0x40) as char]
  {
    TailByte(uc);
    ptr2' := ptr2 - 1;
    out[ptr2'] := And(Or(uc, 0x80), 0xBF) as char;
    uc' := Shr(uc, 6);
  }

  /** Transcodes a code point into `out` at `w`: the trailing bytes from the last to the
      first, then the leading byte with the mark for the length. */
  method WriteUtf8(out: array<char>, w: nat, code: nat) returns (w': nat)
    requires 0 < code < 0x11_0000 && w + |Utf8(code)| <= out.Length
    modifies out
    ensures w' == w + |Utf8(code)|
    ensures out[..w'] == old(out[..w]) + Utf8(code)
  {
    SixBits(code);
    var uc := code;
    var len := 4;
    if uc < 0x80 {
      len := 1;
    } else if uc < 0x800 {
      len := 2;
    } else if uc < 0x1_0000 {
      len := 3;
    }
    var ptr2 := w + len;
    if len >= 4 {
      ptr2, uc := PutTail(out, ptr2, uc);
    }
    if len >= 3 {
      ptr2, uc := PutTail(out, ptr2, uc);
    }
    if len >= 2 {
      ptr2, uc := PutTail(out, ptr2, uc);
    }
    LeadByte(uc, len);
    ptr2 := ptr2 - 1;
    out[ptr2] := Or(uc, FirstByteMark(len)) as char;
    w' := ptr2 + len;
    assert out[..w'] == old(out[..w]) + Utf8(code);
  }

  /** The part of parse_string that handles an escape after its `u`. */
  method ReadUnit(text: string, pos: nat, out: array<char>, w: nat) returns (ok: bool, used: nat, w': nat)
    requires pos <= |text| && w <= out.Length
    requires ParseUnit(text[pos..]).Unit? ==> w + |ParseUnit(text[pos..]).bytes| <= out.Length
    modifies out
    ensures ok == ParseUnit(text[pos..]).Unit?
    ensures ok ==> used == ParseUnit(text[pos..]).used && w <= w' <= out.Length
    ensures ok ==> out[..w'] == old(out[..w]) + ParseUnit(text[pos..]).bytes
  {
    ghost var s := text[pos..];
    used, w' := 4, w;
    var uc, uc2;
    ok, uc := ReadHex4(text, pos);
    if !ok || (0xDC00 <= uc <= 0xDFFF) || uc == 0 {
      return;
    }
    if 0xD800 <= uc <= 0xDBFF {
      if pos + 6 <= |text| {
        Further(text, pos, 6);
      }
      if At(text, pos + 4) != '\\' || At(text, pos + 5) != 'u' {
        return;
      }
      ok, uc2 := ReadHex4(text, pos + 6);
      used := 10;
      if !ok || uc2 < 0xDC00 || uc2 > 0xDFFF {
        return;
      }
      PairBits(uc, uc2);
      uc := 0x1_0000 + Or(Shl(And(uc, 0x3FF), 10, 0), And(uc2, 0x3FF));
    }
    w' := WriteUtf8(out, w, uc);
  }

  /** Decodes the character or escape at `pos` to `out` at `w`. */
  method ReadStep(text: string, pos: nat, out: array<char>, w: nat) returns (ok: bool, pos': nat, w': nat)
    requires pos < |text| && w <= out.Length
    requires NextStep(text[pos..]).Step? ==> w + |NextStep(text[pos..]).bytes| <= out.Length
    modifies out
    ensures ok == NextStep(text[pos..]).Step?
    ensures ok ==> pos' == pos + NextStep(text[pos..]).used && w <= w' <= out.Length
    ensures ok ==> out[..w'] == old(out[..w]) + NextStep(text[pos..]).bytes
  {
    ok, pos', w' := true, pos + 1, w + 1;
    Next(text, pos);
    if text[pos] != '\\' {
      out[w] := text[pos];
    } else if pos + 1 == |text| {
      ok := false;
    } else {
      Further(text, pos, 2);
      if text[pos + 1] == 'u' {
        var used;
        ok, used, w' := ReadUnit(text, pos + 2, out, w);
        pos' := pos + 2 + used;
      } else {
        out[w] := Unescape(text[pos + 1]);
        pos' := pos + 2;
      }
    }
  }

  /** Of the literal `body`, `done` has been decoded and `rest` is left. */
  ghost predicate Decoding(body: string, done: string, rest: string) {
    StringBody(body) == Prepend(done, StringBody(rest))
  }

  lemma DecodingStarts(body: string)
    ensures Decoding(body, [], body)
  {
    if StringBody(body).Ok? {
      assert [] + StringBody(body).value == StringBody(body).value;
    }
  }

  lemma DecodingSteps(body: string, done: string, s: string, done': string)
    requires Decoding(body, done, s) && s != [] && s[0] != '\"'
    ensures var p := NextStep(s);
            if p.Cut? then StringBody(body).Outside?
            else done' == done + p.bytes ==> Decoding(body, done', s[p.used..])
  {
    var p := NextStep(s);
    if p.Step? {
      var r := StringBody(s[p.used..]);
      if r.Ok? {
        assert done + (p.bytes + r.value) == done + p.bytes + r.value;
      }
    }
  }

  lemma DecodingEnds(body: string, done: string, rest: string)
    requires Decoding(body, done, rest)
    requires rest == [] || rest[0] == '\"'
    ensures StringBody(body) == Ok(done, if rest == [] then [] else rest[1..])
  {
    assert done + [] == done;
  }

  /** The output has room for what the count says is left. */
  ghost predicate Room(s: string, w: nat, len: nat)
    ensures Room(s, w, len) ==> w <= len
  {
    0 <= Scan(s) <= len - w
  }

  lemma RoomStep(s: string, w: nat, len: nat)
    requires Room(s, w, len) && s != [] && s[0] != '\"'
    ensures var p := NextStep(s);
            p.Step? ==> Room(s[p.used..], w + |p.bytes|, len)
  {
    ScanStep(s);
  }

  method DecodeOne(text: string, ptr: nat, out: array<char>, w: nat, len: nat, ghost body: string, ghost s: string)
    returns (ok: bool, ptr': nat, w': nat)
    requires ptr < |text| && s == text[ptr..] && s[0] != '\"' && out.Length == len + 1
    requires Room(s, w, len) && Decoding(body, out[..w], s)
    modifies out
    ensures !ok ==> StringBody(body).Outside?
    ensures ok ==> ptr < ptr' <= |text| && Room(text[ptr'..], w', len)
    ensures ok ==> Decoding(body, out[..w'], text[ptr'..])
  {
    ghost var done, p := out[..w], NextStep(s);
    RoomStep(s, w, len);
    ok, ptr', w' := ReadStep(text, ptr, out, w);
    DecodingSteps(body, done, s, if ok then out[..w'] else done);
    if ok {
      Further(text, ptr, p.used);
    }
  }

  /** The second pass over a literal whose length was counted. */
  method DecodeString(text: string, start: nat, len: nat) returns (r: Read<string>)
    requires start <= |text| && NulFree(text) && Scan(text[start..]) == len
    ensures Agrees(text, r, StringBody(text[start..]))
  {
    ghost var body := text[start..];
    var out := new char[len + 1];
    var ptr: nat, w: nat := start, 0;
    DecodingStarts(body);
    assert out[..0] == [];
    while At(text, ptr) != '\"' && At(text, ptr) != NUL
      invariant ptr <= |text| && Room(text[ptr..], w, len)
      invariant Decoding(body, out[..w], text[ptr..])
      decreases |text| - ptr
    {
      var ok;
      Next(text, ptr);
      ok, ptr, w := DecodeOne(text, ptr, out, w, len, body, text[ptr..]);
      if !ok {
        return Leaves;
      }
    }
    ghost var decoded := out[..w];
    out[w] := NUL;
    assert out[..w] == decoded;
    DecodingEnds(body, decoded, text[ptr..]);
    if At(text, ptr) == '\"' {
      Next(text, ptr);
      ptr := ptr + 1;
    }
    r := Got(out[..w], ptr);
  }

  method ReadString(text: string, start: nat) returns (r: Read<string>)
    requires start <= |text| && NulFree(text)
    ensures Agrees(text, r, ParseString(text[start..]))
  {
    if At(text, start) != '\"' {
      return Error(start);
    }
    Next(text, start);
    var len, end := CountString(text, start + 1);
    if end > |text| {
      ScanFails(text[start + 1..]);
      return Leaves;
    }
    r := DecodeString(text, start + 1, len);
  }

  // ----- Values -----

  /** The chain of the items read so far in front of what is still to be read. */
  function WithItems(vals: seq<Json>, r: Parsed<Items>): Parsed<Items> {
    if vals == [] then r else WithItems(vals[..|vals| - 1], AddItem(vals[|vals| - 1], r))
  }

  function WithMembers(pairs: seq<(string, Json)>, r: Parsed<Members>): Parsed<Members> {
    if pairs == [] then r
    else WithMembers(pairs[..|pairs| - 1], AddMember(pairs[|pairs| - 1].0, pairs[|pairs| - 1].1, r))
  }

  function Chain(vals: seq<Json>, next: Items): Items {
    if vals == [] then next else Chain(vals[..|vals| - 1], Item(vals[|vals| - 1], next))
  }

  function MemberChain(pairs: seq<(string, Json)>, next: Members): Members {
    if pairs == [] then next
    else MemberChain(pairs[..|pairs| - 1], Member(pairs[|pairs| - 1].0, pairs[|pairs| - 1].1, next))
  }

  lemma {:induction false} WithItemsResult(vals: seq<Json>, r: Parsed<Items>)
    ensures WithItems(vals, r) == if r.Ok? then Ok(Chain(vals, r.value), r.rest) else r
  {
    if vals != [] {
      WithItemsResult(vals[..|vals| - 1], AddItem(vals[|vals| - 1], r));
    }
  }

  lemma {:induction false} WithMembersResult(pairs: seq<(string, Json)>, r: Parsed<Members>)
    ensures WithMembers(pairs, r) == if r.Ok? then Ok(MemberChain(pairs, r.value), r.rest) else r
  {
    if pairs != [] {
      WithMembersResult(pairs[..|pairs| - 1], AddMember(pairs[|pairs| - 1].0, pairs[|pairs| - 1].1, r));
    }
  }

  lemma WithItem(vals: seq<Json>, v: Json, r: Parsed<Items>)
    ensures WithItems(vals + [v], r) == WithItems(vals, AddItem(v, r))
  {
    assert (vals + [v])[..|vals|] == vals;
  }

  lemma WithMember(pairs: seq<(string, Json)>, name: string, v: Json, r: Parsed<Members>)
    ensures WithMembers(pairs + [(name, v)], r) == WithMembers(pairs, AddMember(name, v, r))
  {
    assert (pairs + [(name, v)])[..|pairs|] == pairs;
  }

  /** The items from `first` on: `vals` have been read and `t` comes next. */
  ghost predicate ReadingItems(first: string, vals: seq<Json>, t: string) {
    ParseItems(first) == WithItems(vals, AfterItem(t))
  }

  lemma ItemsStart(first: string, v: Json, t: string)
    requires ParseItems(first) == AddItem(v, AfterItem(t))
    ensures ReadingItems(first, [v], t)
  {
    WithItem([], v, AfterItem(t));
    assert [] + [v] == [v];
  }

  lemma ItemsStep(first: string, vals: seq<Json>, t: string, v: Json, t': string)
    requires ReadingItems(first, vals, t) && t != [] && t[0] == ','
    ensures var p := ParseItems(Skip(t[1..]));
            && (p == AddItem(v, AfterItem(t')) ==> ReadingItems(first, vals + [v], t'))
            && (!p.Ok? ==> ParseItems(first) == p)
  {
    WithItemsResult(vals, AfterItem(t));
    WithItem(vals, v, AfterItem(t'));
  }

  lemma ItemsEnd(first: string, vals: seq<Json>, t: string)
    requires ReadingItems(first, vals, t) && (t == [] || t[0] != ',')
    ensures ParseItems(first) == if t != [] && t[0] == ']' then Ok(Chain(vals, NoItems), t[1..]) else Fail(t)
  {
    WithItemsResult(vals, AfterItem(t));
  }

  /** The members from `first` on: `pairs` have been read and `t` comes next. */
  ghost predicate ReadingMembers(first: string, pairs: seq<(string, Json)>, t: string) {
    ParseMembers(first) == WithMembers(pairs, AfterMember(t))
  }

  lemma MembersStart(first: string, name: string, v: Json, t: string)
    requires ParseMembers(first) == AddMember(name, v, AfterMember(t))
    ensures ReadingMembers(first, [(name, v)], t)
  {
    WithMember([], name, v, AfterMember(t));
    assert [] + [(name, v)] == [(name, v)];
  }

  lemma MembersStep(first: string, pairs: seq<(string, Json)>, t: string, name: string, v: Json, t': string)
    requires ReadingMembers(first, pairs, t) && t != [] && t[0] == ','
    ensures var p := ParseMembers(Skip(t[1..]));
            && (p == AddMember(name, v, AfterMember(t')) ==>
                  ReadingMembers(first, pairs + [(name, v)], t'))
            && (!p.Ok? ==> ParseMembers(first) == p)
  {
    WithMembersResult(pairs, AfterMember(t));
    WithMember(pairs, name, v, AfterMember(t'));
  }

  lemma MembersEnd(first: string, pairs: seq<(string, Json)>, t: string)
    requires ReadingMembers(first, pairs, t) && (t == [] || t[0] != ',')
    ensures ParseMembers(first) ==
            if t != [] && t[0] == '}' then Ok(MemberChain(pairs, NoMembers), t[1..]) else Fail(t)
  {
    WithMembersResult(pairs, AfterMember(t));
  }

  method StartsHere(text: string, start: nat, word: string) returns (b: bool)
    requires start <= |text|
    ensures b == StartsWith(text[start..], word)
  {
    var i := 0;
    while i < |word|
      invariant i <= |word| && start + i <= |text|
      invariant StartsWith(text[start..], word) == StartsWith(text[start + i..], word[i..])
    {
      if start + i >= |text| || text[start + i] != word[i] {
        return false;
      }
      Next(text, start + i);
      assert word[i..][1..] == word[i + 1..];
      i := i + 1;
    }
    return true;
  }

  method ReadValue(text: string, start: nat) returns (r: Read<Json>)
    requires start <= |text| && NulFree(text)
    ensures Agrees(text, r, ParseValue(text[start..]))
    ensures r.Got? ==> start < r.pos
    decreases |text| - start, 6
  {
    var isNull := StartsHere(text, start, "null");
    if isNull {
      Further(text, start, 4);
      return Got(Null, start + 4);
    }
    var isFalse := StartsHere(text, start, "false");
    if isFalse {
      Further(text, start, 5);
      return Got(False, start + 5);
    }
    var isTrue := StartsHere(text, start, "true");
    if isTrue {
      Further(text, start, 4);
      return Got(True, start + 4);
    }
    if start == |text| {
      return Error(start);
    }
    Next(text, start);
    if text[start] == '\"' {
      var s := ReadString(text, start);
      match s {
        case Got(v, pos) => r := Got(String(v), pos);
        case Error(at) => r := Error(at);
        case Leaves => r := Leaves;
      }
    } else if text[start] == '-' || IsDigit(text[start]) {
      r := ReadNumber(text, start);
    } else if text[start] == '[' {
      r := ReadArray(text, start);
    } else if text[start] == '{' {
      r := ReadObject(text, start);
    } else {
      r := Error(start);
    }
  }

  method ReadArray(text: string, start: nat) returns (r: Read<Json>)
    requires start < |text| && NulFree(text) && text[start] == '['
    ensures Agrees(text, r, ParseArray(text[start..]))
    ensures r.Got? ==> start < r.pos
    decreases |text| - start, 4
  {
    Next(text, start);
    var value := SkipBlanks(text, start + 1);
    NextIf(text, value);
    if At(text, value) == ']' {
      return Got(Array(NoItems), value + 1);
    }
    var items := ReadItems(text, value);
    match items {
      case Got(v, pos) => r := Got(Array(v), pos);
      case Error(at) => r := Error(at);
      case Leaves => r := Leaves;
    }
  }

  method ReadItem(text: string, start: nat) returns (r: Read<Json>)
    requires start <= |text| && NulFree(text)
    ensures r.Error? ==> r.at <= |text| && ParseItems(text[start..]) == Fail(text[r.at..])
    ensures r.Leaves? ==> ParseItems(text[start..]) == Outside
    ensures r.Got? ==>
              && start < r.pos <= |text|
              && ParseItems(text[start..]) == AddItem(r.value, AfterItem(Skip(text[r.pos..])))
    decreases |text| - start, 7
  {
    r := ReadValue(text, start);
  }

  /** The comma at `comma` and the item after it. */
  method NextItem(text: string, comma: nat, ghost first: string, ghost vals: seq<Json>)
    returns (r: Read<Json>, value: nat)
    requires comma < |text| && NulFree(text) && text[comma] == ','
    requires ReadingItems(first, vals, text[comma..])
    ensures r.Error? ==> r.at <= |text| && ParseItems(first) == Fail(text[r.at..])
    ensures r.Leaves? ==> ParseItems(first) == Outside
    ensures r.Got? ==> comma < value <= |text| && ReadingItems(first, vals + [r.value], text[value..])
    decreases |text| - comma, 0
  {
    Next(text, comma);
    ghost var t := text[comma..];
    value := SkipBlanks(text, comma + 1);
    r := ReadItem(text, value);
    if r.Got? {
      value := SkipBlanks(text, r.pos);
      ItemsStep(first, vals, t, r.value, text[value..]);
    } else {
      ItemsStep(first, vals, t, Null, t);
    }
  }

  /** The items of an array that is not empty, linked one after the other. */
  method ReadItems(text: string, start: nat) returns (r: Read<Items>)
    requires start <= |text| && NulFree(text)
    ensures Agrees(text, r, ParseItems(text[start..]))
    ensures r.Got? ==> start < r.pos
    decreases |text| - start, 8
  {
    ghost var first := text[start..];
    var child := ReadItem(text, start);
    if child.Error? { return Error(child.at); }
    if child.Leaves? { return Leaves; }
    var vals := [child.value];
    var value := SkipBlanks(text, child.pos);
    ItemsStart(first, child.value, text[value..]);
    while At(text, value) == ','
      invariant start < value <= |text|
      invariant ReadingItems(first, vals, text[value..])
      decreases |text| - value
    {
      child, value := NextItem(text, value, first, vals);
      if child.Error? { return Error(child.at); }
      if child.Leaves? { return Leaves; }
      vals := vals + [child.value];
    }
    NextIf(text, value);
    ItemsEnd(first, vals, text[value..]);
    if At(text, value) == ']' {
      return Got(Chain(vals, NoItems), value + 1);
    }
    return Error(value);
  }

  /** A name, a colon and a value. */
  method ReadPair(text: string, start: nat) returns (r: Read<(string, Json)>)
    requires start <= |text| && NulFree(text)
    ensures r.Error? ==> r.at <= |text| && ParseMembers(text[start..]) == Fail(text[r.at..])
    ensures r.Leaves? ==> ParseMembers(text[start..]) == Outside
    ensures r.Got? ==>
              && start < r.pos <= |text|
              && ParseMembers(text[start..]) == AddMember(r.value.0, r.value.1, AfterMember(Skip(text[r.pos..])))
    decreases |text| - start, 3
  {
    var name := ReadString(text, start);
    if name.Error? { return Error(name.at); }
    if name.Leaves? { return Leaves; }
    var value := SkipBlanks(text, name.pos);
    assert ParseMembers(text[start..]) == AfterName(name.value, text[value..]);
    var v := ReadNamed(text, value, name.value);
    match v {
      case Got(json, pos) => r := Got((name.value, json), pos);
      case Error(at) => r := Error(at);
      case Leaves => r := Leaves;
    }
  }

  /** The colon after a name and the value. */
  method ReadNamed(text: string, start: nat, ghost name: string) returns (r: Read<Json>)
    requires start <= |text| && NulFree(text)
    ensures r.Error? ==> r.at <= |text| && AfterName(name, text[start..]) == Fail(text[r.at..])
    ensures r.Leaves? ==> AfterName(name, text[start..]) == Outside
    ensures r.Got? ==>
              && start < r.pos <= |text|
              && AfterName(name, text[start..]) == AddMember(name, r.value, AfterMember(Skip(text[r.pos..])))
    decreases |text| - start, 3
  {
    NextIf(text, start);
    if At(text, start) != ':' {
      return Error(start);
    }
    var value := SkipBlanks(text, start + 1);
    r := ReadValue(text, value);
  }

  method ReadObject(text: string, start: nat) returns (r: Read<Json>)
    requires start < |text| && NulFree(text) && text[start] == '{'
    ensures Agrees(text, r, ParseObject(text[start..]))
    ensures r.Got? ==> start < r.pos
    decreases |text| - start, 5
  {
    Next(text, start);
    var value := SkipBlanks(text, start + 1);
    NextIf(text, value);
    if At(text, value) == '}' {
      return Got(Object(NoMembers), value + 1);
    }
    var members := ReadMembers(text, value);
    match members {
      case Got(v, pos) => r := Got(Object(v), pos);
      case Error(at) => r := Error(at);
      case Leaves => r := Leaves;
    }
  }

  /** The comma at `comma` and the member after it. */
  method NextMember(text: string, comma: nat, ghost first: string, ghost pairs: seq<(string, Json)>)
    returns (r: Read<(string, Json)>, value: nat)
    requires comma < |text| && NulFree(text) && text[comma] == ','
    requires ReadingMembers(first, pairs, text[comma..])
    ensures r.Error? ==> r.at <= |text| && ParseMembers(first) == Fail(text[r.at..])
    ensures r.Leaves? ==> ParseMembers(first) == Outside
    ensures r.Got? ==> comma < value <= |text| && ReadingMembers(first, pairs + [r.value], text[value..])
    decreases |text| - comma, 0
  {
    Next(text, comma);
    ghost var t := text[comma..];
    value := SkipBlanks(text, comma + 1);
    r := ReadPair(text, value);
    if r.Got? {
      value := SkipBlanks(text, r.pos);
      MembersStep(first, pairs, t, r.value.0, r.value.1, text[value..]);
    } else {
      MembersStep(first, pairs, t, "", Null, t);
    }
  }

  /** The members of an object that is not empty, linked one after the other. */
  method ReadMembers(text: string, start: nat) returns (r: Read<Members>)
    requires start <= |text| && NulFree(text)
    ensures Agrees(text, r, ParseMembers(text[start..]))
    ensures r.Got? ==> start < r.pos
    decreases |text| - start, 4
  {
    ghost var first := text[start..];
    var child := ReadPair(text, start);
    if child.Error? { return Error(child.at); }
    if child.Leaves? { return Leaves; }
    var pairs := [child.value];
    var value := SkipBlanks(text, child.pos);
    MembersStart(first, child.value.0, child.value.1, text[value..]);
    while At(text, value) == ','
      invariant start < value <= |text|
      invariant ReadingMembers(first, pairs, text[value..])
      decreases |text| - value
    {
      child, value := NextMember(text, value, first, pairs);
      if child.Error? { return Error(child.at); }
      if child.Leaves? { return Leaves; }
      pairs := pairs + [child.value];
    }
    NextIf(text, value);
    MembersEnd(first, pairs, text[value..]);
    if At(text, value) == '}' {
      return Got(MemberChain(pairs, NoMembers), value + 1);
    }
    return Error(value);
  }

  /** cJSON_ParseWithOpts. */
  method Parse(text: string, requireNullTerminated: bool) returns (r: Read<Json>)
    requires NulFree(text)
    ensures Agrees(text, r, ParseWithOpts(text, requireNullTerminated))
  {
    assert text[0..] == text;
    var value := SkipBlanks(text, 0);
    r := ReadValue(text, value);
    if r.Got? && requireNullTerminated {
      var end := SkipBlanks(text, r.pos);
      if end < |text| {
        return Error(end);
      }
      r := Got(r.value, end);
    }
  }
}
