/** Parsing what was printed gives back the value, whatever the format. */
module JsonRoundTrip {
  import opened JsonText
  import opened JsonParse
  import opened JsonLayout

  // ----- Blanks -----

  lemma {:induction false} SkipTabs(n: int, s: string)
    ensures Skip(Tabs(n, s)) == Skip(s)
    decreases n
  {
    if n > 0 {
      SkipTabs(n - 1, s);
    }
  }

  lemma SkipBlank(c: char, s: string)
    ensures c <= ' ' ==> Skip(Cons(c, s)) == Skip(s)
    ensures c > ' ' ==> Skip(Cons(c, s)) == Cons(c, s)
  {
  }

  // ----- Numbers -----

  lemma {:induction false} DecimalDigits(n: nat, rest: string)
    ensures Digits(Decimal(n, rest), 0) == Digits(rest, n)
    ensures Decimal(n, rest) != [] && IsDigit(Decimal(n, rest)[0])
    ensures n > 0 ==> Decimal(n, rest)[0] != '0'
    ensures n == 0 ==> Decimal(n, rest) == Cons('0', rest)
  {
    if n >= 10 {
      DecimalDigits(n / 10, Cons(Digit(n % 10), rest));
    }
  }

  /** Text in front of which a number ends. */
  predicate EndsNumber(rest: string) {
    StopsNumber(rest) && (rest == [] || !IsDigit(rest[0]))
  }

  lemma NumberRoundTrip(n: Int32, rest: string)
    requires EndsNumber(rest)
    ensures NumberText(n, rest) != [] && (NumberText(n, rest)[0] == '-' || IsDigit(NumberText(n, rest)[0]))
    ensures ParseNumber(NumberText(n, rest)) == Ok(Number(n), rest)
  {
    var m: int := n;
    DecimalDigits(if m < 0 then -m else m, rest);
  }

  /** One leading zero is read over, with or without the sign; a second one ends the number. */
  lemma LeadingZero(n: Int32, rest: string)
    requires n > 0 && EndsNumber(rest)
    ensures ParseNumber("0" + Decimal(n, rest)) == Ok(Number(n), rest)
    ensures ParseNumber("-0" + Decimal(n, rest)) == Ok(Number(-n), rest)
    ensures ParseNumber("00" + rest) == Ok(Number(0), "0" + rest)
    ensures ParseNumber("-0" + rest) == Ok(Number(0), rest)
  {
    DecimalDigits(n, rest);
    var d := Decimal(n, rest);
    assert ("0" + d)[1..] == d && ("-0" + d)[1..] == "0" + d;
    assert ("00" + rest)[1..] == "0" + rest && ("-0" + rest)[1..] == "0" + rest;
    assert ("0" + rest)[1..] == rest;
  }

  // ----- Strings -----

  lemma HexRoundTrip(d: nat)
    requires d < 16
    ensures HexValue(HexDigit(d)) == d
  {
  }

  lemma ControlRoundTrip(c: char, t: string, h: string)
    requires NUL < c < ' '
    requires h == Cons('0', Cons('0', Cons(HexDigit(c as int / 16), Cons(HexDigit(c as int % 16), t))))
    ensures ParseUnit(h) == Unit([c], 4) && h[4..] == t
  {
    HexRoundTrip(c as int / 16);
    HexRoundTrip(c as int % 16);
    assert h == ['0', '0', HexDigit(c as int / 16), HexDigit(c as int % 16)] + t;
    assert Hex4(h) == c as int;
  }

  lemma PlainRoundTrip(c: char, t: string)
    requires c != '\"' && c != '\\'
    ensures StringBody(Cons(c, t)) == Prepend([c], StringBody(t))
  {
  }

  lemma ShortUnescapes(c: char)
    ensures ShortEscape(c) != NUL ==> Unescape(ShortEscape(c)) == c && ShortEscape(c) != 'u'
    ensures ShortEscape(c) == NUL ==> c != '\\' && c != '\"'
  {
  }

  lemma ShortRoundTrip(e: char, t: string)
    requires e != 'u'
    ensures StringBody(Cons('\\', Cons(e, t))) == Prepend([Unescape(e)], StringBody(t))
  {
    var s := Cons('\\', Cons(e, t));
    assert s[2..] == s[1..][1..];
  }

  lemma EscapeRoundTrip(c: char, t: string)
    requires c != NUL
    ensures StringBody(Escape(c, t)) == Prepend([c], StringBody(t))
  {
    ShortUnescapes(c);
    if ShortEscape(c) != NUL {
      ShortRoundTrip(ShortEscape(c), t);
    } else if c < ' ' {
      var h := Cons('0', Cons('0', Cons(HexDigit(c as int / 16), Cons(HexDigit(c as int % 16), t))));
      ControlRoundTrip(c, t, h);
      UnitInBody(h);
    } else {
      PlainRoundTrip(c, t);
    }
  }

  lemma {:induction false} UnitInBody(h: string)
    ensures var u := ParseUnit(h);
            StringBody(Cons('\\', Cons('u', h))) ==
              if u.BadUnit? then Outside else Prepend(u.bytes, StringBody(h[u.used..]))
  {
    var s := Cons('\\', Cons('u', h));
    assert s[2..] == s[1..][1..] == h;
    var u := ParseUnit(h);
    if u.Unit? {
      assert s[2 + u.used..] == s[2..][u.used..];
    }
  }

  lemma {:induction false} EscapedRoundTrip(s: string, rest: string)
    requires NulFree(s)
    ensures StringBody(Escaped(s, Cons('\"', rest))) == Ok(s, rest)
    decreases |s|
  {
    if s != [] {
      var t := Escaped(s[1..], Cons('\"', rest));
      EscapedRoundTrip(s[1..], rest);
      EscapeRoundTrip(s[0], t);
      assert [s[0]] + s[1..] == s;
    }
  }

  lemma StringRoundTrip(s: string, rest: string)
    requires NulFree(s)
    ensures ParseString(Quoted(s, rest)) == Ok(s, rest)
  {
    EscapedRoundTrip(s, rest);
  }

  /** Characters that a string literal holds as they are. */
  predicate Verbatim(s: string) {
    s != [] ==> s[0] >= ' ' && s[0] != '\"' && s[0] != '\\' && Verbatim(s[1..])
  }

  lemma {:induction false} EscapesLengthen(s: string)
    ensures |Escaped(s, "")| >= |s|
    ensures |Escaped(s, "")| == |s| <==> Verbatim(s)
    ensures Verbatim(s) ==> Escaped(s, "") == s
  {
    if s != [] {
      EscapesLengthen(s[1..]);
      assert s == Cons(s[0], s[1..]);
    }
  }

  /** A string is printed as it is, between its quotes, exactly when it holds no control
      character, quote or backslash. */
  lemma PrintedVerbatim(s: string)
    ensures Quoted(s, "") == "\"" + s + "\"" <==> Verbatim(s)
  {
    EscapesLengthen(s);
    EscapedAppend(s, "\"");
    assert Cons('\"', "") == "\"";
    assert Quoted(s, "")[1..] == Escaped(s, "") + "\"";
    assert ("\"" + s + "\"")[1..] == s + "\"";
  }

  // ----- Values -----

  /** A value starts with a character that is no blank and closes nothing. */
  lemma FirstCharacter(v: Json, depth: nat, fmt: bool, rest: string)
    ensures var s := Text(v, depth, fmt, rest);
            s != [] && s[0] > ' ' && s[0] != ']' && s[0] != '}'
  {
    if v.Number? {
      var m: int := v.n;
      DecimalDigits(if m < 0 then -m else m, rest);
    }
  }

  lemma ItemsFirst(items: Items, depth: nat, fmt: bool, rest: string)
    requires items.Item?
    ensures var s := ItemsText(items, depth, fmt, rest);
            s != [] && s[0] > ' ' && s[0] != ']'
  {
    if items.next.NoItems? {
      FirstCharacter(items.value, depth, fmt, rest);
    } else {
      var tail := ItemsText(items.next, depth, fmt, rest);
      FirstCharacter(items.value, depth, fmt, Cons(',', if fmt then Cons(' ', tail) else tail));
    }
  }

  lemma NoWord(s: string)
    requires s != [] && s[0] != 'n' && s[0] != 'f' && s[0] != 't'
    ensures !StartsWith(s, "null") && !StartsWith(s, "false") && !StartsWith(s, "true")
  {
  }

  lemma {:induction false} WordStarts(w: string, rest: string)
    ensures StartsWith(Word(w, rest), w) && Word(w, rest)[|w|..] == rest
  {
    if w != [] {
      WordStarts(w[1..], rest);
      assert Word(w, rest)[1..] == Word(w[1..], rest);
    }
  }

  lemma WordRoundTrip(v: Json, depth: nat, fmt: bool, rest: string)
    requires v.Null? || v.False? || v.True?
    ensures ParseValue(Text(v, depth, fmt, rest)) == Ok(v, rest)
  {
    match v
    case Null => WordStarts("null", rest);
    case False => WordStarts("false", rest);
    case True => WordStarts("true", rest);
  }

  lemma ScalarRoundTrip(v: Json, depth: nat, fmt: bool, rest: string)
    requires Clean(v) && EndsNumber(rest) && (v.Number? || v.String?)
    ensures ParseValue(Text(v, depth, fmt, rest)) == Ok(v, rest)
  {
    FirstCharacter(v, depth, fmt, rest);
    if v.Number? {
      NumberRoundTrip(v.n, rest);
    } else {
      StringRoundTrip(v.s, rest);
    }
    NoWord(Text(v, depth, fmt, rest));
  }

  lemma ArrayParses(s: string, items: Items, rest: string)
    requires s != [] && s[0] == '['
    requires var t := Skip(s[1..]); t != [] && t[0] != ']' && ParseItems(t) == Ok(items, rest)
    ensures ParseValue(s) == Ok(Array(items), rest)
  {
    NoWord(s);
  }

  lemma {:induction false} ObjectParses(s: string, members: Members, rest: string)
    requires s != [] && s[0] == '{'
    requires var t := Skip(s[1..]); t != [] && t[0] != '}' && ParseMembers(t) == Ok(members, rest)
    ensures ParseValue(s) == Ok(Object(members), rest)
  {
    NoWord(s);
  }

  lemma EmptyRoundTrip(v: Json, depth: nat, fmt: bool, rest: string)
    requires v == Array(NoItems) || v == Object(NoMembers)
    ensures ParseValue(Text(v, depth, fmt, rest)) == Ok(v, rest)
  {
    NoWord(Text(v, depth, fmt, rest));
    if v.Object? && fmt {
      SkipTabs(depth - 1, Cons('}', rest));
      SkipBlank('\n', Tabs(depth - 1, Cons('}', rest)));
    }
  }

  /** Parsing the text of a value consumes exactly that text and gives the value back. */
  lemma {:induction false} ValueRoundTrip(v: Json, depth: nat, fmt: bool, rest: string)
    requires Clean(v) && EndsNumber(rest)
    ensures ParseValue(Text(v, depth, fmt, rest)) == Ok(v, rest)
    decreases v
  {
    match v
    case Null => WordRoundTrip(v, depth, fmt, rest);
    case False => WordRoundTrip(v, depth, fmt, rest);
    case True => WordRoundTrip(v, depth, fmt, rest);
    case Number(n) => ScalarRoundTrip(v, depth, fmt, rest);
    case String(s) => ScalarRoundTrip(v, depth, fmt, rest);
    case Array(items) =>
      if items.NoItems? {
        EmptyRoundTrip(v, depth, fmt, rest);
      } else {
        ItemsFirst(items, depth + 1, fmt, Cons(']', rest));
        ItemsRoundTrip(items, depth + 1, fmt, rest);
        ArrayParses(Text(v, depth, fmt, rest), items, rest);
      }
    case Object(members) =>
      if members.NoMembers? {
        EmptyRoundTrip(v, depth, fmt, rest);
      } else {
        var tail := if fmt then Tabs(depth, Cons('}', rest)) else Cons('}', rest);
        var body := MembersText(members, depth + 1, fmt, tail);
        SkipTabs(depth, Cons('}', rest));
        MembersRoundTrip(members, depth + 1, fmt, tail, rest);
        SkipBlank('\n', body);
        ObjectParses(Text(v, depth, fmt, rest), members, rest);
      }
  }

  lemma {:induction false} ItemsRoundTrip(items: Items, depth: nat, fmt: bool, rest: string)
    requires CleanItems(items) && items.Item?
    ensures ParseItems(ItemsText(items, depth, fmt, Cons(']', rest))) == Ok(items, rest)
    decreases items
  {
    if items.next.NoItems? {
      ValueRoundTrip(items.value, depth, fmt, Cons(']', rest));
      assert Skip(Cons(']', rest)) == Cons(']', rest);
    } else {
      var tail := ItemsText(items.next, depth, fmt, Cons(']', rest));
      var spaced := if fmt then Cons(' ', tail) else tail;
      ItemsFirst(items.next, depth, fmt, Cons(']', rest));
      SkipBlank(' ', tail);
      assert Skip(spaced) == tail;
      ValueRoundTrip(items.value, depth, fmt, Cons(',', spaced));
      assert Skip(Cons(',', spaced)) == Cons(',', spaced);
      ItemsRoundTrip(items.next, depth, fmt, rest);
    }
  }

  /** A member: the quoted name, a colon and the value. */
  lemma PairParses(name: string, sep: string, v: Json, after: string)
    requires NulFree(name) && ParseValue(Skip(sep)) == Ok(v, after)
    ensures var s := Quoted(name, Cons(':', sep));
            Skip(s) == s && s[0] == '\"' && ParseMembers(s) == AddMember(name, v, AfterMember(Skip(after)))
  {
    StringRoundTrip(name, Cons(':', sep));
    assert Skip(Cons(':', sep)) == Cons(':', sep);
    assert AfterName(name, Cons(':', sep)) == AddMember(name, v, AfterMember(Skip(after)));
  }

  lemma {:induction false} MembersRoundTrip(members: Members, depth: nat, fmt: bool, tail: string, rest: string)
    requires CleanMembers(members) && members.Member? && Skip(tail) == Cons('}', rest)
    ensures var t := Skip(MembersText(members, depth, fmt, tail));
            t != [] && t[0] == '\"' && ParseMembers(t) == Ok(members, rest)
    decreases members
  {
    var next := members.next;
    var more := MembersText(next, depth, fmt, tail);
    var line := if fmt then Cons('\n', more) else more;
    var after := if next.Member? then Cons(',', line) else line;
    var value := Text(members.value, depth, fmt, after);
    var sep := if fmt then Cons('\t', value) else value;
    SkipBlank('\n', more);
    assert Skip(line) == Skip(more);
    assert EndsNumber(after);
    ValueRoundTrip(members.value, depth, fmt, after);
    FirstCharacter(members.value, depth, fmt, after);
    SkipBlank('\t', value);
    if next.Member? {
      MembersRoundTrip(next, depth, fmt, tail, rest);
      assert Skip(after) == after && after[1..] == line;
    }
    PairParses(members.name, sep, members.value, after);
    SkipTabs(depth, Quoted(members.name, Cons(':', sep)));
  }

  /** Printing in either format and parsing gives back the value and consumes the whole text. */
  lemma PrintParse(v: Json, fmt: bool, requireNullTerminated: bool)
    requires Clean(v)
    ensures ParseWithOpts(Text(v, 0, fmt, ""), requireNullTerminated) == Ok(v, "")
  {
    ValueRoundTrip(v, 0, fmt, "");
    FirstCharacter(v, 0, fmt, "");
  }

  /** Different values never print to the same text. */
  lemma PrintInjective(v: Json, w: Json, fmt: bool)
    requires Clean(v) && Clean(w) && Text(v, 0, fmt, "") == Text(w, 0, fmt, "")
    ensures v == w
  {
    PrintParse(v, fmt, true);
    PrintParse(w, fmt, true);
  }
}
