/** Facts about printed text: text followed by more text, its length, and that it holds no
    terminator. */
module JsonLayout {
  import opened JsonText

  // ----- Text in front of text -----

  lemma {:induction false} TabsAppend(n: int, rest: string)
    ensures Tabs(n, rest) == Tabs(n, "") + rest && |Tabs(n, "")| == if n <= 0 then 0 else n
    decreases n
  {
    if n > 0 {
      TabsAppend(n - 1, rest);
    }
  }

  lemma {:induction false} DecimalAppend(n: nat, rest: string)
    ensures Decimal(n, rest) == Decimal(n, "") + rest
  {
    if n >= 10 {
      DecimalAppend(n / 10, Cons(Digit(n % 10), rest));
      DecimalAppend(n / 10, Cons(Digit(n % 10), ""));
    }
  }

  lemma NumberAppend(n: Int32, rest: string)
    ensures NumberText(n, rest) == NumberText(n, "") + rest
  {
    var m: int := n;
    DecimalAppend(if m < 0 then -m else m, rest);
  }

  lemma EscapeAppend(c: char, rest: string)
    ensures Escape(c, rest) == Escape(c, "") + rest
  {
  }

  lemma {:induction false} EscapedAppend(s: string, rest: string)
    ensures Escaped(s, rest) == Escaped(s, "") + rest
  {
    if s != [] {
      EscapedAppend(s[1..], rest);
      EscapeAppend(s[0], Escaped(s[1..], rest));
      EscapeAppend(s[0], Escaped(s[1..], ""));
    }
  }

  lemma {:induction false} QuotedAppend(s: string, rest: string)
    ensures Quoted(s, rest) == Quoted(s, "") + rest
  {
    EscapedAppend(s, Cons('\"', rest));
    EscapedAppend(s, Cons('\"', ""));
  }

  lemma {:induction false} TextAppend(v: Json, depth: nat, fmt: bool, rest: string)
    ensures Text(v, depth, fmt, rest) == Text(v, depth, fmt, "") + rest
    decreases v, 0
  {
    match v
    case Null =>
    case False =>
    case True =>
    case Number(n) => NumberAppend(n, rest);
    case String(s) => QuotedAppend(s, rest);
    case Array(items) =>
      ItemsAppend(items, depth + 1, fmt, Cons(']', rest));
      ItemsAppend(items, depth + 1, fmt, Cons(']', ""));
      ArrayAppend(items, depth, fmt, rest, ItemsText(items, depth + 1, fmt, ""));
    case Object(members) =>
      if members.NoMembers? {
        EmptyAppend(depth, fmt, rest);
      } else {
        MembersAppend(members, depth + 1, fmt, Close(depth, fmt, rest));
        MembersAppend(members, depth + 1, fmt, Close(depth, fmt, ""));
        ObjectAppend(members, depth, fmt, rest, MembersText(members, depth + 1, fmt, ""));
      }
  }

  lemma ArrayAppend(items: Items, depth: nat, fmt: bool, rest: string, inner: string)
    requires ItemsText(items, depth + 1, fmt, Cons(']', rest)) == inner + Cons(']', rest)
    requires ItemsText(items, depth + 1, fmt, Cons(']', "")) == inner + Cons(']', "")
    ensures Text(Array(items), depth, fmt, rest) == Text(Array(items), depth, fmt, "") + rest
  {
    Joined(inner, "]", rest);
    Joined("[", inner + "]", rest);
  }

  lemma {:induction false} EmptyAppend(depth: nat, fmt: bool, rest: string)
    ensures Text(Object(NoMembers), depth, fmt, rest) == Text(Object(NoMembers), depth, fmt, "") + rest
  {
    TabsAppend(depth - 1, Cons('}', rest));
    TabsAppend(depth - 1, Cons('}', ""));
  }

  lemma ObjectAppend(members: Members, depth: nat, fmt: bool, rest: string, m: string)
    requires members.Member?
    requires MembersText(members, depth + 1, fmt, Close(depth, fmt, rest)) == m + Close(depth, fmt, rest)
    requires MembersText(members, depth + 1, fmt, Close(depth, fmt, "")) == m + Close(depth, fmt, "")
    ensures Text(Object(members), depth, fmt, rest) == Text(Object(members), depth, fmt, "") + rest
  {
    CloseAppend(depth, fmt, rest);
    Joined(m, Close(depth, fmt, ""), rest);
    ObjectText(members, depth, fmt, rest);
    ObjectText(members, depth, fmt, "");
    Joined(Open(fmt), m + Close(depth, fmt, ""), rest);
  }

  function Open(fmt: bool): string {
    if fmt then "{\n" else "{"
  }

  lemma ObjectText(members: Members, depth: nat, fmt: bool, rest: string)
    requires members.Member?
    ensures Text(Object(members), depth, fmt, rest) ==
            Open(fmt) + MembersText(members, depth + 1, fmt, Close(depth, fmt, rest))
  {
  }

  /** The end of an object that is not empty. */
  function Close(depth: nat, fmt: bool, rest: string): string {
    if fmt then Tabs(depth, Cons('}', rest)) else Cons('}', rest)
  }

  lemma CloseAppend(depth: nat, fmt: bool, rest: string)
    ensures Close(depth, fmt, rest) == Close(depth, fmt, "") + rest
  {
    TabsAppend(depth, Cons('}', rest));
    TabsAppend(depth, Cons('}', ""));
  }

  lemma {:induction false} ItemsAppend(items: Items, depth: nat, fmt: bool, rest: string)
    ensures ItemsText(items, depth, fmt, rest) == ItemsText(items, depth, fmt, "") + rest
    decreases items
  {
    if items.Item? {
      if items.next.NoItems? {
        TextAppend(items.value, depth, fmt, rest);
      } else {
        var tail := ItemsText(items.next, depth, fmt, rest);
        var tail0 := ItemsText(items.next, depth, fmt, "");
        ItemsAppend(items.next, depth, fmt, rest);
        TextAppend(items.value, depth, fmt, Cons(',', if fmt then Cons(' ', tail) else tail));
        TextAppend(items.value, depth, fmt, Cons(',', if fmt then Cons(' ', tail0) else tail0));
      }
    }
  }

  function Indent(depth: nat, fmt: bool): string {
    if fmt then Tabs(depth, "") else ""
  }

  function Colon(fmt: bool): string {
    if fmt then ":\t" else ":"
  }

  function Comma(fmt: bool): string {
    if fmt then ", " else ","
  }

  function LineEnd(next: Members, fmt: bool): string {
    (if next.Member? then "," else "") + (if fmt then "\n" else "")
  }

  lemma Joined(a: string, b: string, c: string)
    ensures a + b + c == a + (b + c)
  {
  }

  /** A name and its value, with what follows the value. */
  lemma PairParts(name: string, v: Json, depth: nat, fmt: bool, after: string)
    ensures var value := Text(v, depth, fmt, after);
            Quoted(name, Cons(':', if fmt then Cons('\t', value) else value)) ==
              Quoted(name, "") + (Colon(fmt) + (Text(v, depth, fmt, "") + after))
    decreases v, 1
  {
    var value := Text(v, depth, fmt, after);
    TextAppend(v, depth, fmt, after);
    var sep := Cons(':', if fmt then Cons('\t', value) else value);
    assert sep == Colon(fmt) + value;
    QuotedAppend(name, sep);
  }

  /** A member's text in parts. */
  lemma {:induction false} MemberParts(members: Members, depth: nat, fmt: bool, rest: string)
    requires members.Member?
    ensures MembersText(members, depth, fmt, rest) ==
            Indent(depth, fmt) + (Quoted(members.name, "") + (Colon(fmt) + (Text(members.value, depth, fmt, "")
            + (LineEnd(members.next, fmt) + MembersText(members.next, depth, fmt, rest)))))
    decreases members, 0
  {
    var tail := MembersText(members.next, depth, fmt, rest);
    var line := if fmt then Cons('\n', tail) else tail;
    var after := if members.next.Member? then Cons(',', line) else line;
    assert after == LineEnd(members.next, fmt) + tail;
    PairParts(members.name, members.value, depth, fmt, after);
    var value := Text(members.value, depth, fmt, after);
    var pair := Quoted(members.name, Cons(':', if fmt then Cons('\t', value) else value));
    TabsAppend(depth, pair);
    assert MembersText(members, depth, fmt, rest) == Indent(depth, fmt) + pair;
  }

  lemma {:induction false} MembersAppend(members: Members, depth: nat, fmt: bool, rest: string)
    ensures MembersText(members, depth, fmt, rest) == MembersText(members, depth, fmt, "") + rest
    decreases members, 1
  {
    if members.Member? {
      MembersAppend(members.next, depth, fmt, rest);
      MemberParts(members, depth, fmt, rest);
      MemberParts(members, depth, fmt, "");
      var q, c, t := Quoted(members.name, ""), Colon(fmt), Text(members.value, depth, fmt, "");
      var e, m := LineEnd(members.next, fmt), MembersText(members.next, depth, fmt, "");
      FiveJoined(Indent(depth, fmt), q, c, t, e, m, rest);
    }
  }

  lemma FiveJoined(a: string, b: string, c: string, d: string, e: string, m: string, rest: string)
    ensures a + (b + (c + (d + (e + (m + rest))))) == a + (b + (c + (d + (e + m)))) + rest
  {
    Joined(e, m, rest);
    Joined(d, e + m, rest);
    Joined(c, d + (e + m), rest);
    Joined(b, c + (d + (e + m)), rest);
    Joined(a, b + (c + (d + (e + m))), rest);
  }
}
