/** The printer of test/test_cjson/cJSON.c that sizes each piece of text, allocates it and
    copies the pieces together. */
module JsonPrinter {
  import opened Common
  import opened JsonText
  import opened JsonLayout

  // ----- Writing into a block -----

  /** The block starts with `done`. */
  ghost function Written(a: array<char>, n: nat, done: string): (st: Status)
    reads a
    ensures st.Sound? ==> n <= a.Length && |done| == n
  {
    if n <= a.Length && a[..n] == done then Sound else Broken
  }

  method Put(a: array<char>, at: nat, c: char, ghost done: string) returns (at': nat)
    requires Written(a, at, done).Sound? && at < a.Length
    modifies a
    ensures at' == at + 1 && Written(a, at', done + [c]).Sound?
  {
    a[at] := c;
    at' := at + 1;
  }

  /** memcpy of a whole string. */
  method Copy(a: array<char>, at: nat, s: string, ghost done: string) returns (at': nat)
    requires Written(a, at, done).Sound? && at + |s| <= a.Length
    modifies a
    ensures at' == at + |s| && Written(a, at', done + s).Sound?
  {
    at' := at;
    assert done + s[..0] == done;
    var i := 0;
    while i < |s|
      invariant i <= |s| && at' == at + i && Written(a, at', done + s[..i]).Sound?
    {
      at' := Put(a, at', s[i], done + s[..i]);
      assert done + s[..i] + [s[i]] == done + s[..i + 1];
      i := i + 1;
    }
    assert s[..i] == s;
  }

  // ----- Strings -----

  /** The characters that the flag of print_string_ptr looks for. */
  predicate NeedsEscape(c: char) {
    (c > NUL && c < ' ') || c == '\"' || c == '\\'
  }

  lemma PlainEscape(c: char)
    requires c != NUL
    ensures !NeedsEscape(c) ==> Escape(c, "") == [c]
    ensures NeedsEscape(c) && ShortEscape(c) == NUL ==> c < ' '
    ensures ShortEscape(c) != NUL ==> NeedsEscape(c)
    ensures |Escape(c, "")| == if ShortEscape(c) != NUL then 2 else if c < ' ' then 6 else 1
  {
  }

  lemma {:induction false} PlainString(s: string)
    requires NulFree(s) && forall i :: 0 <= i < |s| ==> !NeedsEscape(s[i])
    ensures Escaped(s, "") == s
  {
    if s != [] {
      PlainEscape(s[0]);
      PlainString(s[1..]);
      EscapeAppend(s[0], Escaped(s[1..], ""));
    }
  }

  lemma EscapedStep(s: string)
    requires s != []
    ensures Escaped(s, "") == Escape(s[0], "") + Escaped(s[1..], "")
  {
    EscapeAppend(s[0], Escaped(s[1..], ""));
  }

  lemma {:induction false} EscapedSplits(s: string, t: string)
    ensures Escaped(s + t, "") == Escaped(s, "") + Escaped(t, "")
  {
    if s == [] {
      assert s + t == t;
    } else {
      calc {
        Escaped(s + t, "");
      == { EscapedStep(s + t); assert (s + t)[1..] == s[1..] + t; }
        Escape(s[0], "") + Escaped(s[1..] + t, "");
      == { EscapedSplits(s[1..], t); }
        Escape(s[0], "") + (Escaped(s[1..], "") + Escaped(t, ""));
      ==
        (Escape(s[0], "") + Escaped(s[1..], "")) + Escaped(t, "");
      == { EscapedStep(s); }
        Escaped(s, "") + Escaped(t, "");
      }
    }
  }

  lemma EscapedNext(s: string, i: nat)
    requires i < |s|
    ensures Escaped(s[..i + 1], "") == Escaped(s[..i], "") + Escape(s[i], "")
    ensures |Escaped(s[..i + 1], "")| <= |Escaped(s, "")|
  {
    assert s[..i + 1] == s[..i] + [s[i]];
    EscapedSplits(s[..i], [s[i]]);
    EscapeAppend(s[i], "");
    assert s[..i + 1] + s[i + 1..] == s;
    EscapedSplits(s[..i + 1], s[i + 1..]);
  }

  lemma QuotedParts(s: string)
    ensures Quoted(s, "") == "\"" + Escaped(s, "") + "\"" && |Quoted(s, "")| == |Escaped(s, "")| + 2
  {
    EscapedAppend(s, Cons('\"', ""));
  }

  /** How long the first `i` characters become. */
  function EscapedLength(s: string, i: nat): nat
    requires i <= |s|
  {
    |Escaped(s[..i], "")|
  }

  lemma EscapedLengthNext(s: string, i: nat)
    requires i < |s| && s[i] != NUL
    ensures EscapedLength(s, i + 1) ==
            EscapedLength(s, i) + (if ShortEscape(s[i]) != NUL then 2 else if s[i] < ' ' then 6 else 1)
  {
    EscapedNext(s, i);
    PlainEscape(s[i]);
  }

  lemma EscapedLengthEnds(s: string)
    ensures EscapedLength(s, 0) == 0 && EscapedLength(s, |s|) == |Escaped(s, "")|
  {
    assert s[..0] == "" && s[..|s|] == s;
  }

  /** The first pass: whether anything needs escaping. */
  method AnyEscaped(str: string) returns (flag: bool)
    ensures flag <==> exists i :: 0 <= i < |str| && NeedsEscape(str[i])
  {
    flag := false;
    var ptr := 0;
    while ptr < |str|
      invariant ptr <= |str|
      invariant flag <==> exists i :: 0 <= i < ptr && NeedsEscape(str[i])
    {
      flag := flag || NeedsEscape(str[ptr]);
      ptr := ptr + 1;
    }
  }

  /** The two counting passes: whether anything needs escaping, and how long the escaped
      string is. */
  method CountEscaped(str: string) returns (flag: bool, len: nat)
    requires NulFree(str)
    ensures len == |Escaped(str, "")|
    ensures !flag ==> Escaped(str, "") == str
  {
    flag := AnyEscaped(str);
    if !flag {
      PlainString(str);
      return false, |str|;
    }
    len := 0;
    var ptr := 0;
    EscapedLengthEnds(str);
    while ptr < |str|
      invariant ptr <= |str| && len == EscapedLength(str, ptr)
    {
      EscapedLengthNext(str, ptr);
      len := len + 1;
      if ShortEscape(str[ptr]) != NUL {
        len := len + 1;
      } else if str[ptr] < ' ' {
        len := len + 5;
      }
      ptr := ptr + 1;
    }
  }

  /** One character of the slow path. */
  method PutEscaped(a: array<char>, at: nat, c: char, ghost done: string) returns (at': nat)
    requires Written(a, at, done).Sound? && at + |Escape(c, "")| <= a.Length && c != NUL
    modifies a
    ensures at' == at + |Escape(c, "")| && Written(a, at', done + Escape(c, "")).Sound?
  {
    PlainEscape(c);
    if c >= ' ' && c != '\"' && c != '\\' {
      at' := Put(a, at, c, done);
    } else {
      at' := Put(a, at, '\\', done);
      if ShortEscape(c) != NUL {
        at' := Put(a, at', ShortEscape(c), done + "\\");
        assert done + "\\" + [ShortEscape(c)] == done + Escape(c, "");
      } else {
        var token := ['u', '0', '0', HexDigit(c as int / 16), HexDigit(c as int % 16)];
        assert "\\" + token == Escape(c, "");
        at' := Copy(a, at', token, done + "\\");
        assert done + "\\" + token == done + Escape(c, "");
      }
    }
  }

  /** The slow path: character by character. */
  method CopyEscaped(a: array<char>, at: nat, str: string, ghost done: string) returns (at': nat)
    requires NulFree(str) && Written(a, at, done).Sound? && at + |Escaped(str, "")| <= a.Length
    modifies a
    ensures at' == at + |Escaped(str, "")| && Written(a, at', done + Escaped(str, "")).Sound?
  {
    at' := at;
    var ptr := 0;
    assert str[..0] == "" && done + "" == done;
    while ptr < |str|
      invariant ptr <= |str| && at' == at + |Escaped(str[..ptr], "")|
      invariant Written(a, at', done + Escaped(str[..ptr], "")).Sound?
    {
      EscapedNext(str, ptr);
      ghost var so := Escaped(str[..ptr], "");
      at' := PutEscaped(a, at', str[ptr], done + so);
      Joined(done, so, Escape(str[ptr], ""));
      ptr := ptr + 1;
    }
    assert str[..ptr] == str;
  }

  /** Writes a string literal whose escaped length was counted, and its terminator. */
  method FillString(a: array<char>, at: nat, str: string, flag: bool, ghost done: string)
    requires NulFree(str) && Written(a, at, done).Sound? && at + |Escaped(str, "")| + 3 <= a.Length
    requires !flag ==> Escaped(str, "") == str
    modifies a
    ensures var end := at + |Quoted(str, "")|;
            end < a.Length && Written(a, end, done + Quoted(str, "")).Sound? && a[end] == NUL
  {
    QuotedParts(str);
    var ptr2 := Put(a, at, '\"', done);
    if !flag {
      ptr2 := Copy(a, ptr2, str, done + "\"");
    } else {
      ptr2 := CopyEscaped(a, ptr2, str, done + "\"");
    }
    ptr2 := Put(a, ptr2, '\"', done + "\"" + Escaped(str, ""));
    QuotesJoined(done, Escaped(str, ""), Quoted(str, ""));
    Terminate(a, ptr2, done + Quoted(str, ""));
  }

  lemma QuotesJoined(done: string, e: string, q: string)
    requires q == "\"" + e + "\""
    ensures done + "\"" + e + "\"" == done + q
  {
  }

  method Terminate(a: array<char>, at: nat, ghost done: string)
    requires Written(a, at, done).Sound? && at < a.Length
    modifies a
    ensures Written(a, at, done).Sound? && a[at] == NUL
  {
    a[at] := NUL;
  }

  method PutTabs(a: array<char>, at: nat, n: nat, ghost done: string) returns (at': nat)
    requires Written(a, at, done).Sound? && at + n <= a.Length
    modifies a
    ensures at' == at + n && Written(a, at', done + Tabs(n, "")).Sound?
  {
    at' := at;
    var j := 0;
    assert done + Tabs(0, "") == done;
    while j < n
      invariant j <= n && at' == at + j && Written(a, at', done + Tabs(j, "")).Sound?
    {
      at' := Put(a, at', '\t', done + Tabs(j, ""));
      OneMoreTab(j, done);
      j := j + 1;
    }
  }

  lemma {:induction false} OneMoreTab(j: nat, done: string)
    ensures done + Tabs(j, "") + ['\t'] == done + Tabs(j + 1, "")
  {
    if j > 0 {
      OneMoreTab(j - 1, done + ['\t']);
      Joined(done, ['\t'], Tabs(j - 1, ""));
      Joined(done, ['\t'], Tabs(j, ""));
    }
  }

  // ----- Pieces of an array and of an object -----

  function ItemTexts(items: Items, depth: nat, fmt: bool): seq<string> {
    if items.NoItems? then [] else [Text(items.value, depth, fmt, "")] + ItemTexts(items.next, depth, fmt)
  }

  /** The pieces put together, with their commas. */
  function JoinItems(entries: seq<string>, fmt: bool, rest: string): string {
    if entries == [] then rest
    else entries[0] + ((if |entries| > 1 then Comma(fmt) else "") + JoinItems(entries[1..], fmt, rest))
  }

  lemma {:induction false} ItemsJoined(items: Items, depth: nat, fmt: bool, rest: string)
    ensures ItemsText(items, depth, fmt, rest) == JoinItems(ItemTexts(items, depth, fmt), fmt, rest)
  {
    if items.Item? {
      ItemsJoined(items.next, depth, fmt, rest);
      var es := ItemTexts(items, depth, fmt);
      assert es[1..] == ItemTexts(items.next, depth, fmt);
      if items.next.NoItems? {
        TextAppend(items.value, depth, fmt, rest);
        assert "" + rest == rest;
      } else {
        var tail := ItemsText(items.next, depth, fmt, rest);
        assert Cons(',', if fmt then Cons(' ', tail) else tail) == Comma(fmt) + tail;
        TextAppend(items.value, depth, fmt, Comma(fmt) + tail);
      }
    }
  }

  /** What the counting loop allows for: each piece and so much more. */
  function Bulk(entries: seq<string>, extra: nat): nat {
    if entries == [] then 0 else Bulk(entries[..|entries| - 1], extra) + |entries[|entries| - 1]| + extra
  }

  lemma {:induction false} BulkFirst(entries: seq<string>, extra: nat)
    requires entries != []
    ensures Bulk(entries, extra) == |entries[0]| + extra + Bulk(entries[1..], extra)
    decreases |entries|
  {
    var n := |entries| - 1;
    if n > 0 {
      BulkFirst(entries[..n], extra);
      assert entries[..n][1..] == entries[1..][..n - 1];
    }
  }

  lemma BulkNext(entries: seq<string>, e: string, extra: nat)
    ensures Bulk(entries + [e], extra) == Bulk(entries, extra) + |e| + extra
  {
    assert (entries + [e])[..|entries|] == entries;
  }

  lemma {:induction false} JoinFits(entries: seq<string>, fmt: bool, rest: string)
    ensures |JoinItems(entries, fmt, rest)| <= Bulk(entries, if fmt then 3 else 2) + |rest|
  {
    if entries != [] {
      JoinFits(entries[1..], fmt, rest);
      BulkFirst(entries, if fmt then 3 else 2);
    }
  }

  /** The whole text is what was composed and what is left. */
  ghost predicate Composing(whole: string, done: string, rest: string)
    ensures Composing(whole, done, rest) ==> |whole| == |done| + |rest|
  {
    whole == done + rest
  }

  lemma Composed(whole: string, done: string, piece: string, rest: string)
    requires Composing(whole, done, piece + rest)
    ensures Composing(whole, done + piece, rest)
  {
    Joined(done, piece, rest);
  }

  method PrintNumber(n: Int32) returns (out: string)
    ensures out == NumberText(n, "")
  {
    NumberFits(n);
    var str;
    if n == 0 {
      str := new char[2];
    } else {
      str := new char[21];
    }
    // sprintf writes the number in decimal.
    assert str[..0] == "" && "" + NumberText(n, "") == NumberText(n, "");
    var end := Copy(str, 0, NumberText(n, ""), "");
    Terminate(str, end, NumberText(n, ""));
    out := str[..end];
  }

  lemma NumberFits(n: Int32)
    ensures 1 <= |NumberText(n, "")| <= 11 && (n == 0 ==> NumberText(n, "") == "0")
  {
    var m: int := n;
    DecimalFits(if m < 0 then -m else m, 10, "");
  }

  function Ten(k: nat): nat {
    if k == 0 then 1 else 10 * Ten(k - 1)
  }

  lemma {:induction false} DecimalFits(n: nat, k: nat, rest: string)
    requires k >= 1 && n < Ten(k)
    ensures |rest| < |Decimal(n, rest)| <= |rest| + k
    decreases k
  {
    if n >= 10 {
      DecimalFits(n / 10, k - 1, Cons(Digit(n % 10), rest));
    }
  }

  // ----- Values -----

  method PrintStringPtr(str: string) returns (out: string)
    requires NulFree(str)
    ensures out == Quoted(str, "")
  {
    var flag, len := CountEscaped(str);
    QuotedParts(str);
    var block := new char[len + 3];
    assert block[..0] == "" && "" + Quoted(str, "") == Quoted(str, "");
    FillString(block, 0, str, flag, "");
    out := block[..|Quoted(str, "")|];
  }

  /** print_value without a buffer. */
  method PrintValue(v: Json, depth: nat, fmt: bool) returns (out: string)
    requires Clean(v)
    ensures out == Text(v, depth, fmt, "")
    decreases v, 1
  {
    match v {
      case Null => out := "null"; assert Word("null", "") == "null";
      case False => out := "false"; assert Word("false", "") == "false";
      case True => out := "true"; assert Word("true", "") == "true";
      case Number(n) => out := PrintNumber(n);
      case String(s) => out := PrintStringPtr(s);
      case Array(items) => out := PrintArray(items, depth, fmt);
      case Object(members) => out := PrintObject(members, depth, fmt);
    }
  }

  method PrintArray(items: Items, depth: nat, fmt: bool) returns (out: string)
    requires CleanItems(items)
    ensures out == Text(Array(items), depth, fmt, "")
    decreases items, 2
  {
    if items.NoItems? {
      return "[]";
    }
    // Print the items and add up the length.
    var entries: seq<string> := [];
    var len := 5;
    var child := items;
    while child.Item?
      invariant CleanItems(child) && (child == items || child < items)
      invariant entries + ItemTexts(child, depth + 1, fmt) == ItemTexts(items, depth + 1, fmt)
      invariant len == 5 + Bulk(entries, if fmt then 3 else 2)
      decreases child
    {
      var ret := PrintValue(child.value, depth + 1, fmt);
      BulkNext(entries, ret, if fmt then 3 else 2);
      Joined2(entries, ret, ItemTexts(child.next, depth + 1, fmt));
      entries := entries + [ret];
      len := len + |ret| + 2 + (if fmt then 1 else 0);
      child := child.next;
    }
    assert entries == ItemTexts(items, depth + 1, fmt);
    ItemsJoined(items, depth + 1, fmt, "]");
    JoinFits(entries, fmt, "]");
    assert Cons(']', "") == "]";
    out := ComposeArray(entries, fmt, len, Text(Array(items), depth, fmt, ""));
  }

  lemma Joined2(entries: seq<string>, e: string, rest: seq<string>)
    ensures entries + [e] + rest == entries + ([e] + rest)
  {
  }

  /** Allocates `len` characters and copies the pieces of an array there. */
  method ComposeArray(entries: seq<string>, fmt: bool, len: nat, ghost whole: string) returns (out: string)
    requires whole == "[" + JoinItems(entries, fmt, "]") && |whole| < len
    ensures out == whole
  {
    var block := new char[len];
    assert block[..0] == "" && "" + "[" == "[";
    var ptr := Put(block, 0, '[', "");
    ghost var done := "[";
    var i := 0;
    assert entries[0..] == entries;
    while i < |entries|
      invariant i <= |entries| && Written(block, ptr, done).Sound?
      invariant Composing(whole, done, JoinItems(entries[i..], fmt, "]"))
    {
      var comma := i != |entries| - 1;
      ghost var rest := JoinItems(entries[i + 1..], fmt, "]");
      JoinNext(entries, i, fmt, "]");
      Composed(whole, done, entries[i], (if comma then Comma(fmt) else "") + rest);
      ptr := Copy(block, ptr, entries[i], done);
      done := done + entries[i];
      Composed(whole, done, if comma then Comma(fmt) else "", rest);
      if comma {
        ptr := Copy(block, ptr, if fmt then ", " else ",", done);
        done := done + Comma(fmt);
      } else {
        assert done + "" == done;
      }
      i := i + 1;
    }
    assert entries[i..] == [];
    ptr := Put(block, ptr, ']', done);
    Terminate(block, ptr, whole);
    out := block[..ptr];
  }

  lemma JoinNext(entries: seq<string>, i: nat, fmt: bool, rest: string)
    requires i < |entries|
    ensures JoinItems(entries[i..], fmt, rest) ==
            entries[i] + ((if i != |entries| - 1 then Comma(fmt) else "") + JoinItems(entries[i + 1..], fmt, rest))
  {
    assert entries[i..][1..] == entries[i + 1..];
  }

  function MemberNames(members: Members): seq<string> {
    if members.NoMembers? then [] else [Quoted(members.name, "")] + MemberNames(members.next)
  }

  function MemberTexts(members: Members, depth: nat, fmt: bool): seq<string> {
    if members.NoMembers? then [] else [Text(members.value, depth, fmt, "")] + MemberTexts(members.next, depth, fmt)
  }

  function LineMark(comma: bool, fmt: bool): string {
    (if comma then "," else "") + (if fmt then "\n" else "")
  }

  /** The names and the pieces put together, each on its line. */
  function JoinMembers(names: seq<string>, entries: seq<string>, depth: nat, fmt: bool, rest: string): string
    requires |names| == |entries|
  {
    if names == [] then rest
    else
      Indent(depth, fmt) + (names[0] + (Colon(fmt) + (entries[0] + (LineMark(|names| > 1, fmt)
      + JoinMembers(names[1..], entries[1..], depth, fmt, rest)))))
  }

  lemma {:induction false} MembersJoined(members: Members, depth: nat, fmt: bool, rest: string)
    ensures |MemberNames(members)| == |MemberTexts(members, depth, fmt)|
    ensures MembersText(members, depth, fmt, rest) ==
            JoinMembers(MemberNames(members), MemberTexts(members, depth, fmt), depth, fmt, rest)
  {
    if members.Member? {
      MembersJoined(members.next, depth, fmt, rest);
      MemberParts(members, depth, fmt, rest);
      assert MemberNames(members)[1..] == MemberNames(members.next);
      assert MemberTexts(members, depth, fmt)[1..] == MemberTexts(members.next, depth, fmt);
    }
  }

  /** The room a member needs beside its name and its text. */
  function MemberExtra(depth: nat, fmt: bool): nat {
    if fmt then depth + 4 else 2
  }

  lemma {:induction false} MembersFit(names: seq<string>, entries: seq<string>, depth: nat, fmt: bool, rest: string)
    requires |names| == |entries|
    ensures |JoinMembers(names, entries, depth, fmt, rest)| <=
            Bulk(names, 0) + Bulk(entries, MemberExtra(depth, fmt)) + |rest|
    decreases |names|
  {
    if names != [] {
      MembersFit(names[1..], entries[1..], depth, fmt, rest);
      BulkFirst(names, 0);
      BulkFirst(entries, MemberExtra(depth, fmt));
      TabsAppend(depth, "");
    }
  }

  /** The names and texts of the members in front of `child`, and their length. */
  ghost predicate Collected(members: Members, child: Members, depth: nat, fmt: bool,
                            names: seq<string>, entries: seq<string>, len: int) {
    && |names| == |entries|
       && names + MemberNames(child) == MemberNames(members)
       && entries + MemberTexts(child, depth, fmt) == MemberTexts(members, depth, fmt)
       && len == (if fmt then 7 + depth else 7) + Bulk(names, 0) + Bulk(entries, MemberExtra(depth, fmt))
  }

  lemma CollectNext(members: Members, child: Members, depth: nat, fmt: bool,
                    names: seq<string>, entries: seq<string>, len: int, str: string, ret: string)
    requires Collected(members, child, depth, fmt, names, entries, len) && child.Member?
    requires str == Quoted(child.name, "") && ret == Text(child.value, depth, fmt, "")
    ensures Collected(members, child.next, depth, fmt, names + [str], entries + [ret],
                      len + |ret| + |str| + 2 + (if fmt then 2 + depth else 0))
  {
    BulkNext(names, str, 0);
    BulkNext(entries, ret, MemberExtra(depth, fmt));
    Joined2(names, str, MemberNames(child.next));
    Joined2(entries, ret, MemberTexts(child.next, depth, fmt));
  }

  lemma {:induction false} CollectEnds(members: Members, depth: nat, fmt: bool, names: seq<string>,
                                       entries: seq<string>, len: int)
    requires Collected(members, NoMembers, depth + 1, fmt, names, entries, len) && members.Member?
    ensures |names| == |entries|
    ensures var whole := Text(Object(members), depth, fmt, "");
            && whole == Open(fmt) + JoinMembers(names, entries, depth + 1, fmt, Indent(depth, fmt) + "}")
            && |whole| < len
  {
    assert names == MemberNames(members) && entries == MemberTexts(members, depth + 1, fmt);
    MembersJoined(members, depth + 1, fmt, Close(depth, fmt, ""));
    MembersFit(names, entries, depth + 1, fmt, Close(depth, fmt, ""));
    ObjectText(members, depth, fmt, "");
    CloseLength(depth, fmt);
  }

  method PrintObject(members: Members, depth: nat, fmt: bool) returns (out: string)
    requires CleanMembers(members)
    ensures out == Text(Object(members), depth, fmt, "")
    decreases members, 2
  {
    if members.NoMembers? {
      out := PrintEmptyObject(depth, fmt);
      return;
    }
    // Collect all the names and texts and add up the length.
    var names: seq<string>, entries: seq<string> := [], [];
    var len: int := if fmt then 7 + (depth + 1) else 7;
    var child := members;
    while child.Member?
      invariant CleanMembers(child) && (child == members || child < members)
      invariant Collected(members, child, depth + 1, fmt, names, entries, len)
      decreases child
    {
      var str := PrintStringPtr(child.name);
      var ret := PrintValue(child.value, depth + 1, fmt);
      CollectNext(members, child, depth + 1, fmt, names, entries, len, str, ret);
      names := names + [str];
      entries := entries + [ret];
      len := len + |ret| + |str| + 2 + (if fmt then 2 + (depth + 1) else 0);
      child := child.next;
    }
    CollectEnds(members, depth, fmt, names, entries, len);
    out := ComposeObject(names, entries, depth, fmt, len, Text(Object(members), depth, fmt, ""));
  }

  lemma CloseLength(depth: nat, fmt: bool)
    ensures Close(depth, fmt, "") == Indent(depth, fmt) + "}"
    ensures |Indent(depth, fmt)| == if fmt then depth else 0
  {
    TabsAppend(depth, "}");
    assert Cons('}', "") == "}";
  }

  function EmptyIndent(depth: nat, fmt: bool): string {
    if fmt then Tabs(depth - 1, "") else ""
  }

  lemma EmptyParts(depth: nat, fmt: bool)
    ensures Text(Object(NoMembers), depth, fmt, "") == Open(fmt) + (EmptyIndent(depth, fmt) + "}")
    ensures |EmptyIndent(depth, fmt)| == if fmt && depth > 0 then depth - 1 else 0
    ensures |Text(Object(NoMembers), depth, fmt, "")| == |EmptyIndent(depth, fmt)| + (if fmt then 3 else 2)
  {
    TabsAppend(depth - 1, "}");
    assert Cons('}', "") == "}";
  }

  /** Writes an empty object and its terminator. */
  method FillEmptyObject(a: array<char>, at: nat, depth: nat, fmt: bool, ghost done: string) returns (end: nat)
    requires Written(a, at, done).Sound? && at + |Text(Object(NoMembers), depth, fmt, "")| < a.Length
    modifies a
    ensures var whole := done + Text(Object(NoMembers), depth, fmt, "");
            end == |whole| < a.Length && Written(a, end, whole).Sound? && a[end] == NUL
  {
    EmptyParts(depth, fmt);
    ghost var whole := done + Text(Object(NoMembers), depth, fmt, "");
    Joined(done, Open(fmt), EmptyIndent(depth, fmt) + "}");
    Joined(done + Open(fmt), EmptyIndent(depth, fmt), "}");
    var ptr := Copy(a, at, if fmt then "{\n" else "{", done);
    if fmt && depth > 0 {
      ptr := PutTabs(a, ptr, depth - 1, done + Open(fmt));
    } else {
      assert done + Open(fmt) + EmptyIndent(depth, fmt) == done + Open(fmt);
    }
    end := Put(a, ptr, '}', done + Open(fmt) + EmptyIndent(depth, fmt));
    Terminate(a, end, whole);
  }

  method PrintEmptyObject(depth: nat, fmt: bool) returns (out: string)
    ensures out == Text(Object(NoMembers), depth, fmt, "")
  {
    EmptyParts(depth, fmt);
    NothingBefore(Text(Object(NoMembers), depth, fmt, ""));
    var size := if fmt then depth + 4 else 3;
    var block := new char[size];
    assert Written(block, 0, "").Sound?;
    var end := FillEmptyObject(block, 0, depth, fmt, "");
    out := block[..end];
  }

  lemma NothingBefore(s: string)
    ensures "" + s == s
  {
  }

  /** Allocates `len` characters and copies the pieces of an object there. */
  method ComposeObject(names: seq<string>, entries: seq<string>, depth: nat, fmt: bool, len: nat, ghost whole: string)
    returns (out: string)
    requires |names| == |entries|
    requires whole == Open(fmt) + JoinMembers(names, entries, depth + 1, fmt, Indent(depth, fmt) + "}")
    requires |whole| < len
    ensures out == whole
  {
    var block := new char[len];
    assert block[..0] == "" && "" + Open(fmt) == Open(fmt);
    ghost var tail := Indent(depth, fmt) + "}";
    var ptr := Copy(block, 0, if fmt then "{\n" else "{", "");
    ghost var done := Open(fmt);
    var i := 0;
    assert names[0..] == names && entries[0..] == entries;
    while i < |names|
      invariant i <= |names| && Written(block, ptr, done).Sound?
      invariant Composing(whole, done, JoinMembers(names[i..], entries[i..], depth + 1, fmt, tail))
    {
      ghost var rest := JoinMembers(names[i + 1..], entries[i + 1..], depth + 1, fmt, tail);
      assert names[i..][1..] == names[i + 1..] && entries[i..][1..] == entries[i + 1..];
      ptr, done := ComposeMember(block, ptr, names[i], entries[i], i != |names| - 1, depth + 1, fmt, whole, done, rest);
      i := i + 1;
    }
    assert names[i..] == [];
    ptr := CloseBlock(block, ptr, depth, fmt, whole, done);
    out := block[..ptr];
  }

  /** The closing line of an object. */
  method CloseBlock(block: array<char>, at: nat, depth: nat, fmt: bool, ghost whole: string, ghost done: string)
    returns (ptr: nat)
    requires Written(block, at, done).Sound? && |whole| < block.Length
    requires Composing(whole, done, Indent(depth, fmt) + "}")
    modifies block
    ensures Written(block, ptr, whole).Sound?
  {
    ptr := at;
    ghost var text := done;
    if fmt {
      Composed(whole, done, Tabs(depth, ""), "}");
      TabsAppend(depth, "");
      ptr := PutTabs(block, ptr, depth, done);
      text := done + Tabs(depth, "");
    } else {
      assert Indent(depth, fmt) + "}" == "}";
    }
    ptr := Put(block, ptr, '}', text);
    Terminate(block, ptr, whole);
  }

  /** One member: its indentation, its name, a colon, its text and the end of its line. */
  method ComposeMember(block: array<char>, at: nat, name: string, entry: string, comma: bool, depth: nat, fmt: bool,
                       ghost whole: string, ghost done: string, ghost rest: string)
    returns (ptr: nat, ghost done': string)
    requires Written(block, at, done).Sound? && |whole| < block.Length
    requires Composing(whole, done,
                       Indent(depth, fmt) + (name + (Colon(fmt) + (entry + (LineMark(comma, fmt) + rest)))))
    modifies block
    ensures Written(block, ptr, done').Sound? && Composing(whole, done', rest)
  {
    ptr, done' := at, done;
    Composed(whole, done', Indent(depth, fmt), name + (Colon(fmt) + (entry + (LineMark(comma, fmt) + rest))));
    TabsAppend(depth, "");
    if fmt {
      ptr := PutTabs(block, ptr, depth, done');
    } else {
      assert done' + "" == done';
    }
    done' := done' + Indent(depth, fmt);
    Composed(whole, done', name, Colon(fmt) + (entry + (LineMark(comma, fmt) + rest)));
    ptr := Copy(block, ptr, name, done');
    done' := done' + name;
    Composed(whole, done', Colon(fmt), entry + (LineMark(comma, fmt) + rest));
    ptr := Copy(block, ptr, if fmt then ":\t" else ":", done');
    done' := done' + Colon(fmt);
    Composed(whole, done', entry, LineMark(comma, fmt) + rest);
    ptr := Copy(block, ptr, entry, done');
    done' := done' + entry;
    Composed(whole, done', LineMark(comma, fmt), rest);
    ptr := Copy(block, ptr, (if comma then "," else "") + (if fmt then "\n" else ""), done');
    done' := done' + LineMark(comma, fmt);
  }

  // ----- cJSON_Print and cJSON_PrintUnformatted -----

  method PrintFormatted(v: Json) returns (out: string)
    requires Clean(v)
    ensures out == Print(v)
  {
    out := PrintValue(v, 0, true);
  }

  method PrintPlain(v: Json) returns (out: string)
    requires Clean(v)
    ensures out == PrintUnformatted(v)
  {
    out := PrintValue(v, 0, false);
  }
}
