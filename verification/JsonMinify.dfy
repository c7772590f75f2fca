/** cJSON_Minify of test/test_cjson/cJSON.c: blanks and comments are dropped in place. */
module JsonMinify {
  import opened Common
  import opened JsonText
  import opened JsonParse
  import opened JsonLayout

  predicate IsBlank(c: char) {
    c == ' ' || c == '\t' || c == '\r' || c == '\n'
  }

  function SkipLine(s: string): (r: string)
    ensures |r| <= |s|
  {
    if s == [] || s[0] == '\n' then s else SkipLine(s[1..])
  }

  predicate ClosesComment(s: string) {
    |s| >= 2 && s[0] == '*' && s[1] == '/'
  }

  /** The text after a comment; none if the comment is not closed. */
  function SkipComment(s: string): (r: Option<string>)
    ensures r.Some? ==> |r.value| + 2 <= |s|
  {
    if s == [] then None else if ClosesComment(s) then Some(s[2..]) else SkipComment(s[1..])
  }

  /** How many characters a literal takes up to and with its closing quote; none if it is
      not closed. */
  function LiteralLength(s: string): (n: Option<nat>)
    ensures n.Some? ==> 1 <= n.value <= |s|
    decreases |s|
  {
    if s == [] then None
    else if s[0] == '\"' then Some(1)
    else
      var step := if s[0] == '\\' then 2 else 1;
      if |s| < step then None
      else
        var more := LiteralLength(s[step..]);
        if more.None? then None else Some(more.value + step)
  }

  function Before(kept: string, r: Option<string>): Option<string> {
    if r.Some? then Some(kept + r.value) else None
  }

  /** The text without blanks and comments; none if a comment or a literal is not closed,
      when cJSON_Minify reads past the end of the text. */
  function Minified(s: string): Option<string>
    decreases |s|
  {
    if s == [] then Some([])
    else if IsBlank(s[0]) then Minified(s[1..])
    else if s[0] == '/' && |s| > 1 && s[1] == '/' then Minified(SkipLine(s[1..]))
    else if s[0] == '/' && |s| > 1 && s[1] == '*' then
      var r := SkipComment(s[1..]);
      if r.Some? then Minified(r.value) else None
    else if s[0] == '\"' then
      var n := LiteralLength(s[1..]);
      if n.Some? then Before(s[..n.value + 1], Minified(s[n.value + 1..])) else None
    else Before([s[0]], Minified(s[1..]))
  }

  // ----- Minifying printed text -----

  lemma MinifiedPlain(c: char, rest: string)
    requires !IsBlank(c) && c != '/' && c != '\"'
    ensures Minified(Cons(c, rest)) == Before([c], Minified(rest))
  {
  }

  /** A character, in formatted text followed by a blank. */
  lemma MinifiedSpaced(c: char, fmt: bool, blank: char, rest: string)
    requires !IsBlank(c) && c != '/' && c != '\"' && IsBlank(blank)
    ensures Minified(Cons(c, if fmt then Cons(blank, rest) else rest)) == Before([c], Minified(rest))
  {
    MinifiedBlank(blank, rest);
  }

  lemma MinifiedBlank(c: char, rest: string)
    requires IsBlank(c)
    ensures Minified(Cons(c, rest)) == Minified(rest)
  {
  }

  lemma {:induction false} MinifiedTabs(n: int, rest: string)
    ensures Minified(Tabs(n, rest)) == Minified(rest)
    decreases n
  {
    if n > 0 {
      MinifiedTabs(n - 1, rest);
    }
  }

  predicate Solid(w: string) {
    forall i :: 0 <= i < |w| ==> !IsBlank(w[i]) && w[i] != '/' && w[i] != '\"'
  }

  lemma {:induction false} MinifiedSolid(w: string, rest: string)
    requires Solid(w)
    ensures Minified(w + rest) == Before(w, Minified(rest))
  {
    if w == [] {
      assert w + rest == rest;
      assert Minified(rest).Some? ==> [] + Minified(rest).value == Minified(rest).value;
    } else {
      MinifiedSolid(w[1..], rest);
      assert w + rest == Cons(w[0], w[1..] + rest);
      MinifiedPlain(w[0], w[1..] + rest);
      if Minified(rest).Some? {
        assert [w[0]] + (w[1..] + Minified(rest).value) == w + Minified(rest).value;
      }
    }
  }

  lemma {:induction false} DecimalSolid(n: nat, rest: string)
    requires Solid(rest)
    ensures Solid(Decimal(n, rest))
  {
    if n >= 10 {
      DecimalSolid(n / 10, Cons(Digit(n % 10), rest));
    }
  }

  lemma NumberSolid(n: Int32)
    ensures Solid(NumberText(n, ""))
  {
    var m: int := n;
    DecimalSolid(if m < 0 then -m else m, "");
  }

  lemma {:induction false} EscapeLength(c: char, t: string)
    ensures LiteralLength(Escape(c, t)) ==
            if LiteralLength(t).None? then None else Some(LiteralLength(t).value + |Escape(c, "")|)
  {
    if ShortEscape(c) != NUL {
      var s := Escape(c, t);
      assert s[2..] == s[1..][1..] == t;
    } else if c < ' ' {
      var h := Cons(HexDigit(c as int / 16), Cons(HexDigit(c as int % 16), t));
      var s := Escape(c, t);
      assert s[2..] == Cons('0', Cons('0', h));
      PlainLength(HexDigit(c as int % 16), t);
      PlainLength(HexDigit(c as int / 16), h[1..]);
      PlainLength('0', h);
      PlainLength('0', Cons('0', h));
    } else {
      PlainLength(c, t);
    }
  }

  lemma PlainLength(c: char, t: string)
    requires c != '\"' && c != '\\'
    ensures LiteralLength(Cons(c, t)) == if LiteralLength(t).None? then None else Some(LiteralLength(t).value + 1)
  {
  }

  lemma {:induction false} EscapedLength(s: string, rest: string)
    ensures LiteralLength(Escaped(s, Cons('\"', rest))) == Some(|Escaped(s, "")| + 1)
  {
    if s != [] {
      EscapedLength(s[1..], rest);
      EscapeLength(s[0], Escaped(s[1..], Cons('\"', rest)));
      EscapeAppend(s[0], Escaped(s[1..], ""));
    }
  }

  lemma MinifiedQuoted(s: string, rest: string)
    ensures Minified(Quoted(s, rest)) == Before(Quoted(s, ""), Minified(rest))
  {
    EscapedLength(s, rest);
    QuotedAppend(s, rest);
    EscapedAppend(s, Cons('\"', ""));
    var q := Quoted(s, "");
    assert |q| == |Escaped(s, "")| + 2;
    assert (q + rest)[..|q|] == q && (q + rest)[|q|..] == rest;
  }

  lemma BeforeBefore(a: string, b: string, r: Option<string>)
    ensures Before(a, Before(b, r)) == Before(a + b, r)
  {
    if r.Some? {
      assert a + (b + r.value) == a + b + r.value;
    }
  }

  lemma MinifiedWord(w: string, rest: string)
    requires Solid(w)
    ensures Minified(Word(w, rest)) == Before(Word(w, ""), Minified(rest))
  {
    MinifiedSolid(w, rest);
    assert Word(w, "") == w;
  }

  lemma MinifiedScalar(v: Json, depth: nat, fmt: bool, rest: string)
    requires !v.Array? && !v.Object?
    ensures Minified(Text(v, depth, fmt, rest)) == Before(Text(v, depth, false, ""), Minified(rest))
  {
    match v
    case Null => MinifiedWord("null", rest);
    case False => MinifiedWord("false", rest);
    case True => MinifiedWord("true", rest);
    case Number(n) =>
      NumberSolid(n);
      NumberAppend(n, rest);
      MinifiedSolid(NumberText(n, ""), rest);
    case String(s) => MinifiedQuoted(s, rest);
  }

  lemma MinifiedEmpty(depth: nat, fmt: bool, rest: string)
    ensures Minified(Text(Object(NoMembers), depth, fmt, rest)) == Before("{}", Minified(rest))
  {
    var close := Cons('}', rest);
    MinifiedPlain('}', rest);
    MinifiedTabs(depth - 1, close);
    if fmt {
      MinifiedSpaced('{', true, '\n', Tabs(depth - 1, close));
    } else {
      MinifiedPlain('{', close);
    }
    BeforeBefore("{", "}", Minified(rest));
    assert "{" + "}" == "{}";
  }

  /** An object from its members: what the braces and the line breaks come to. */
  lemma MinifiedBraces(members: Members, depth: nat, fmt: bool, rest: string, m: string)
    requires members.Member? && MembersText(members, depth + 1, false, "") == m
    requires Minified(MembersText(members, depth + 1, fmt, Close(depth, fmt, rest))) ==
             Before(m, Minified(Close(depth, fmt, rest)))
    ensures Minified(Text(Object(members), depth, fmt, rest)) ==
            Before(Text(Object(members), depth, false, ""), Minified(rest))
  {
    var body := MembersText(members, depth + 1, fmt, Close(depth, fmt, rest));
    MinifiedTabs(depth, Cons('}', rest));
    MinifiedPlain('}', rest);
    MinifiedSpaced('{', fmt, '\n', body);
    BeforeBefore(m, "}", Minified(rest));
    BeforeBefore("{", m + "}", Minified(rest));
    PlainObject(members, depth, m);
  }

  lemma PlainObject(members: Members, depth: nat, m: string)
    requires members.Member? && MembersText(members, depth + 1, false, "") == m
    ensures Text(Object(members), depth, false, "") == "{" + (m + "}")
  {
    MembersAppend(members, depth + 1, false, "}");
    ObjectText(members, depth, false, "");
    assert Cons('}', "") == "}";
  }

  lemma MinifiedBrackets(items: Items, depth: nat, fmt: bool, rest: string, inner: string)
    requires ItemsText(items, depth + 1, false, "") == inner
    requires Minified(ItemsText(items, depth + 1, fmt, Cons(']', rest))) == Before(inner, Minified(Cons(']', rest)))
    ensures Minified(Text(Array(items), depth, fmt, rest)) ==
            Before(Text(Array(items), depth, false, ""), Minified(rest))
  {
    MinifiedPlain(']', rest);
    MinifiedPlain('[', ItemsText(items, depth + 1, fmt, Cons(']', rest)));
    BeforeBefore(inner, "]", Minified(rest));
    BeforeBefore("[", inner + "]", Minified(rest));
    ItemsAppend(items, depth + 1, false, "]");
    assert Cons(']', "") == "]";
  }

  /** Minifying the text of a value in either format leaves its unformatted text. */
  lemma {:induction false} MinifiedText(v: Json, depth: nat, fmt: bool, rest: string)
    ensures Minified(Text(v, depth, fmt, rest)) == Before(Text(v, depth, false, ""), Minified(rest))
    decreases v, 0
  {
    match v
    case Array(items) =>
      MinifiedItems(items, depth + 1, fmt, Cons(']', rest));
      MinifiedBrackets(items, depth, fmt, rest, ItemsText(items, depth + 1, false, ""));
    case Object(members) =>
      if members.NoMembers? {
        MinifiedEmpty(depth, fmt, rest);
        assert Text(v, depth, false, "") == "{}";
      } else {
        MinifiedMembers(members, depth + 1, fmt, Close(depth, fmt, rest));
        MinifiedBraces(members, depth, fmt, rest, MembersText(members, depth + 1, false, ""));
      }
    case _ => MinifiedScalar(v, depth, fmt, rest);
  }

  lemma {:induction false} MinifiedItems(items: Items, depth: nat, fmt: bool, rest: string)
    ensures Minified(ItemsText(items, depth, fmt, rest)) == Before(ItemsText(items, depth, false, ""), Minified(rest))
    decreases items
  {
    if items.NoItems? {
      BeforeNothing(Minified(rest));
    } else if items.next.NoItems? {
      MinifiedText(items.value, depth, fmt, rest);
    } else {
      var tail := ItemsText(items.next, depth, fmt, rest);
      var tail0 := ItemsText(items.next, depth, false, "");
      var t0 := Text(items.value, depth, false, "");
      MinifiedItems(items.next, depth, fmt, rest);
      MinifiedText(items.value, depth, fmt, Cons(',', if fmt then Cons(' ', tail) else tail));
      MinifiedSpaced(',', fmt, ' ', tail);
      BeforeBefore(",", tail0, Minified(rest));
      BeforeBefore(t0, "," + tail0, Minified(rest));
      TextAppend(items.value, depth, false, Cons(',', tail0));
      assert Cons(',', tail0) == "," + tail0;
    }
  }

  lemma BeforeNothing(r: Option<string>)
    ensures Before("", r) == r
  {
    if r.Some? {
      assert "" + r.value == r.value;
    }
  }

  lemma MinifiedLineEnd(next: Members, fmt: bool, tail: string)
    ensures Minified(LineEnd(next, fmt) + tail) == Before(LineEnd(next, false), Minified(tail))
  {
    var line := if fmt then Cons('\n', tail) else tail;
    assert LineEnd(next, false) == if next.Member? then "," else "";
    if next.Member? {
      assert LineEnd(next, fmt) + tail == Cons(',', line);
      MinifiedSpaced(',', fmt, '\n', tail);
    } else {
      assert LineEnd(next, fmt) + tail == line;
      MinifiedBlank('\n', tail);
      BeforeNothing(Minified(tail));
    }
  }

  lemma MinifiedColon(fmt: bool, tail: string)
    ensures Minified(Colon(fmt) + tail) == Before(":", Minified(tail))
  {
    var rest := if fmt then Cons('\t', tail) else tail;
    assert Colon(fmt) + tail == Cons(':', rest);
    MinifiedSpaced(':', fmt, '\t', tail);
  }

  lemma {:induction false} MinifiedMembers(members: Members, depth: nat, fmt: bool, rest: string)
    ensures Minified(MembersText(members, depth, fmt, rest)) ==
            Before(MembersText(members, depth, false, ""), Minified(rest))
    decreases members, 1
  {
    if members.NoMembers? {
      BeforeNothing(Minified(rest));
    } else {
      var r := Minified(rest);
      var next := members.next;
      var q, t := Quoted(members.name, ""), Text(members.value, depth, false, "");
      var e, m := LineEnd(next, false), MembersText(next, depth, false, "");
      var tail := MembersText(next, depth, fmt, rest);
      var after := LineEnd(next, fmt) + tail;
      MinifiedMembers(next, depth, fmt, rest);
      MinifiedLineEnd(next, fmt, tail);
      BeforeBefore(e, m, r);
      MinifiedText(members.value, depth, fmt, after);
      BeforeBefore(t, e + m, r);
      TextAppend(members.value, depth, fmt, after);
      var value := Text(members.value, depth, fmt, "") + after;
      MinifiedColon(fmt, value);
      BeforeBefore(":", t + (e + m), r);
      MinifiedQuoted(members.name, Colon(fmt) + value);
      QuotedAppend(members.name, Colon(fmt) + value);
      BeforeBefore(q, ":" + (t + (e + m)), r);
      MinifiedIndent(depth, fmt, q + (Colon(fmt) + value));
      MemberParts(members, depth, fmt, rest);
      MemberParts(members, depth, false, "");
      assert MembersText(members, depth, false, "") == q + (":" + (t + (e + m)));
    }
  }

  lemma MinifiedIndent(depth: nat, fmt: bool, tail: string)
    ensures Minified(Indent(depth, fmt) + tail) == Minified(tail)
  {
    if fmt {
      TabsAppend(depth, tail);
      MinifiedTabs(depth, tail);
    } else {
      assert Indent(depth, fmt) + tail == tail;
    }
  }

  /** cJSON_Minify on what cJSON_Print makes of a value gives what cJSON_PrintUnformatted
      makes of it; unformatted text it leaves alone. */
  lemma MinifiedPrint(v: Json, fmt: bool)
    ensures Minified(Text(v, 0, fmt, "")) == Some(PrintUnformatted(v))
  {
    MinifiedText(v, 0, fmt, "");
    assert PrintUnformatted(v) + "" == PrintUnformatted(v);
  }

  // ----- In place -----

  /** Of `text`, what is left from `pos` on, when `kept` has been kept. */
  ghost predicate Minifying(text: string, kept: string, rest: string) {
    Minified(text) == Before(kept, Minified(rest))
  }

  lemma MinifyingStarts(text: string)
    ensures Minifying(text, "", text)
  {
    BeforeNothing(Minified(text));
  }

  lemma MinifyingSkips(text: string, kept: string, rest: string, rest': string)
    requires Minifying(text, kept, rest) && Minified(rest) == Minified(rest')
    ensures Minifying(text, kept, rest')
  {
  }

  lemma MinifyingKeeps(text: string, kept: string, rest: string, more: string, rest': string, kept': string)
    requires Minifying(text, kept, rest) && Minified(rest) == Before(more, Minified(rest'))
    requires kept' == kept + more
    ensures Minifying(text, kept', rest')
  {
    BeforeBefore(kept, more, Minified(rest'));
  }

  /** Of a literal that takes `total` characters, `done` have been handled. */
  ghost predicate LiteralLeft(rest: string, done: nat, total: nat)
    ensures LiteralLeft(rest, done, total) ==> done < total <= done + |rest|
  {
    var n := LiteralLength(rest);
    n.Some? && n.value + done == total
  }

  lemma LiteralStep(rest: string, done: nat, total: nat)
    requires LiteralLeft(rest, done, total)
    ensures rest != []
    ensures rest[0] == '\"' ==> done + 1 == total
    ensures rest[0] != '\"' ==>
              var step := if rest[0] == '\\' then 2 else 1;
              step <= |rest| && LiteralLeft(rest[step..], done + step, total)
  {
  }

  /** What lay from `start` to `pos` has moved `down` places down; the rest of `json` is as
      `before`. */
  ghost predicate MovedDown(json: array<char>, before: seq<char>, start: nat, pos: nat, down: nat)
    reads json
    ensures MovedDown(json, before, start, pos, down) ==> down <= start <= pos <= json.Length == |before|
    ensures MovedDown(json, before, start, pos, down) && pos < json.Length ==> json[pos] == before[pos]
  {
    && down <= start <= pos <= json.Length == |before|
    && (forall k :: 0 <= k < start - down ==> json[k] == before[k])
    && (forall k :: start - down <= k < pos - down ==> json[k] == before[k + down])
    && (forall k :: pos <= k < json.Length ==> json[k] == before[k])
  }

  method CopyChar(json: array<char>, ghost before: seq<char>, ghost start: nat, pos: nat, down: nat)
    requires MovedDown(json, before, start, pos, down) && pos < json.Length
    modifies json
    ensures MovedDown(json, before, start, pos + 1, down)
  {
    json[pos - down] := json[pos];
  }

  lemma PlaceInText(before: seq<char>, pos: nat, n: nat, rest: string)
    requires pos <= n < |before| && before[n] == NUL && rest == before[pos..n] && NulFree(rest)
    ensures before[pos] == NUL <==> rest == []
    ensures rest != [] ==> before[pos] == rest[0]
    ensures forall step :: 0 <= step <= |rest| ==> rest[step..] == before[pos + step..n] && NulFree(rest[step..])
  {
    assert forall step, i :: 0 <= step <= |rest| && 0 <= i < |rest[step..]| ==> rest[step..][i] == rest[i + step];
  }

  /** Copies a literal down by `down` places, up to and with its closing quote. */
  method CopyLiteral(json: array<char>, ghost first: nat, start: nat, down: nat, n: nat,
                     ghost before: seq<char>, ghost text: string)
    returns (pos: nat)
    requires MovedDown(json, before, first, start, down)
    requires start <= n < |before| && before[n] == NUL && before[start..n] == text && NulFree(text)
    requires LiteralLength(text).Some?
    modifies json
    ensures pos == start + LiteralLength(text).value <= n
    ensures MovedDown(json, before, first, pos, down)
  {
    ghost var rest := text;
    ghost var total := LiteralLength(rest).value;
    pos := start;
    PlaceInText(before, pos, n, rest);
    while json[pos] != NUL && json[pos] != '\"'
      invariant pos <= n && MovedDown(json, before, first, pos, down)
      invariant rest == before[pos..n] && NulFree(rest) && LiteralLeft(rest, pos - start, total)
      invariant before[pos] == NUL <==> rest == []
      invariant rest != [] ==> before[pos] == rest[0]
      decreases n - pos
    {
      LiteralStep(rest, pos - start, total);
      PlaceInText(before, pos, n, rest);
      if json[pos] == '\\' {
        rest := rest[2..];
        CopyChar(json, before, first, pos, down);
        pos := pos + 1;
      } else {
        rest := rest[1..];
      }
      CopyChar(json, before, first, pos, down);
      pos := pos + 1;
      PlaceInText(before, pos, n, rest);
    }
    LiteralStep(rest, pos - start, total);
    CopyChar(json, before, first, pos, down);
    pos := pos + 1;
  }

  /** From `pos` on the buffer holds the terminated text `rest`. */
  ghost function Holds(json: array<char>, pos: nat, n: nat, rest: string): (st: Status)
    reads json
    ensures st.Sound? ==> pos <= n < json.Length && n == pos + |rest| && NulFree(rest)
    ensures st.Sound? ==> (json[pos] == NUL <==> rest == []) && (rest != [] ==> json[pos] == rest[0])
    ensures st.Sound? && |rest| > 1 ==> json[pos + 1] == rest[1]
    ensures st.Sound? && |rest| == 1 ==> json[pos + 1] == NUL
  {
    if && pos <= n < json.Length && json[n] == NUL && json[pos..n] == rest && NulFree(rest)
    then
      assert rest != [] ==> rest[0] == json[pos..n][0];
      Sound
    else Broken
  }

  lemma HoldsFurther(json: array<char>, pos: nat, n: nat, rest: string, step: nat)
    requires Holds(json, pos, n, rest).Sound? && step <= |rest|
    ensures Holds(json, pos + step, n, rest[step..]).Sound?
  {
    assert json[pos + step..n] == json[pos..n][step..];
    assert forall i :: 0 <= i < |rest[step..]| ==> rest[step..][i] == rest[i + step];
  }

  method LineEndAt(json: array<char>, start: nat, n: nat, ghost text: string) returns (pos: nat, ghost rest: string)
    requires Holds(json, start, n, text).Sound?
    ensures start <= pos && rest == SkipLine(text) && Holds(json, pos, n, rest).Sound?
  {
    pos, rest := start, text;
    while json[pos] != NUL && json[pos] != '\n'
      invariant start <= pos && Holds(json, pos, n, rest).Sound? && SkipLine(rest) == SkipLine(text)
      decreases n - pos
    {
      HoldsFurther(json, pos, n, rest, 1);
      pos, rest := pos + 1, rest[1..];
    }
  }

  method CommentEndAt(json: array<char>, start: nat, n: nat, ghost text: string) returns (pos: nat, ghost rest: string)
    requires Holds(json, start, n, text).Sound? && SkipComment(text).Some?
    ensures start + 2 <= pos && Some(rest) == SkipComment(text) && Holds(json, pos, n, rest).Sound?
  {
    pos, rest := start, text;
    while json[pos] != NUL && !(json[pos] == '*' && json[pos + 1] == '/')
      invariant start <= pos && Holds(json, pos, n, rest).Sound? && SkipComment(rest) == SkipComment(text)
      decreases n - pos
    {
      HoldsFurther(json, pos, n, rest, 1);
      pos, rest := pos + 1, rest[1..];
    }
    HoldsFurther(json, pos, n, rest, 2);
    pos, rest := pos + 2, rest[2..];
  }

  /** What a copy of `count` characters leaves. */
  lemma Copied(json: array<char>, before: seq<char>, pos: nat, into: nat, count: nat, n: nat, rest: string)
    requires into <= pos && count <= |rest| && MovedDown(json, before, pos, pos + count, pos - into)
    requires pos <= n < |before| && before[n] == NUL && before[pos..n] == rest && NulFree(rest)
    ensures Holds(json, pos + count, n, rest[count..]).Sound?
    ensures into + count <= n && json[..into + count] == before[..into] + rest[..count]
  {
    assert forall i :: 0 <= i < |rest[count..]| ==> rest[count..][i] == rest[i + count] == before[pos + (i + count)];
    assert json[pos + count..n] == rest[count..];
    assert forall i :: 0 <= i < count ==> rest[i] == before[pos + i];
  }

  lemma LiteralKept(text: string, kept: string, rest: string)
    requires rest != [] && rest[0] == '\"'
    requires Minifying(text, kept, rest) && Minified(text).Some?
    ensures LiteralLength(rest[1..]).Some?
    ensures var n := LiteralLength(rest[1..]).value + 1;
            n <= |rest| && Minifying(text, kept + rest[..n], rest[n..])
  {
    var n := LiteralLength(rest[1..]).value + 1;
    MinifyingKeeps(text, kept, rest, rest[..n], rest[n..], kept + rest[..n]);
  }

  /** A quote and the rest of the literal. */
  method KeepLiteral(json: array<char>, into: nat, pos: nat, n: nat, ghost text: string, ghost rest: string)
    returns (into': nat, pos': nat, ghost rest': string)
    requires into <= pos && Holds(json, pos, n, rest).Sound? && rest != [] && rest[0] == '\"'
    requires Minifying(text, json[..into], rest) && Minified(text).Some?
    modifies json
    ensures into' <= pos' && |rest'| < |rest| && Holds(json, pos', n, rest').Sound?
    ensures Minifying(text, json[..into'], rest')
  {
    ghost var before, kept := json[..], json[..into];
    LiteralKept(text, kept, rest);
    ghost var count := LiteralLength(rest[1..]).value + 1;
    BeforeCopy(json, before, pos, n, rest, pos - into);
    CopyChar(json, before, pos, pos, pos - into);
    pos' := CopyLiteral(json, pos, pos + 1, pos - into, n, before, rest[1..]);
    into' := into + (pos' - pos);
    rest' := rest[count..];
    KeptLiteral(json, before, pos, into, count, n, rest, kept, text, pos', into', rest');
  }

  lemma KeptLiteral(json: array<char>, before: seq<char>, pos: nat, into: nat, count: nat, n: nat, rest: string,
                    kept: string, text: string, pos': nat, into': nat, rest': string)
    requires into <= pos && 1 <= count <= |rest| && MovedDown(json, before, pos, pos', pos - into)
    requires pos <= n < |before| && before[n] == NUL && before[pos..n] == rest && NulFree(rest)
    requires before[..into] == kept && Minifying(text, kept + rest[..count], rest[count..])
    requires pos' == pos + count && into' == into + count && rest' == rest[count..]
    ensures into' <= pos' && |rest'| < |rest| && Holds(json, pos', n, rest').Sound?
    ensures Minifying(text, json[..into'], rest')
  {
    Copied(json, before, pos, into, count, n, rest);
  }

  lemma BeforeCopy(json: array<char>, before: seq<char>, pos: nat, n: nat, rest: string, down: nat)
    requires Holds(json, pos, n, rest).Sound? && before == json[..] && down <= pos
    ensures MovedDown(json, before, pos, pos, down)
    ensures pos <= n < |before| && before[n] == NUL && before[pos..n] == rest
    ensures rest != [] ==> pos < n && before[pos + 1..n] == rest[1..] && NulFree(rest[1..])
    ensures json[..pos - down] == before[..pos - down]
  {
    if rest != [] {
      TailOf(before, pos, n, rest);
    }
  }

  lemma TailOf(before: seq<char>, pos: nat, n: nat, rest: string)
    requires pos < n < |before| && before[pos..n] == rest && NulFree(rest)
    ensures before[pos + 1..n] == rest[1..] && NulFree(rest[1..])
  {
  }

  /** One step of the loop: a blank, a comment, a literal or any other character. */
  method MinifyOne(json: array<char>, into: nat, pos: nat, n: nat, ghost text: string, ghost rest: string)
    returns (into': nat, pos': nat, ghost rest': string)
    requires into <= pos && Holds(json, pos, n, rest).Sound? && rest != []
    requires Minifying(text, json[..into], rest) && Minified(text).Some?
    modifies json
    ensures into' <= pos' && |rest'| < |rest| && Holds(json, pos', n, rest').Sound?
    ensures Minifying(text, json[..into'], rest')
  {
    ghost var before, kept := json[..], json[..into];
    into' := into;
    if json[pos] == ' ' || json[pos] == '\t' || json[pos] == '\r' || json[pos] == '\n' {
      HoldsFurther(json, pos, n, rest, 1);
      pos', rest' := pos + 1, rest[1..];
      MinifyingSkips(text, kept, rest, rest');
    } else if json[pos] == '/' && json[pos + 1] == '/' {
      HoldsFurther(json, pos, n, rest, 1);
      pos', rest' := LineEndAt(json, pos + 1, n, rest[1..]);
      MinifyingSkips(text, kept, rest, rest');
    } else if json[pos] == '/' && json[pos + 1] == '*' {
      HoldsFurther(json, pos, n, rest, 1);
      pos', rest' := CommentEndAt(json, pos + 1, n, rest[1..]);
      MinifyingSkips(text, kept, rest, rest');
    } else if json[pos] == '\"' {
      into', pos', rest' := KeepLiteral(json, into, pos, n, text, rest);
    } else {
      CopyChar(json, before, pos, pos, pos - into);
      into', pos', rest' := into + 1, pos + 1, rest[1..];
      Copied(json, before, pos, into, 1, n, rest);
      assert rest[..1] == [rest[0]];
      MinifyingKeeps(text, kept, rest, rest[..1], rest', json[..into']);
    }
  }

  /** cJSON_Minify: the buffer holds terminated text and gets its minified text, never
      writing ahead of what has been read. */
  method Minify(json: array<char>, n: nat)
    requires n < json.Length && json[n] == NUL && NulFree(json[..n]) && Minified(json[..n]).Some?
    modifies json
    ensures var m := Minified(old(json[..n])).value;
            |m| <= n && json[..|m|] == m && json[|m|] == NUL
  {
    ghost var text := json[..n];
    var into: nat, pos: nat := 0, 0;
    ghost var rest := text;
    MinifyingStarts(text);
    assert json[0..n] == text && json[..0] == "";
    while json[pos] != NUL
      invariant into <= pos && Holds(json, pos, n, rest).Sound?
      invariant Minifying(text, json[..into], rest)
      decreases |rest|
    {
      into, pos, rest := MinifyOne(json, into, pos, n, text, rest);
    }
    ghost var kept := json[..into];
    MinifyingEnds(text, kept);
    json[into] := NUL;
    assert json[..into] == kept;
  }

  lemma MinifyingEnds(text: string, kept: string)
    requires Minifying(text, kept, "")
    ensures Minified(text) == Some(kept)
  {
    assert kept + [] == kept;
  }
}
