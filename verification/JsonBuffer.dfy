/** The printer of test/test_cjson/cJSON.c that writes into one growing buffer. */
module JsonBuffer {
  import opened Common
  import opened JsonText
  import opened JsonLayout
  import opened JsonGrowth
  import opened JsonPrinter

  /** Sizes stay in the 31 bits of an int, rounding up included. */
  const MAX_SIZE: nat := 0x4000_0000

  /** The most that is asked for ahead of what a value takes. */
  const SLACK: nat := 20

  // ----- Printed text holds no terminator -----

  ghost predicate Terminates(s: string) {
    NulFree(s)
  }

  lemma ConsTerminates(c: char, rest: string)
    requires c != NUL && Terminates(rest)
    ensures Terminates(Cons(c, rest))
  {
  }

  lemma WordTerminates(w: string, rest: string)
    requires NulFree(w) && Terminates(rest)
    ensures Terminates(Word(w, rest))
  {
  }

  lemma {:induction false} TabsTerminate(n: int, rest: string)
    requires Terminates(rest)
    ensures Terminates(Tabs(n, rest))
    decreases n
  {
    if n > 0 {
      TabsTerminate(n - 1, rest);
      ConsTerminates('\t', Tabs(n - 1, rest));
    }
  }

  lemma {:induction false} DecimalTerminates(n: nat, rest: string)
    requires Terminates(rest)
    ensures Terminates(Decimal(n, rest))
  {
    ConsTerminates(Digit(n % 10), rest);
    if n >= 10 {
      DecimalTerminates(n / 10, Cons(Digit(n % 10), rest));
    }
  }

  lemma NumberTerminates(n: Int32, rest: string)
    requires Terminates(rest)
    ensures Terminates(NumberText(n, rest))
  {
    var m: int := n;
    DecimalTerminates(if m < 0 then -m else m, rest);
    ConsTerminates('-', Decimal(if m < 0 then -m else m, rest));
  }

  lemma {:induction false} EscapeTerminates(c: char, rest: string)
    requires c != NUL && Terminates(rest)
    ensures Terminates(Escape(c, rest))
  {
  }

  lemma {:induction false} EscapedTerminates(s: string, rest: string)
    requires NulFree(s) && Terminates(rest)
    ensures Terminates(Escaped(s, rest))
  {
    if s != [] {
      EscapedTerminates(s[1..], rest);
      EscapeTerminates(s[0], Escaped(s[1..], rest));
    }
  }

  lemma QuotedTerminates(s: string, rest: string)
    requires NulFree(s) && Terminates(rest)
    ensures Terminates(Quoted(s, rest))
  {
    ConsTerminates('\"', rest);
    EscapedTerminates(s, Cons('\"', rest));
    ConsTerminates('\"', Escaped(s, Cons('\"', rest)));
  }

  lemma SpacedTerminates(c: char, fmt: bool, blank: char, rest: string)
    requires c != NUL && blank != NUL && Terminates(rest)
    ensures Terminates(Cons(c, if fmt then Cons(blank, rest) else rest))
  {
    ConsTerminates(blank, rest);
    ConsTerminates(c, if fmt then Cons(blank, rest) else rest);
  }

  lemma {:induction false} TextTerminates(v: Json, depth: nat, fmt: bool, rest: string)
    requires Clean(v) && Terminates(rest)
    ensures Terminates(Text(v, depth, fmt, rest))
    decreases v
  {
    match v
    case Null => WordTerminates("null", rest);
    case False => WordTerminates("false", rest);
    case True => WordTerminates("true", rest);
    case Number(n) => NumberTerminates(n, rest);
    case String(s) => QuotedTerminates(s, rest);
    case Array(items) =>
      ConsTerminates(']', rest);
      ItemsTerminate(items, depth + 1, fmt, Cons(']', rest));
      ConsTerminates('[', ItemsText(items, depth + 1, fmt, Cons(']', rest)));
    case Object(members) =>
      ConsTerminates('}', rest);
      TabsTerminate(depth, Cons('}', rest));
      TabsTerminate(depth - 1, Cons('}', rest));
      if members.NoMembers? {
        var close := if fmt then Tabs(depth - 1, Cons('}', rest)) else Cons('}', rest);
        SpacedTerminates('{', fmt, '\n', close);
      } else {
        var tail := if fmt then Tabs(depth, Cons('}', rest)) else Cons('}', rest);
        MembersTerminate(members, depth + 1, fmt, tail);
        SpacedTerminates('{', fmt, '\n', MembersText(members, depth + 1, fmt, tail));
      }
  }

  lemma {:induction false} ItemsTerminate(items: Items, depth: nat, fmt: bool, rest: string)
    requires CleanItems(items) && Terminates(rest)
    ensures Terminates(ItemsText(items, depth, fmt, rest))
    decreases items
  {
    if items.Item? {
      if items.next.NoItems? {
        TextTerminates(items.value, depth, fmt, rest);
      } else {
        var tail := ItemsText(items.next, depth, fmt, rest);
        ItemsTerminate(items.next, depth, fmt, rest);
        SpacedTerminates(',', fmt, ' ', tail);
        TextTerminates(items.value, depth, fmt, Cons(',', if fmt then Cons(' ', tail) else tail));
      }
    }
  }

  lemma {:induction false} MembersTerminate(members: Members, depth: nat, fmt: bool, rest: string)
    requires CleanMembers(members) && Terminates(rest)
    ensures Terminates(MembersText(members, depth, fmt, rest))
    decreases members
  {
    if members.Member? {
      var tail := MembersText(members.next, depth, fmt, rest);
      var line := if fmt then Cons('\n', tail) else tail;
      MembersTerminate(members.next, depth, fmt, rest);
      ConsTerminates('\n', tail);
      ConsTerminates(',', line);
      var value := Text(members.value, depth, fmt, if members.next.Member? then Cons(',', line) else line);
      TextTerminates(members.value, depth, fmt, if members.next.Member? then Cons(',', line) else line);
      SpacedTerminates(':', fmt, '\t', value);
      var sep := Cons(':', if fmt then Cons('\t', value) else value);
      QuotedTerminates(members.name, sep);
      TabsTerminate(depth, Quoted(members.name, sep));
    }
  }

  /** The buffer holds the terminated text `whole`, which ends at or after `offset`. */
  ghost predicate Printed(a: array<char>, offset: nat, whole: string)
    reads a
    ensures Printed(a, offset, whole) ==>
              offset <= |whole| < a.Length && a[|whole|] == NUL && Written(a, |whole|, whole).Sound?
  {
    offset <= |whole| < a.Length && a[|whole|] == NUL && Written(a, |whole|, whole).Sound?
  }

  lemma OnlyAtEnd(a: array<char>, offset: nat, whole: string, i: nat)
    requires Printed(a, offset, whole) && Terminates(whole) && i <= |whole|
    ensures a[i] == NUL <==> i == |whole|
  {
    assert i < |whole| ==> a[..|whole|][i] == whole[i];
  }

  /** memcpy of a whole block into a larger one. */
  method CopyBlock(from: array<char>, to: array<char>, offset: nat, ghost done: string)
    requires from != to && from.Length <= to.Length && Written(from, offset, done).Sound?
    modifies to
    ensures Written(to, offset, done).Sound?
  {
    var i := 0;
    while i < from.Length
      invariant i <= from.Length && to[..i] == from[..i]
    {
      to[i] := from[i];
      i := i + 1;
    }
    assert to[..offset] == to[..i][..offset] == from[..i][..offset] == from[..offset];
  }

  /** There is room for `text` after `done` and for what is ensured ahead of it. */
  ghost predicate Fits(done: string, text: string)
    ensures Fits(done, text) ==> |done| + |text| + SLACK <= MAX_SIZE
  {
    |done| + |text| + SLACK <= MAX_SIZE
  }

  lemma WholeTerminates(done: string, v: Json, depth: nat, fmt: bool)
    requires Clean(v) && Terminates(done)
    ensures Terminates(done + Text(v, depth, fmt, ""))
  {
    var t := Text(v, depth, fmt, "");
    TextTerminates(v, depth, fmt, "");
    assert NulFree(done) && NulFree(t);
    forall i | 0 <= i < |done + t|
      ensures (done + t)[i] != NUL
    {
      assert (done + t)[i] == if i < |done| then done[i] else t[i - |done|];
    }
    assert NulFree(done + t);
  }

  lemma PartTerminates(whole: string, cur: string, text: string, rest: string)
    requires Terminates(whole) && Composing(whole, cur, text + rest) && |whole| + SLACK <= MAX_SIZE
    ensures Terminates(cur) && Terminates(cur + text) && Fits(cur, text)
  {
    Joined(cur, text, rest);
    assert whole == cur + text + rest && NulFree(whole);
    forall i | 0 <= i < |cur + text|
      ensures (cur + text)[i] != NUL
    {
      assert (cur + text)[i] == whole[i];
    }
    forall i | 0 <= i < |cur|
      ensures cur[i] != NUL
    {
      assert cur[i] == whole[i];
    }
    assert NulFree(cur + text) && NulFree(cur);
  }

  lemma ArrayStarts(whole: string, done: string, items: Items, depth: nat, fmt: bool)
    requires whole == done + Text(Array(items), depth, fmt, "")
    ensures Composing(whole, done + "[", ItemsText(items, depth + 1, fmt, "]"))
  {
    assert Cons(']', "") == "]";
    Joined(done, "[", ItemsText(items, depth + 1, fmt, "]"));
  }

  lemma ObjectStarts(whole: string, done: string, members: Members, depth: nat, fmt: bool)
    requires members.Member? && whole == done + Text(Object(members), depth, fmt, "")
    ensures Composing(whole, done + Open(fmt), MembersText(members, depth + 1, fmt, Indent(depth, fmt) + "}"))
  {
    CloseLength(depth, fmt);
    ObjectText(members, depth, fmt, "");
    Joined(done, Open(fmt), MembersText(members, depth + 1, fmt, Indent(depth, fmt) + "}"));
  }

  lemma ItemPart(items: Items, depth: nat, fmt: bool, rest: string)
    requires items.Item?
    ensures ItemsText(items, depth, fmt, rest) ==
            Text(items.value, depth, fmt, "") +
              ((if items.next.Item? then Comma(fmt) else "") + ItemsText(items.next, depth, fmt, rest))
  {
    if items.next.NoItems? {
      TextAppend(items.value, depth, fmt, rest);
      assert "" + rest == rest;
    } else {
      var tail := ItemsText(items.next, depth, fmt, rest);
      assert Cons(',', if fmt then Cons(' ', tail) else tail) == Comma(fmt) + tail;
      TextAppend(items.value, depth, fmt, Comma(fmt) + tail);
    }
  }

  /** Where the returned pointer points to: the start of the text, but for a formatted
      object with members, whose closing indentation overwrites the index kept for it. */
  function StartOf(v: Json, depth: nat, fmt: bool, offset: nat): nat {
    if v.Object? && v.members.Member? && fmt then depth else offset
  }

  class PrintBuffer {
    var buffer: array<char>
    var offset: nat

    constructor (prebuffer: nat)
      requires prebuffer > 0
      ensures fresh(buffer) && buffer.Length == prebuffer && offset == 0
    {
      buffer := new char[prebuffer];
      offset := 0;
    }

    /** Makes room for `needed` characters at the offset, keeping what is there. */
    method Ensure(needed: nat, ghost done: string)
      requires Written(buffer, offset, done).Sound? && 0 < needed && offset + needed <= MAX_SIZE
      modifies this`buffer
      ensures Written(buffer, offset, done).Sound? && offset + needed <= buffer.Length
      ensures buffer == old(buffer) || fresh(buffer)
    {
      var size := needed + offset;
      if size <= buffer.Length {
        return;
      }
      var newsize := Pow2gt(size);
      ghost var k := GrowsToPower(size);
      var newbuffer := new char[newsize];
      CopyBlock(buffer, newbuffer, offset, done);
      buffer := newbuffer;
    }

    /** The offset after what was printed there. */
    method Update(ghost whole: string) returns (end: nat)
      requires Printed(buffer, offset, whole) && Terminates(whole)
      ensures end == |whole|
    {
      end := offset;
      while buffer[end] != NUL
        invariant offset <= end <= |whole|
        decreases |whole| - end
      {
        OnlyAtEnd(buffer, offset, whole, end);
        end := end + 1;
      }
      OnlyAtEnd(buffer, offset, whole, end);
    }

    /** Ensures `room`, writes `s` at the offset and moves on. */
    method Append(s: string, room: nat, terminate: bool, ghost done: string)
      requires Written(buffer, offset, done).Sound? && |s| + (if terminate then 1 else 0) <= room && room > 0
      requires offset + room <= MAX_SIZE
      modifies this, buffer
      ensures Written(buffer, offset, done + s).Sound? && offset == old(offset) + |s|
      ensures terminate ==> offset < buffer.Length && buffer[offset] == NUL
      ensures buffer == old(buffer) || fresh(buffer)
    {
      Ensure(room, done);
      var ptr := Copy(buffer, offset, s, done);
      if terminate {
        Terminate(buffer, ptr, done + s);
      }
      offset := ptr;
    }

    /** Ensures `room` and writes `s` and its terminator at the offset, which stays. */
    method Place(s: string, room: nat, ghost done: string)
      requires Written(buffer, offset, done).Sound? && |s| < room && offset + room <= MAX_SIZE
      modifies this`buffer, buffer
      ensures Printed(buffer, offset, done + s)
      ensures buffer == old(buffer) || fresh(buffer)
    {
      Ensure(room, done);
      var end := Copy(buffer, offset, s, done);
      Terminate(buffer, end, done + s);
    }

    method PrintStringPtr(str: string, ghost done: string)
      requires NulFree(str) && Written(buffer, offset, done).Sound?
      requires Fits(done, Quoted(str, ""))
      modifies this`buffer, buffer
      ensures Printed(buffer, offset, done + Quoted(str, ""))
      ensures buffer == old(buffer) || fresh(buffer)
    {
      var flag, len := CountEscaped(str);
      QuotedParts(str);
      Ensure(len + 3, done);
      FillString(buffer, offset, str, flag, done);
    }

    method PrintNumber(n: Int32, ghost done: string)
      requires Written(buffer, offset, done).Sound? && Fits(done, NumberText(n, ""))
      modifies this`buffer, buffer
      ensures Printed(buffer, offset, done + NumberText(n, ""))
      ensures buffer == old(buffer) || fresh(buffer)
    {
      NumberFits(n);
      // sprintf writes the number in decimal.
      Place(NumberText(n, ""), if n == 0 then 2 else 21, done);
    }

    /** print_value with a buffer: the text goes to the offset, which may move on as far as
        the end of the text. */
    method PrintValue(v: Json, depth: nat, fmt: bool, ghost done: string) returns (out: nat)
      requires Clean(v) && Written(buffer, offset, done).Sound? && Terminates(done)
      requires Fits(done, Text(v, depth, fmt, ""))
      modifies this, buffer
      ensures Printed(buffer, offset, done + Text(v, depth, fmt, ""))
      ensures out == StartOf(v, depth, fmt, old(offset)) && old(offset) <= offset
      ensures buffer == old(buffer) || fresh(buffer)
      decreases v, 1
    {
      out := offset;
      match v {
        case Null => Place("null", 5, done); assert Word("null", "") == "null";
        case False => Place("false", 6, done); assert Word("false", "") == "false";
        case True => Place("true", 5, done); assert Word("true", "") == "true";
        case Number(n) => PrintNumber(n, done);
        case String(s) => PrintStringPtr(s, done);
        case Array(items) => out := PrintArray(items, depth, fmt, done);
        case Object(members) => out := PrintObject(members, depth, fmt, done);
      }
    }

    method PrintArray(items: Items, depth: nat, fmt: bool, ghost done: string) returns (out: nat)
      requires CleanItems(items) && Written(buffer, offset, done).Sound? && Terminates(done)
      requires Fits(done, Text(Array(items), depth, fmt, ""))
      modifies this, buffer
      ensures Printed(buffer, offset, done + Text(Array(items), depth, fmt, ""))
      ensures out == old(offset) <= offset
      ensures buffer == old(buffer) || fresh(buffer)
      decreases items, 2
    {
      out := offset;
      if items.NoItems? {
        assert Text(Array(items), depth, fmt, "") == "[]";
        Place("[]", 3, done);
        return;
      }
      ghost var whole := done + Text(Array(items), depth, fmt, "");
      WholeTerminates(done, Array(items), depth, fmt);
      ArrayStarts(whole, done, items, depth, fmt);
      Append("[", 1, false, done);
      ghost var cur := done + "[";
      var child := items;
      while child.Item?
        invariant CleanItems(child) && (child == items || child < items)
        invariant Written(buffer, offset, cur).Sound? && out <= offset
        invariant Composing(whole, cur, ItemsText(child, depth + 1, fmt, "]"))
        invariant buffer == old(buffer) || fresh(buffer)
        decreases child
      {
        cur := PrintItem(child, depth + 1, fmt, whole, cur);
        child := child.next;
      }
      Place("]", 2, cur);
    }

    /** One item and the comma after it. */
    method PrintItem(child: Items, depth: nat, fmt: bool, ghost whole: string, ghost cur: string)
      returns (ghost cur': string)
      requires CleanItems(child) && child.Item? && Written(buffer, offset, cur).Sound?
      requires Composing(whole, cur, ItemsText(child, depth, fmt, "]"))
      requires Terminates(whole) && |whole| + SLACK <= MAX_SIZE
      modifies this, buffer
      ensures Written(buffer, offset, cur').Sound? && old(offset) <= offset
      ensures Composing(whole, cur', ItemsText(child.next, depth, fmt, "]"))
      ensures buffer == old(buffer) || fresh(buffer)
      decreases child, 1
    {
      ghost var text := Text(child.value, depth, fmt, "");
      ItemPart(child, depth, fmt, "]");
      ghost var after := (if child.next.Item? then Comma(fmt) else "") + ItemsText(child.next, depth, fmt, "]");
      Composed(whole, cur, text, after);
      PartTerminates(whole, cur, text, after);
      var o := PrintValue(child.value, depth, fmt, cur);
      offset := Update(cur + text);
      cur' := cur + text;
      Composed(whole, cur', if child.next.Item? then Comma(fmt) else "", ItemsText(child.next, depth, fmt, "]"));
      if child.next.Item? {
        var len := if fmt then 2 else 1;
        Append(if fmt then ", " else ",", len + 1, true, cur');
        cur' := cur' + Comma(fmt);
      } else {
        assert cur' + "" == cur';
      }
    }

    method PrintObject(members: Members, depth: nat, fmt: bool, ghost done: string) returns (out: nat)
      requires CleanMembers(members) && Written(buffer, offset, done).Sound? && Terminates(done)
      requires Fits(done, Text(Object(members), depth, fmt, ""))
      modifies this, buffer
      ensures Printed(buffer, offset, done + Text(Object(members), depth, fmt, ""))
      ensures out == StartOf(Object(members), depth, fmt, old(offset)) && old(offset) <= offset
      ensures buffer == old(buffer) || fresh(buffer)
      decreases members, 2
    {
      var i := offset;
      out := i;
      if members.NoMembers? {
        PrintEmpty(depth, fmt, done);
        return;
      }
      ghost var whole := done + Text(Object(members), depth, fmt, "");
      WholeTerminates(done, Object(members), depth, fmt);
      ObjectStarts(whole, done, members, depth, fmt);
      Append(if fmt then "{\n" else "{", if fmt then 3 else 2, true, done);
      ghost var cur := done + Open(fmt);
      var child := members;
      while child.Member?
        invariant CleanMembers(child) && (child == members || child < members)
        invariant Written(buffer, offset, cur).Sound? && i == old(offset) <= offset
        invariant Composing(whole, cur, MembersText(child, depth + 1, fmt, Indent(depth, fmt) + "}"))
        invariant buffer == old(buffer) || fresh(buffer)
        decreases child
      {
        cur := PrintMember(child, depth + 1, fmt, whole, cur, Indent(depth, fmt) + "}");
        child := child.next;
      }
      out := CloseObject(i, depth, fmt, whole, cur);
    }

    method PrintEmpty(depth: nat, fmt: bool, ghost done: string)
      requires Written(buffer, offset, done).Sound? && Fits(done, Text(Object(NoMembers), depth, fmt, ""))
      modifies this`buffer, buffer
      ensures Printed(buffer, offset, done + Text(Object(NoMembers), depth, fmt, ""))
      ensures buffer == old(buffer) || fresh(buffer)
    {
      EmptyParts(depth, fmt);
      Ensure(if fmt then depth + 4 else 3, done);
      var end := FillEmptyObject(buffer, offset, depth, fmt, done);
    }

    /** The closing line. Its indentation is counted by the same variable that keeps the
        start of the text; the result is what the variable holds in the end. */
    method CloseObject(start: nat, depth: nat, fmt: bool, ghost whole: string, ghost cur: string) returns (i: nat)
      requires Written(buffer, offset, cur).Sound? && |whole| + SLACK <= MAX_SIZE
      requires Composing(whole, cur, Indent(depth, fmt) + "}")
      modifies this`buffer, buffer
      ensures Printed(buffer, offset, whole) && i == if fmt then depth else start
      ensures buffer == old(buffer) || fresh(buffer)
    {
      CloseLength(depth, fmt);
      Composed(whole, cur, Indent(depth, fmt), "}");
      Ensure(if fmt then depth + 2 else 2, cur);
      var ptr := offset;
      i := start;
      if fmt {
        ptr := PutTabs(buffer, ptr, depth, cur);
        i := depth;
      } else {
        assert cur + Indent(depth, fmt) == cur;
      }
      ptr := Put(buffer, ptr, '}', cur + Indent(depth, fmt));
      Terminate(buffer, ptr, whole);
    }

    /** One member: its indentation, its name, a colon, its value and the end of its line. */
    method PrintMember(child: Members, depth: nat, fmt: bool, ghost whole: string, ghost cur: string,
                       ghost tail: string)
      returns (ghost cur': string)
      requires CleanMembers(child) && child.Member? && Written(buffer, offset, cur).Sound? && depth > 0
      requires Composing(whole, cur, MembersText(child, depth, fmt, tail))
      requires Terminates(whole) && |whole| + SLACK <= MAX_SIZE
      modifies this, buffer
      ensures Written(buffer, offset, cur').Sound? && old(offset) <= offset
      ensures Composing(whole, cur', MembersText(child.next, depth, fmt, tail))
      ensures buffer == old(buffer) || fresh(buffer)
      decreases child, 1
    {
      ghost var name, value := Quoted(child.name, ""), Text(child.value, depth, fmt, "");
      ghost var after := MembersText(child.next, depth, fmt, tail);
      ghost var line := LineEnd(child.next, fmt) + after;
      MemberParts(child, depth, fmt, tail);
      cur' := PrintIndent(depth, fmt, whole, cur, name + (Colon(fmt) + (value + line)));

      PartTerminates(whole, cur', name, Colon(fmt) + (value + line));
      Composed(whole, cur', name, Colon(fmt) + (value + line));
      PrintStringPtr(child.name, cur');
      offset := Update(cur' + name);
      cur' := cur' + name;

      Composed(whole, cur', Colon(fmt), value + line);
      Append(if fmt then ":\t" else ":", if fmt then 2 else 1, false, cur');
      cur' := cur' + Colon(fmt);

      PartTerminates(whole, cur', value, line);
      Composed(whole, cur', value, line);
      var o := PrintValue(child.value, depth, fmt, cur');
      offset := Update(cur' + value);
      cur' := cur' + value;

      Composed(whole, cur', LineEnd(child.next, fmt), after);
      var end := (if child.next.Member? then "," else "") + (if fmt then "\n" else "");
      Append(end, |end| + 1, true, cur');
      cur' := cur' + LineEnd(child.next, fmt);
    }

    method PrintIndent(depth: nat, fmt: bool, ghost whole: string, ghost cur: string, ghost rest: string)
      returns (ghost cur': string)
      requires Written(buffer, offset, cur).Sound? && depth > 0
      requires Composing(whole, cur, Indent(depth, fmt) + rest) && |whole| + SLACK <= MAX_SIZE
      modifies this, buffer
      ensures Written(buffer, offset, cur').Sound? && Composing(whole, cur', rest) && old(offset) <= offset
      ensures buffer == old(buffer) || fresh(buffer)
    {
      TabsAppend(depth, "");
      Composed(whole, cur, Indent(depth, fmt), rest);
      cur' := cur + Indent(depth, fmt);
      if fmt {
        Ensure(depth, cur);
        offset := PutTabs(buffer, offset, depth, cur);
      } else {
        assert cur' == cur;
      }
    }
  }

  /** cJSON_PrintBuffered. The returned pointer is the start of the buffer only because the
      depth and the offset are both zero here. */
  method PrintBuffered(v: Json, prebuffer: nat, fmt: bool) returns (out: string)
    requires Clean(v) && prebuffer > 0 && |Text(v, 0, fmt, "")| + SLACK <= MAX_SIZE
    ensures out == Text(v, 0, fmt, "")
  {
    var p := new PrintBuffer(prebuffer);
    ghost var whole := Text(v, 0, fmt, "");
    NothingBefore(whole);
    WholeTerminates("", v, 0, fmt);
    var start := p.PrintValue(v, 0, fmt, "");
    var end := start;
    while p.buffer[end] != NUL
      invariant end <= |whole|
      modifies {}
      decreases |whole| - end
    {
      OnlyAtEnd(p.buffer, p.offset, whole, end);
      end := end + 1;
    }
    OnlyAtEnd(p.buffer, p.offset, whole, end);
    out := p.buffer[start..end];
  }
}
