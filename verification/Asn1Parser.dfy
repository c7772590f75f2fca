/** The table-driven parser of library/encoder/src/asn1Parser.cpp: a window into the blob
    for each level of nesting. */
module Asn1Parser {
  import opened Common
  import opened Asn1Length

  const ASN1_MAX_LEVEL: nat := 10
  const ASN1_PARSER_EOC: nat := 0

  datatype Flags = Flags(def: bool, opt: bool, loop: bool, choice: bool, ch: bool, end: bool,
                         obj: bool, body: bool, raw: bool, exit: bool)

  /** A line of a syntax definition. */
  datatype Line = Line(level: nat, tag: nat, flags: Flags)

  predicate Constructed(tag: nat) {
    tag / 0x20 % 2 == 1
  }

  /** The marker that a scan for the end of an option or loop, or of a choice, looks for. */
  predicate Marks(line: Line, level: int, choice: bool) {
    line.flags.end && line.level == level && (choice ==> line.flags.choice)
  }

  predicate HasMark(objects: seq<Line>, i: nat, level: int, choice: bool) {
    exists j :: i < j < |objects| && Marks(objects[j], level, choice)
  }

  /** A syntax definition: it ends with the exit line, levels are in range, and options,
      loops and choices have their end markers. */
  predicate Syntax(objects: seq<Line>) {
    && objects != [] && objects[|objects| - 1].flags.exit
    && forall i :: 0 <= i < |objects| - 1 ==>
         var line := objects[i];
         && !line.flags.exit && line.level <= ASN1_MAX_LEVEL
         && (line.flags.opt || line.flags.loop ==> HasMark(objects[..|objects| - 1], i, line.level, false))
         && (line.flags.end && line.flags.ch ==> HasMark(objects[..|objects| - 1], i, line.level - 1, true))
         && (line.flags.def && Constructed(line.tag) ==> i + 2 < |objects|)
  }

  /** `c` lies in `w`. */
  predicate Within(c: Chunk, w: Chunk) {
    c != NO_CHUNK && w != NO_CHUNK && w.ptr <= c.ptr && End(c) <= End(w)
  }

  /** A window moved on: its end stays. */
  predicate MovedOn(w: Chunk, w0: Chunk) {
    w == w0 || (w0 != NO_CHUNK && w != NO_CHUNK && w.ptr >= w0.ptr && End(w) == End(w0))
  }

  const NONE := Flags(false, false, false, false, false, false, false, false, false, false)
  const LOOP := NONE.(loop := true)
  const BODY := NONE.(body := true)
  const END := NONE.(end := true)
  const EXIT := NONE.(exit := true)

  /** One object with the given tag and nothing behind it. */
  predicate WholeObject(item: seq<Byte>, tag: nat)
    ensures WholeObject(item, tag) ==> |item| >= 2 && Accepted(item).Some?
  {
    && |item| >= 2 && item[0] == tag && Accepted(item).Some?
    && Accepted(item).value.octets + Accepted(item).value.length == |item|
  }

  /** What stands behind the header of an object. */
  function ContentsOf(item: seq<Byte>): seq<Byte> {
    if Accepted(item).Some? then item[Accepted(item).value.octets..] else []
  }

  function Flat(elements: seq<seq<Byte>>): seq<Byte> {
    if elements == [] then [] else elements[0] + Flat(elements[1..])
  }

  /** An object is read alike whatever comes behind it. */
  lemma AcceptedInFront(item: seq<Byte>, tag: nat, rest: seq<Byte>)
    requires WholeObject(item, tag)
    ensures Accepted(item + rest) == Accepted(item)
  {
    var k := item[1] as int - 0x80;
    if k > 0 {
      assert (item + rest)[2..2 + k] == item[2..2 + k];
    }
  }

  /** There are no contents just when there are no elements. */
  lemma NothingFlat(elements: seq<seq<Byte>>, tag: nat)
    requires forall i :: 0 <= i < |elements| ==> WholeObject(elements[i], tag)
    ensures Flat(elements) == [] <==> elements == []
  {
    if elements != [] {
      assert WholeObject(elements[0], tag);
    }
  }

  lemma PartOf(bytes: seq<Byte>, p: nat, n: nat, i: nat, j: nat)
    requires p + n <= |bytes| && i <= j <= n
    ensures bytes[p..p + n][i..j] == bytes[p + i..p + j]
  {
    var w, v := bytes[p..p + n][i..j], bytes[p + i..p + j];
    assert |w| == |v| && forall k :: 0 <= k < |w| ==> w[k] == v[k];
  }

  /** A window that starts with an object: where its contents are and what is left. */
  lemma FirstObject(bytes: seq<Byte>, w0: Chunk, item: seq<Byte>, tag: nat, rest: seq<Byte>)
    requires Inside(w0, |bytes|) && w0 != NO_CHUNK && bytes[w0.ptr..End(w0)] == item + rest && WholeObject(item, tag)
    ensures w0.len >= 2 && bytes[w0.ptr] == tag
    ensures Accepted(bytes[w0.ptr..End(w0)]) == Accepted(item)
    ensures var at := w0.ptr + Accepted(item).value.octets;
            && at <= w0.ptr + |item| <= End(w0)
            && bytes[at..w0.ptr + |item|] == ContentsOf(item) && bytes[w0.ptr + |item|..End(w0)] == rest
  {
    AcceptedInFront(item, tag, rest);
    var w := bytes[w0.ptr..End(w0)];
    assert w[0] == item[0];
    hide Accepted;
    PartOf(bytes, w0.ptr, w0.len, Accepted(item).value.octets, |item|);
    PartOf(bytes, w0.ptr, w0.len, |item|, w0.len);
    assert w[Accepted(item).value.octets..|item|] == ContentsOf(item);
  }

  class Parser {
    const bytes: seq<Byte>
    const mpObjects: seq<Line>
    const mImplicit: bool
    var mLine: int
    var mSuccess: bool
    const mLoopAddr: array<int>
    const mBlobs: array<Chunk>
    const mChoice: array<bool>

    /** The parser has not failed and has not reached the exit line. */
    ghost predicate Valid()
      reads this, mLoopAddr, mBlobs, mChoice
    {
      && mSuccess && Syntax(mpObjects) && -1 <= mLine < |mpObjects| - 1
      && mLoopAddr.Length == ASN1_MAX_LEVEL + 1 && mBlobs.Length == mChoice.Length == ASN1_MAX_LEVEL + 2
      && (forall k :: 0 <= k < mLoopAddr.Length ==> 0 <= mLoopAddr[k] < |mpObjects| - 1)
      && (forall k :: 0 <= k < mBlobs.Length ==> Inside(mBlobs[k], |bytes|))
    }

    constructor (objects: seq<Line>, blob: seq<Byte>, implicitType: bool)
      requires Syntax(objects) && |objects| > 1
      ensures Valid() && mLine == -1 && bytes == blob && mpObjects == objects && mImplicit == implicitType
      ensures fresh(mLoopAddr) && fresh(mBlobs) && fresh(mChoice)
      ensures mBlobs[0] == Chunk(0, |blob|) && forall k :: 1 <= k < mBlobs.Length ==> mBlobs[k] == NO_CHUNK
      ensures forall k :: 0 <= k < mLoopAddr.Length ==> mLoopAddr[k] == 0
      ensures forall k :: 0 <= k < mChoice.Length ==> !mChoice[k]
    {
      bytes := blob;
      mpObjects := objects;
      mImplicit := implicitType;
      mLine := -1;
      mSuccess := true;
      mLoopAddr := new int[ASN1_MAX_LEVEL + 1](i => 0);
      mBlobs := new Chunk[ASN1_MAX_LEVEL + 2](i => NO_CHUNK);
      mChoice := new bool[ASN1_MAX_LEVEL + 2](i => false);
      new;
      mBlobs[0] := Chunk(0, |blob|);
    }

    ghost predicate FirstMark(from: int, to: int, level: int, choice: bool) {
      && -1 <= from < to < |mpObjects| && Marks(mpObjects[to], level, choice)
      && forall j :: from < j < to ==> !Marks(mpObjects[j], level, choice)
    }

    /** do mLine++ until the marker */
    method Scan(level: int, choice: bool)
      requires 0 <= mLine < |mpObjects| - 1 && HasMark(mpObjects[..|mpObjects| - 1], mLine, level, choice)
      modifies this`mLine
      ensures old(mLine) < mLine < |mpObjects| - 1 && FirstMark(old(mLine), mLine, level, choice)
    {
      ghost var lines := mpObjects[..|mpObjects| - 1];
      ghost var j :| mLine < j < |lines| && Marks(lines[j], level, choice);
      mLine := mLine + 1;
      while !Marks(mpObjects[mLine], level, choice)
        invariant old(mLine) < mLine <= j
        invariant forall k :: old(mLine) < k < mLine ==> !Marks(mpObjects[k], level, choice)
        decreases j - mLine
      {
        assert mLine != j by {
          assert lines[j] == mpObjects[j];
        }
        mLine := mLine + 1;
      }
    }

    /** The window of `level` has moved on, the one inside it lies in what the window was,
        and the others are as they were in `old`. */
    ghost predicate Advanced(before: seq<Chunk>, level: nat)
      reads mBlobs
    {
      && mBlobs.Length == |before| && level + 1 < |before|
      && (forall k :: 0 <= k < |before| && k != level && k != level + 1 ==> mBlobs[k] == before[k])
      && MovedOn(mBlobs[level], before[level])
      && (mBlobs[level + 1] == before[level + 1] || Within(mBlobs[level + 1], before[level]))
    }

    /** One whole object has been taken from the window: its contents are the window inside,
        but for a choice without context encoding, which gets the whole object. */
    ghost predicate Taken(w0: Chunk, obj: Line)
      requires Inside(w0, |bytes|) && w0 != NO_CHUNK && obj.level + 1 < mBlobs.Length
      reads mBlobs
    {
      var h := Accepted(bytes[w0.ptr..End(w0)]);
      && h.Some?
      && mBlobs[obj.level] == Chunk(w0.ptr + h.value.octets + h.value.length, w0.len - h.value.octets - h.value.length)
      && mBlobs[obj.level + 1] ==
           if obj.flags.choice && obj.tag == ASN1_PARSER_EOC then w0
           else Chunk(w0.ptr + h.value.octets, h.value.length)
    }

    /** Whether a field with a default or an option is not there. */
    predicate Missing(w0: Chunk, obj: Line)
      requires Inside(w0, |bytes|)
    {
      (obj.flags.def || obj.flags.opt) && (w0.len == 0 || bytes[w0.ptr] != obj.tag)
    }

    /** Whether the object of `w0` may stand where the definition has `obj` in line `line`. */
    predicate Fits(w0: Chunk, obj: Line, line: int)
      requires Inside(w0, |bytes|)
    {
      && w0.len >= 2 && Accepted(bytes[w0.ptr..End(w0)]).Some?
      && Enters(obj, line, bytes[w0.ptr], Accepted(bytes[w0.ptr..End(w0)]).value.length)
    }

    /** The tag is the expected one, and a choice is not empty. */
    predicate Enters(obj: Line, line: int, tag: Byte, length: nat) {
      || (obj.flags.choice && obj.tag == ASN1_PARSER_EOC)
      || obj.flags.raw
      || ((tag == obj.tag || (mImplicit && line == 0)) && (length > 0 || obj.flags.loop || !obj.flags.choice))
    }

    /** What is handed out for a line when its object ends at `end` and its contents are
        `inside`: the whole object, its contents, or nothing. */
    function Handed(w0: Chunk, end: int, inside: Chunk, obj: Line): Chunk
      requires w0.ptr <= end
    {
      var whole := Chunk(w0.ptr, end - w0.ptr);
      if obj.flags.choice && obj.tag == ASN1_PARSER_EOC then NO_CHUNK
      else if obj.flags.raw then whole
      else if obj.flags.loop && inside.len == 0 then NO_CHUNK
      else if obj.flags.obj then whole
      else if obj.flags.body then inside
      else NO_CHUNK
    }

    /** Whether nothing of the loop that starts in this line is there. */
    predicate EmptyLoop(obj: Line, length: nat) {
      obj.flags.loop && length == 0 && !(obj.flags.choice && obj.tag == ASN1_PARSER_EOC) && !obj.flags.raw
    }

    /** Whether a loop over the contents starts in this line. */
    predicate StartsLoop(obj: Line, length: nat) {
      obj.flags.loop && length > 0 && !(obj.flags.choice && obj.tag == ASN1_PARSER_EOC) && !obj.flags.raw
    }

    /** Whether the lines inside this one are choices. */
    predicate StartsChoice(obj: Line, length: nat) {
      obj.flags.choice && (obj.tag == ASN1_PARSER_EOC || !(obj.flags.raw || EmptyLoop(obj, length)))
    }

    /** What is noted of the loops and choices when line `line` has been handled: a loop goes
        back to the line after the one it starts in, and a choice is open until it is made. */
    ghost predicate Noted(loops: seq<int>, choices: seq<bool>, line: int, missing: bool, length: nat)
      requires 0 <= line < |mpObjects|
      requires mpObjects[line].level < |loops| && mpObjects[line].level + 1 < |choices|
      reads mLoopAddr, mChoice
    {
      var obj := mpObjects[line];
      && mLoopAddr[..] == (if !missing && StartsLoop(obj, length) then loops[obj.level := line + 1] else loops)
      && mChoice[..] == (if !missing && StartsChoice(obj, length) then choices[obj.level + 1 := true] else choices)
    }

    /** Where the parser stands after line `line`: a missing option and an empty loop are
        skipped to their end marker, a missing constructed default takes its next line along. */
    ghost predicate Stands(after: int, line: int, w0: Chunk, inside: Chunk)
      requires 0 <= line < |mpObjects| && Inside(w0, |bytes|)
    {
      var obj := mpObjects[line];
      if Missing(w0, obj) && obj.flags.def then after == if Constructed(obj.tag) then line + 1 else line
      else if Missing(w0, obj) || EmptyLoop(obj, inside.len) then FirstMark(line, after, obj.level, false)
      else after == line
    }

    /** All that handling line `line` does to the windows, and what it hands out. */
    ghost predicate Handled(before: seq<Chunk>, line: int, found: Chunk)
      requires 0 <= line < |mpObjects|
      reads mBlobs
    {
      var obj := mpObjects[line];
      && Advanced(before, obj.level) && Inside(before[obj.level], |bytes|)
      && var w0 := before[obj.level];
         if Missing(w0, obj) then mBlobs[..] == before && found == NO_CHUNK
         else
           && w0 != NO_CHUNK && Fits(w0, obj, line) && Taken(w0, obj)
           && found == Handed(w0, mBlobs[obj.level].ptr, mBlobs[obj.level + 1], obj)
           && (found == NO_CHUNK || Within(found, w0))
    }

    /** The part of iterate that handles one line of the definition at the window of its level. */
    method Consume(obj: Line) returns (found: Chunk)
      requires Valid() && 0 <= mLine && obj == mpObjects[mLine]
      modifies this`mLine, this`mSuccess, mLoopAddr, mBlobs, mChoice
      ensures mSuccess ==> Valid() && mLine >= old(mLine)
      ensures mSuccess <==> Missing(old(mBlobs[obj.level]), obj) || Fits(old(mBlobs[obj.level]), obj, old(mLine))
      ensures mSuccess ==> Handled(old(mBlobs[..]), old(mLine), found)
      ensures mSuccess ==> Stands(mLine, old(mLine), old(mBlobs[obj.level]), mBlobs[obj.level + 1])
      ensures mSuccess ==> Noted(old(mLoopAddr[..]), old(mChoice[..]), old(mLine), Missing(old(mBlobs[obj.level]), obj),
                                 mBlobs[obj.level + 1].len)
      ensures MovedOn(mBlobs[obj.level], old(mBlobs[obj.level]))
    {
      found := NO_CHUNK;
      var L := obj.level;
      var blob_ori := mBlobs[L];
      var start := blob_ori.ptr;
      var missing := blob_ori.len == 0 || bytes[start] != obj.tag;

      // Default values.
      if obj.flags.def && missing {
        if Constructed(obj.tag) {
          mLine := mLine + 1;
        }
        return;
      }
      // Options: to the end of the missing field.
      if obj.flags.opt && missing {
        Scan(L, false);
        return;
      }
      found := TakeObject(obj);
    }

    /** The same for an object that is there, or must be. */
    method TakeObject(obj: Line) returns (found: Chunk)
      requires Valid() && 0 <= mLine && obj == mpObjects[mLine] && !Missing(mBlobs[obj.level], obj)
      modifies this`mLine, this`mSuccess, mLoopAddr, mBlobs, mChoice
      ensures mSuccess ==> Valid() && mLine >= old(mLine)
      ensures mSuccess <==> Fits(old(mBlobs[obj.level]), obj, old(mLine))
      ensures mSuccess ==> Handled(old(mBlobs[..]), old(mLine), found)
      ensures mSuccess ==> Stands(mLine, old(mLine), old(mBlobs[obj.level]), mBlobs[obj.level + 1])
      ensures mSuccess ==> Noted(old(mLoopAddr[..]), old(mChoice[..]), old(mLine), false, mBlobs[obj.level + 1].len)
      ensures MovedOn(mBlobs[obj.level], old(mBlobs[obj.level]))
    {
      found := NO_CHUNK;
      var L, blob_ori := obj.level, mBlobs[obj.level];
      if blob_ori.len < 2 {
        mSuccess := false;
        return;
      }
      var length, rest := ReadLength(bytes, blob_ori);
      if length.None? {
        mBlobs[L] := rest;
        mSuccess := false;
        return;
      }
      var inner := Chunk(rest.ptr, length.value);
      mBlobs[L + 1] := inner;
      mBlobs[L] := Chunk(rest.ptr + length.value, rest.len - length.value);
      found := Enter(obj, blob_ori, inner);
    }

    /** The same line once the object's contents have become the window inside. */
    method Enter(obj: Line, blob_ori: Chunk, inner: Chunk) returns (found: Chunk)
      requires Valid() && 0 <= mLine && obj == mpObjects[mLine]
      requires Inside(blob_ori, |bytes|) && blob_ori.len > 0
      requires Within(inner, blob_ori) && mBlobs[obj.level + 1] == inner
      requires mBlobs[obj.level] != NO_CHUNK && MovedOn(mBlobs[obj.level], blob_ori)
      modifies this`mLine, this`mSuccess, mLoopAddr, mBlobs, mChoice
      ensures mSuccess ==> Valid() && mLine >= old(mLine)
      ensures forall k :: 0 <= k < mBlobs.Length && k != obj.level + 1 ==> mBlobs[k] == old(mBlobs[k])
      ensures mBlobs[obj.level + 1] == if obj.flags.choice && obj.tag == ASN1_PARSER_EOC then blob_ori else inner
      ensures mSuccess <==> Enters(obj, old(mLine), bytes[blob_ori.ptr], inner.len)
      ensures mSuccess ==> found == Handed(blob_ori, mBlobs[obj.level].ptr, mBlobs[obj.level + 1], obj)
      ensures found == NO_CHUNK || Within(found, blob_ori)
      ensures mSuccess ==>
                if EmptyLoop(obj, inner.len) then FirstMark(old(mLine), mLine, obj.level, false)
                else mLine == old(mLine)
      ensures mSuccess ==> Noted(old(mLoopAddr[..]), old(mChoice[..]), old(mLine), false, inner.len)
    {
      found := NO_CHUNK;
      var L, start := obj.level, blob_ori.ptr;
      // A choice without context encoding.
      if obj.flags.choice && obj.tag == ASN1_PARSER_EOC {
        mChoice[L + 1] := true;
        mBlobs[L + 1] := blob_ori;
        return;
      }
      if obj.flags.raw {
        found := Chunk(start, mBlobs[L].ptr - start);
        return;
      }
      if bytes[start] != obj.tag && !(mImplicit && mLine == 0) {
        mSuccess := false;
        return;
      }
      if obj.flags.loop {
        if inner.len > 0 {
          mLoopAddr[L] := mLine + 1;
        } else {
          Scan(L, false);
          return;
        }
      }
      if obj.flags.choice {
        if inner.len == 0 {
          mSuccess := false;
          return;
        }
        mChoice[L + 1] := true;
      }
      if obj.flags.obj {
        found := Chunk(start, mBlobs[L].ptr - start);
      } else if obj.flags.body {
        found := inner;
      }
    }

    /** The end marker in line `line` has ended its loop, option or choice.  The end of a
        choice that was made goes on to the end of all choices. */
    ghost predicate Left(line: int, loops: seq<int>, choices: seq<bool>)
      requires 0 <= line < |mpObjects| && mpObjects[line].level < |loops| && mpObjects[line].level < |choices|
      reads this`mLine, mLoopAddr, mChoice
    {
      var obj := mpObjects[line];
      && mLoopAddr[..] == loops[obj.level := 0]
      && if obj.flags.ch then
           && mChoice[..] == choices[obj.level := false] && FirstMark(line, mLine + 1, obj.level - 1, true)
         else
           mChoice[..] == choices && mLine == line
    }

    /** The end marker of a loop that is done, of an option or of a choice. */
    method Leave(obj: Line)
      requires Valid() && 0 <= mLine && obj == mpObjects[mLine] && obj.flags.end
      modifies this`mLine, this`mSuccess, mLoopAddr, mChoice
      ensures mSuccess <==> !(obj.flags.choice && old(mChoice[obj.level + 1]))
      ensures mSuccess ==> Valid() && Left(old(mLine), old(mLoopAddr[..]), old(mChoice[..]))
    {
      mLoopAddr[obj.level] := 0;
      if obj.flags.choice && mChoice[obj.level + 1] {
        mSuccess := false;
      } else if obj.flags.ch {
        mChoice[obj.level] := false;
        Scan(obj.level - 1, true);
        mLine := mLine - 1;
      }
    }

    /** The line that iterate handles when it comes to line `next`, or -1 when an end marker
        ends its loop, option or choice. */
    ghost predicate Picks(line: int, next: int, before: seq<Chunk>, loops: seq<int>)
      requires 0 <= next < |mpObjects|
      requires mpObjects[next].flags.exit || (mpObjects[next].level < |loops| && mpObjects[next].level + 1 < |before|)
    {
      var obj := mpObjects[next];
      line == if obj.flags.exit then -1
              else if !obj.flags.end then next
              else if loops[obj.level] != 0 && before[obj.level + 1].len > 0 then loops[obj.level]
              else -1
    }

    /** The exit line or an end marker has been passed. */
    ghost predicate Passed(next: int, before: seq<Chunk>, loops: seq<int>, choices: seq<bool>, ok: bool, found: Chunk)
      requires 0 <= next < |mpObjects|
      requires mpObjects[next].flags.exit || mpObjects[next].level + 1 < |choices|
      requires mpObjects[next].flags.exit || mpObjects[next].level < |loops|
      reads this, mLoopAddr, mBlobs, mChoice
    {
      var obj := mpObjects[next];
      && mBlobs[..] == before && found == NO_CHUNK
      && if obj.flags.exit then
           !ok && mSuccess && mLoopAddr[..] == loops && mChoice[..] == choices
         else
           && (ok <==> !(obj.flags.choice && choices[obj.level + 1]))
           && (ok ==> Left(next, loops, choices)) && (!ok ==> !mSuccess)
    }

    /** The line was handled at the window of its level. */
    ghost predicate Done(line: int, before: seq<Chunk>, loops: seq<int>, choices: seq<bool>, ok: bool, found: Chunk)
      requires |before| == mBlobs.Length == mChoice.Length == |choices| == ASN1_MAX_LEVEL + 2
      requires |loops| == ASN1_MAX_LEVEL + 1
      reads this, mLoopAddr, mBlobs, mChoice
    {
      && 0 <= line < |mpObjects| && mpObjects[line].level <= ASN1_MAX_LEVEL
      && var obj, w0 := mpObjects[line], before[mpObjects[line].level];
      && Inside(w0, |bytes|) && (ok <==> Missing(w0, obj) || Fits(w0, obj, line)) && (!ok ==> !mSuccess)
      && (ok ==>
            && Handled(before, line, found) && Stands(mLine, line, w0, mBlobs[obj.level + 1])
            && Noted(loops, choices, line, Missing(w0, obj), mBlobs[obj.level + 1].len))
    }

    /** iterate: the next object of the definition; false at the exit line or on an error. */
    method Iterate() returns (ok: bool, objectID: int, found: Chunk, ghost line: int)
      requires Valid()
      modifies this`mLine, this`mSuccess, mLoopAddr, mBlobs, mChoice
      ensures ok ==> mSuccess && Valid() && objectID == mLine
      ensures Picks(line, old(mLine) + 1, old(mBlobs[..]), old(mLoopAddr[..]))
      ensures line == -1 ==>
                Passed(old(mLine) + 1, old(mBlobs[..]), old(mLoopAddr[..]), old(mChoice[..]), ok, found)
      ensures line != -1 ==> Done(line, old(mBlobs[..]), old(mLoopAddr[..]), old(mChoice[..]), ok, found)
    {
      hide Handled, Stands, Noted, Left, Missing, Fits;
      found, objectID, line := NO_CHUNK, 0, -1;
      mLine := mLine + 1;
      var obj := mpObjects[mLine];
      if obj.flags.exit {
        return false, objectID, found, line;
      }
      if obj.flags.end {
        if mLoopAddr[obj.level] != 0 && mBlobs[obj.level + 1].len > 0 {
          mLine := mLoopAddr[obj.level];
          obj := mpObjects[mLine];
        } else {
          Leave(obj);
          return mSuccess, mLine, found, line;
        }
      }
      line := mLine;
      found := Consume(obj);
      return mSuccess, mLine, found, line;
    }

    /** A client's loop, for up to `n` objects: everything handed out lies in the blob. */
    method Walk(n: nat) returns (objects: seq<Chunk>)
      requires Valid()
      modifies this`mLine, this`mSuccess, mLoopAddr, mBlobs, mChoice
      ensures |objects| <= n && forall k :: 0 <= k < |objects| ==> Inside(objects[k], |bytes|)
    {
      objects := [];
      var ok := true;
      while ok && |objects| < n
        invariant ok ==> Valid()
        invariant |objects| <= n && forall k :: 0 <= k < |objects| ==> Inside(objects[k], |bytes|)
        decreases n - |objects|, ok
      {
        var id, found;
        ghost var line;
        ok, id, found, line := Iterate();
        if ok {
          objects := objects + [found];
        }
      }
    }

    // ----- SEQUENCE OF and SET OF -----

    /** From line `l` on: a loop, one line for its elements, and the end marker of the loop. */
    predicate ElementLoop(l: int) {
      && 0 <= l && l + 3 < |mpObjects|
      && var first, element, last := mpObjects[l], mpObjects[l + 1], mpObjects[l + 2];
      && first.flags == LOOP && element.flags == BODY && last.flags == END
      && element.level == first.level + 1 <= ASN1_MAX_LEVEL && last.level == first.level
    }

    /** The bytes of a window. */
    function Bytes(w: Chunk): seq<Byte>
      requires Inside(w, |bytes|)
    {
      if w == NO_CHUNK then [] else bytes[w.ptr..End(w)]
    }

    /** The parser is in the loop that starts in line `l`, `left` are the elements to come. */
    ghost predicate InLoop(l: int, left: seq<seq<Byte>>)
      reads this, mLoopAddr, mBlobs, mChoice
    {
      && Valid() && ElementLoop(l) && l <= mLine <= l + 2
      && var L := mpObjects[l].level;
      && mBlobs[L + 1] != NO_CHUNK && Bytes(mBlobs[L + 1]) == Flat(left)
      && (forall i :: 0 <= i < |left| ==> WholeObject(left[i], mpObjects[l + 1].tag))
      && (mLine < l + 2 ==> mLoopAddr[L] == l + 1) && (mLine == l ==> left != []) && (mLine == l + 2 ==> left == [])
    }

    /** A whole object fits the line of the loop. */
    lemma LoopFits(l: int, w0: Chunk)
      requires ElementLoop(l) && w0 != NO_CHUNK && Inside(w0, |bytes|) && WholeObject(Bytes(w0), mpObjects[l].tag)
      ensures !Missing(w0, mpObjects[l]) && Fits(w0, mpObjects[l], l)
    {
      FirstObject(bytes, w0, Bytes(w0), mpObjects[l].tag, []);
    }

    /** The window inside is then the contents of the object. */
    lemma LoopTaken(l: int, before: seq<Chunk>, found: Chunk)
      requires ElementLoop(l) && Handled(before, l, found)
      requires var w0 := before[mpObjects[l].level];
               w0 != NO_CHUNK && Inside(w0, |bytes|) && WholeObject(Bytes(w0), mpObjects[l].tag)
      ensures var w := mBlobs[mpObjects[l].level + 1];
              && w != NO_CHUNK && Inside(w, |bytes|) && w.len == |Bytes(w)|
              && Bytes(w) == ContentsOf(Bytes(before[mpObjects[l].level]))
    {
      var w0 := before[mpObjects[l].level];
      LoopFits(l, w0);
      FirstObject(bytes, w0, Bytes(w0), mpObjects[l].tag, []);
    }

    /** The loop is noted, or left when it is empty. */
    lemma LoopNoted(l: int, w0: Chunk, after: int, loops: seq<int>, choices: seq<bool>)
      requires ElementLoop(l) && Inside(w0, |bytes|) && !Missing(w0, mpObjects[l])
      requires mpObjects[l].level < |loops| == mLoopAddr.Length
      requires mpObjects[l].level + 1 < |choices| && mpObjects[l].level + 1 < mBlobs.Length
      requires var inside := mBlobs[mpObjects[l].level + 1];
               Stands(after, l, w0, inside) && Noted(loops, choices, l, false, inside.len)
      ensures if mBlobs[mpObjects[l].level + 1].len > 0 then after == l && mLoopAddr[mpObjects[l].level] == l + 1
              else after == l + 2
    {
      assert Marks(mpObjects[l + 2], mpObjects[l].level, false);
      assert mLoopAddr[mpObjects[l].level] == mLoopAddr[..][mpObjects[l].level];
    }

    /** iterate at the line of the loop. */
    method StartLoop(ghost elements: seq<seq<Byte>>) returns (id: int)
      requires Valid() && ElementLoop(mLine + 1)
      requires var w0 := mBlobs[mpObjects[mLine + 1].level];
               && w0 != NO_CHUNK && WholeObject(Bytes(w0), mpObjects[mLine + 1].tag)
               && ContentsOf(Bytes(w0)) == Flat(elements)
      requires forall i :: 0 <= i < |elements| ==> WholeObject(elements[i], mpObjects[mLine + 2].tag)
      modifies this`mLine, this`mSuccess, mLoopAddr, mBlobs, mChoice
      ensures InLoop(old(mLine) + 1, elements) && id == mLine && mLine != old(mLine) + 2
    {
      hide Syntax, WholeObject, Flat, ContentsOf, Accepted, Bytes, Fits, Missing, Handled, Stands, Noted;
      ghost var l, before, loops, choices := mLine + 1, mBlobs[..], mLoopAddr[..], mChoice[..];
      LoopFits(l, mBlobs[mpObjects[l].level]);
      var ok, found;
      ghost var line;
      ok, id, found, line := Iterate();
      LoopTaken(l, before, found);
      LoopNoted(l, before[mpObjects[l].level], mLine, loops, choices);
      NothingFlat(elements, mpObjects[l + 1].tag);
    }

    /** The element at the front of the window fits the line. */
    lemma ElementFits(l: int, left: seq<seq<Byte>>, w0: Chunk)
      requires ElementLoop(l) && left != []
      requires w0 != NO_CHUNK && Inside(w0, |bytes|) && Bytes(w0) == Flat(left)
      requires WholeObject(left[0], mpObjects[l + 1].tag)
      ensures !Missing(w0, mpObjects[l + 1]) && Fits(w0, mpObjects[l + 1], l + 1)
    {
      FirstObject(bytes, w0, left[0], mpObjects[l + 1].tag, Flat(left[1..]));
    }

    /** The element at the front of the window has been taken. */
    lemma ElementTaken(l: int, left: seq<seq<Byte>>, before: seq<Chunk>, found: Chunk)
      requires ElementLoop(l) && Handled(before, l + 1, found) && left != []
      requires mpObjects[l].level + 2 < |before| && mpObjects[l + 1].level == mpObjects[l].level + 1
      requires var w0 := before[mpObjects[l].level + 1];
               w0 != NO_CHUNK && Inside(w0, |bytes|) && Bytes(w0) == Flat(left)
      requires WholeObject(left[0], mpObjects[l + 1].tag)
      ensures var w := mBlobs[mpObjects[l].level + 1];
              && w != NO_CHUNK && Inside(w, |bytes|) && Bytes(w) == Flat(left[1..])
      ensures Gives(found, left[0])
    {
      FirstObject(bytes, before[mpObjects[l].level + 1], left[0], mpObjects[l + 1].tag, Flat(left[1..]));
    }

    /** iterate inside the loop: the next element, or the end of the loop. */
    method NextInLoop(ghost l: int, ghost left: seq<seq<Byte>>) returns (id: int, found: Chunk)
      requires InLoop(l, left) && mLine != l + 2
      modifies this`mLine, this`mSuccess, mLoopAddr, mBlobs, mChoice
      ensures id == mLine && mLine == if left == [] then l + 2 else l + 1
      ensures InLoop(l, if left == [] then [] else left[1..])
      ensures left != [] ==> Gives(found, left[0])
    {
      hide Syntax, WholeObject, Flat, Gives, Handled, Fits, Missing;
      ghost var L, before := mpObjects[l].level, mBlobs[..];
      if left != [] {
        ElementFits(l, left, before[L + 1]);
      }
      NothingFlat(left, mpObjects[l + 1].tag);
      var ok;
      ghost var line;
      ok, id, found, line := Iterate();
      if left != [] {
        ElementTaken(l, left, before, found);
      }
    }

    /** Each chunk is the contents of the element of the same number. */
    predicate HandedOut(contents: seq<Chunk>, elements: seq<seq<Byte>>) {
      |contents| <= |elements| && forall i :: 0 <= i < |contents| ==> Gives(contents[i], elements[i])
    }

    predicate Gives(c: Chunk, item: seq<Byte>) {
      Inside(c, |bytes|) && Bytes(c) == ContentsOf(item)
    }

    /** A client's loop over a SEQUENCE OF or SET OF: it is handed the contents of every
        element, in order, and comes out behind the end marker of the loop. */
    method TakeSequenceOf(ghost elements: seq<seq<Byte>>) returns (contents: seq<Chunk>)
      requires Valid() && ElementLoop(mLine + 1)
      requires var w0 := mBlobs[mpObjects[mLine + 1].level];
               && w0 != NO_CHUNK && WholeObject(Bytes(w0), mpObjects[mLine + 1].tag)
               && ContentsOf(Bytes(w0)) == Flat(elements)
      requires forall i :: 0 <= i < |elements| ==> WholeObject(elements[i], mpObjects[mLine + 2].tag)
      modifies this`mLine, this`mSuccess, mLoopAddr, mBlobs, mChoice
      ensures Valid() && mLine == old(mLine) + 3
      ensures |contents| == |elements| && HandedOut(contents, elements)
    {
      hide Syntax, WholeObject, ContentsOf, Flat, Accepted;
      var l := mLine + 1;
      contents := [];
      var id := StartLoop(elements);
      while id != l + 2
        invariant |contents| <= |elements| && InLoop(l, elements[|contents|..]) && id == mLine
        invariant HandedOut(contents, elements)
        decreases |elements| - |contents|, l + 2 - id
      {
        var found;
        ghost var left := elements[|contents|..];
        id, found := NextInLoop(l, left);
        if id == l + 1 {
          contents := contents + [found];
          assert elements[|contents|..] == left[1..];
        }
      }
    }
  }

  /** The definition of a SEQUENCE OF or SET OF. */
  function SequenceOf(tag: Byte, elementTag: Byte): seq<Line> {
    [Line(0, tag, LOOP), Line(1, elementTag, BODY), Line(0, ASN1_PARSER_EOC, END), Line(0, ASN1_PARSER_EOC, EXIT)]
  }

  lemma SequenceIsSyntax(tag: Byte, elementTag: Byte)
    ensures Syntax(SequenceOf(tag, elementTag))
  {
    var lines := SequenceOf(tag, elementTag);
    var body := lines[..|lines| - 1];
    assert Marks(body[2], 0, false);
  }

  function AllContents(elements: seq<seq<Byte>>): (r: seq<seq<Byte>>)
    ensures |r| == |elements| && forall i :: 0 <= i < |elements| ==> r[i] == ContentsOf(elements[i])
  {
    if elements == [] then [] else [ContentsOf(elements[0])] + AllContents(elements[1..])
  }

  /** A whole SEQUENCE OF or SET OF, for any number of elements: every element's contents,
      in order, and then the definition is at its end. */
  method ReadSequenceOf(blob: seq<Byte>, tag: Byte, elementTag: Byte, ghost elements: seq<seq<Byte>>)
    returns (contents: seq<seq<Byte>>, complete: bool)
    requires WholeObject(blob, tag) && ContentsOf(blob) == Flat(elements)
    requires forall i :: 0 <= i < |elements| ==> WholeObject(elements[i], elementTag)
    ensures complete && contents == AllContents(elements)
  {
    hide Accepted, ContentsOf, Flat;
    SequenceIsSyntax(tag, elementTag);
    var parser := new Parser(SequenceOf(tag, elementTag), blob, false);
    assert blob[0..|blob|] == blob;
    var chunks := parser.TakeSequenceOf(elements);
    contents := [];
    while |contents| < |chunks|
      invariant |contents| <= |chunks| == |elements|
      invariant forall i :: 0 <= i < |contents| ==> contents[i] == ContentsOf(elements[i])
      invariant parser.HandedOut(chunks, elements)
    {
      var c := chunks[|contents|];
      assert parser.Gives(c, elements[|contents|]);
      contents := contents + [if c == NO_CHUNK then [] else blob[c.ptr..End(c)]];
    }
    var ok, id, found;
    ghost var line;
    ok, id, found, line := parser.Iterate();
    complete := !ok && parser.mSuccess;
  }

  /** An object is whole as it is encoded: with its length in the short form, and in the
      long form of up to four octets. */
  lemma ShortIsWhole(tag: Byte, contents: seq<Byte>)
    requires |contents| < 0x80
    ensures var item := [tag, |contents|] + contents;
            WholeObject(item, tag) && ContentsOf(item) == contents
  {
    ShortFormAccepted(tag, contents, []);
    assert [tag, |contents|] + contents + [] == [tag, |contents|] + contents;
  }

  lemma LongIsWhole(tag: Byte, k: nat, contents: seq<Byte>)
    requires 1 <= k <= 4 && |contents| < Power256(k) && |contents| < 0x8000_0000
    ensures var item := [tag, 0x80 + k] + LongForm(|contents|, k) + contents;
            WholeObject(item, tag) && ContentsOf(item) == contents
  {
    LongFormAccepted(tag, k, contents, []);
    LongFormValue(|contents|, k);
    hide Accepted, LongForm;
    assert contents + [] == contents;
  }
}
