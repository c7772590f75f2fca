/** A CHOICE, read with the parser of library/encoder/src/asn1Parser.cpp: for any number of
    alternatives just the one with the tag that is there is handed out. */
module Asn1Choice {
  import opened Common
  import opened Asn1Length
  import opened Asn1Parser

  const CHOICE := NONE.(choice := true)
  const ALTERNATIVE := NONE.(opt := true, body := true)
  const MADE := NONE.(end := true, ch := true)
  const OVER := NONE.(end := true, choice := true)

  /** The line of the choice, two lines for each alternative, and the end of the choices. */
  function LineAt(tags: seq<Byte>, i: nat): Line {
    if i == 0 then Line(0, ASN1_PARSER_EOC, CHOICE)
    else if i > 2 * |tags| then Line(0, ASN1_PARSER_EOC, if i == 2 * |tags| + 1 then OVER else EXIT)
    else if i % 2 == 1 then Line(1, tags[i / 2], ALTERNATIVE)
    else Line(1, ASN1_PARSER_EOC, MADE)
  }

  function ChoiceOf(tags: seq<Byte>): (lines: seq<Line>)
    ensures |lines| == 2 * |tags| + 3
    ensures forall i :: 0 <= i < |lines| ==> lines[i] == LineAt(tags, i)
  {
    seq(2 * |tags| + 3, i requires 0 <= i => LineAt(tags, i))
  }

  lemma ChoiceIsSyntax(tags: seq<Byte>)
    ensures Syntax(ChoiceOf(tags))
  {
    var lines := ChoiceOf(tags);
    var body := lines[..|lines| - 1];
    forall i | 0 <= i < |body|
      ensures lines[i].flags.opt ==> HasMark(body, i, lines[i].level, false)
      ensures lines[i].flags.end && lines[i].flags.ch ==> HasMark(body, i, lines[i].level - 1, true)
    {
      if lines[i].flags.opt {
        assert Marks(body[i + 1], lines[i].level, false);
      } else if lines[i].flags.ch {
        assert Marks(body[2 * |tags| + 1], 0, true);
      }
    }
  }

  /** How far the choice is: alternative `j` is looked at, has been taken, has been left. */
  datatype Phase = Looking(j: nat) | Taken(j: nat) | Left(j: nat) | Over(j: nat)

  predicate FirstOf(tags: seq<Byte>, tag: Byte, j: nat) {
    j < |tags| && tags[j] == tag && tag !in tags[..j]
  }

  ghost predicate InChoice(p: Parser, tags: seq<Byte>, blob: seq<Byte>, phase: Phase)
    reads p, p.mLoopAddr, p.mBlobs, p.mChoice
  {
    && p.Valid() && p.bytes == blob && p.mpObjects == ChoiceOf(tags) && |blob| >= 2 && WholeObject(blob, blob[0])
    && p.mLoopAddr[0] == p.mLoopAddr[1] == 0
    && match phase {
         case Looking(j) =>
           && j <= |tags| && p.mLine == 2 * j && p.mBlobs[1] == Chunk(0, |blob|) && p.mChoice[1]
           && blob[0] !in tags[..j]
         case Taken(j) => FirstOf(tags, blob[0], j) && p.mLine == 2 * j + 1
         case Left(j) => FirstOf(tags, blob[0], j) && p.mLine == 2 * |tags| && !p.mChoice[1]
         case Over(j) => FirstOf(tags, blob[0], j) && p.mLine == 2 * |tags| + 1
       }
  }

  /** iterate at the line of the choice. */
  method StartChoice(p: Parser, tags: seq<Byte>, blob: seq<Byte>) returns (ok: bool, id: int, found: Chunk)
    requires p.Valid() && p.bytes == blob && p.mpObjects == ChoiceOf(tags) && p.mLine == -1
    requires |blob| >= 2 && WholeObject(blob, blob[0]) && p.mBlobs[0] == Chunk(0, |blob|)
    requires p.mLoopAddr[0] == p.mLoopAddr[1] == 0
    modifies p`mLine, p`mSuccess, p.mLoopAddr, p.mBlobs, p.mChoice
    ensures ok && found == NO_CHUNK && InChoice(p, tags, blob, Looking(0))
  {
    hide Syntax;
    assert blob[0..|blob|] == blob;
    ghost var loops := p.mLoopAddr[..];
    ghost var line;
    ok, id, found, line := p.Iterate();
    assert p.mLoopAddr[..] == loops && p.mLoopAddr[0] == loops[0] && p.mLoopAddr[1] == loops[1];
    assert p.mChoice[..][1];
  }

  /** A missing alternative is skipped to its end. */
  lemma SkipsTo(p: Parser, tags: seq<Byte>, j: nat, after: int)
    requires p.mpObjects == ChoiceOf(tags) && j < |tags| && p.FirstMark(2 * j + 1, after, 1, false)
    ensures after == 2 * j + 2
  {
    assert Marks(p.mpObjects[2 * j + 2], 1, false);
  }

  /** From the end of an alternative that was taken to the end of the choices. */
  lemma GoesTo(p: Parser, tags: seq<Byte>, j: nat, to: int)
    requires p.mpObjects == ChoiceOf(tags) && j < |tags| && p.FirstMark(2 * j + 2, to, 0, true)
    ensures to == 2 * |tags| + 1
  {
    assert Marks(p.mpObjects[2 * |tags| + 1], 0, true);
    assert p.mpObjects[to] == LineAt(tags, to);
  }

  /** The object fits the alternative with its tag, and its contents are handed out. */
  lemma AlternativeFits(p: Parser, tags: seq<Byte>, blob: seq<Byte>, j: nat)
    requires p.mpObjects == ChoiceOf(tags) && p.bytes == blob && j < |tags| && WholeObject(blob, tags[j])
    ensures var obj := p.mpObjects[2 * j + 1];
            obj == Line(1, tags[j], ALTERNATIVE) && !p.Missing(Chunk(0, |blob|), obj)
            && p.Fits(Chunk(0, |blob|), obj, 2 * j + 1)
  {
    assert blob[0..|blob|] == blob;
  }

  lemma AlternativeHanded(p: Parser, tags: seq<Byte>, blob: seq<Byte>, j: nat, before: seq<Chunk>, found: Chunk)
    requires p.mpObjects == ChoiceOf(tags) && p.bytes == blob && j < |tags| && WholeObject(blob, tags[j])
    requires p.Handled(before, 2 * j + 1, found) && before[1] == Chunk(0, |blob|)
    ensures p.Gives(found, blob) && found != NO_CHUNK
  {
    assert blob[0..|blob|] == blob;
    AlternativeFits(p, tags, blob, j);
  }

  lemma AlternativeSkipped(p: Parser, tags: seq<Byte>, blob: seq<Byte>, j: nat, before: seq<Chunk>, found: Chunk)
    requires p.mpObjects == ChoiceOf(tags) && p.bytes == blob && j < |tags| && |blob| > 0 && blob[0] != tags[j]
    requires p.Handled(before, 2 * j + 1, found) && before[1] == Chunk(0, |blob|)
    ensures p.mBlobs[1] == Chunk(0, |blob|) && found == NO_CHUNK
  {
  }

  ghost function NextPhase(tags: seq<Byte>, tag: Byte, phase: Phase): Phase {
    match phase
    case Looking(j) => if j < |tags| && tags[j] == tag then Taken(j) else Looking(j + 1)
    case Taken(j) => Left(j)
    case Left(j) => Over(j)
    case Over(j) => Over(j)
  }

  /** Whether the next call of iterate is the last: at the end of choices none of which was
      made, or behind the end of the choices. */
  ghost predicate Ends(tags: seq<Byte>, phase: Phase) {
    phase.Over? || phase == Looking(|tags|)
  }

  /** What the parser had noted before it came to line `next` of the choice. */
  ghost predicate Before(p: Parser, tags: seq<Byte>, blob: seq<Byte>, phase: Phase, next: int, before: seq<Chunk>,
                         loops: seq<int>, choices: seq<bool>)
    reads p, p.mLoopAddr, p.mBlobs, p.mChoice
  {
    && p.bytes == blob && p.mpObjects == ChoiceOf(tags) && |blob| >= 2 && WholeObject(blob, blob[0])
    && |before| == |choices| == p.mBlobs.Length == p.mChoice.Length == ASN1_MAX_LEVEL + 2
    && |loops| == p.mLoopAddr.Length == ASN1_MAX_LEVEL + 1 && loops[0] == loops[1] == 0
    && match phase {
         case Looking(j) =>
           j <= |tags| && next == 2 * j + 1 && before[1] == Chunk(0, |blob|) && choices[1] && blob[0] !in tags[..j]
         case Taken(j) => FirstOf(tags, blob[0], j) && next == 2 * j + 2
         case Left(j) => FirstOf(tags, blob[0], j) && next == 2 * |tags| + 1 && !choices[1]
         case Over(j) => FirstOf(tags, blob[0], j) && next == 2 * |tags| + 2
       }
  }

  /** An alternative is skipped or handed out. */
  lemma LooksAt(p: Parser, tags: seq<Byte>, blob: seq<Byte>, j: nat, before: seq<Chunk>, loops: seq<int>,
                choices: seq<bool>, ok: bool, found: Chunk)
    requires j < |tags| && Before(p, tags, blob, Looking(j), 2 * j + 1, before, loops, choices)
    requires p.Done(2 * j + 1, before, loops, choices, ok, found) && (ok ==> p.Valid())
    ensures ok && InChoice(p, tags, blob, NextPhase(tags, blob[0], Looking(j)))
    ensures if tags[j] == blob[0] then found != NO_CHUNK && p.Gives(found, blob) else found == NO_CHUNK
  {
    hide Syntax, WholeObject, Accepted, Parser.Handled, Parser.Fits, Parser.Gives;
    assert p.mpObjects[2 * j + 1] == LineAt(tags, 2 * j + 1) == Line(1, tags[j], ALTERNATIVE);
    assert tags[..j + 1] == tags[..j] + [tags[j]];
    if tags[j] == blob[0] {
      AlternativeFits(p, tags, blob, j);
      AlternativeHanded(p, tags, blob, j, before, found);
    } else {
      SkipsTo(p, tags, j, p.mLine);
      AlternativeSkipped(p, tags, blob, j, before, found);
    }
    assert p.mLoopAddr[..] == loops && p.mLoopAddr[0] == loops[0] && p.mLoopAddr[1] == loops[1];
    assert p.mChoice[..] == choices && p.mChoice[1] == choices[1];
  }

  /** From the alternative that was taken to the end of all, and past it. */
  lemma LeavesChoice(p: Parser, tags: seq<Byte>, blob: seq<Byte>, phase: Phase, next: int, before: seq<Chunk>,
                     loops: seq<int>, choices: seq<bool>, ok: bool, found: Chunk)
    requires Before(p, tags, blob, phase, next, before, loops, choices) && (phase.Taken? || phase.Left?)
    requires p.Passed(next, before, loops, choices, ok, found) && (ok ==> p.Valid())
    ensures ok && found == NO_CHUNK && InChoice(p, tags, blob, NextPhase(tags, blob[0], phase))
  {
    hide Syntax, WholeObject, Accepted;
    assert p.mpObjects[next] == LineAt(tags, next);
    if phase.Taken? {
      GoesTo(p, tags, phase.j, p.mLine + 1);
    }
  }

  lemma EndsChoice(p: Parser, tags: seq<Byte>, blob: seq<Byte>, phase: Phase, next: int, before: seq<Chunk>,
                   loops: seq<int>, choices: seq<bool>, ok: bool, found: Chunk)
    requires Before(p, tags, blob, phase, next, before, loops, choices) && Ends(tags, phase)
    requires p.Passed(next, before, loops, choices, ok, found)
    ensures !ok && found == NO_CHUNK && (p.mSuccess <==> phase.Over?)
  {
    assert p.mpObjects[next] == LineAt(tags, next);
  }

  /** iterate in the choice: an alternative is skipped or handed out, the one that was taken
      is left for the end of all, and a choice that was not made is an error. */
  method NextInChoice(p: Parser, tags: seq<Byte>, blob: seq<Byte>, ghost phase: Phase)
    returns (ok: bool, id: int, found: Chunk)
    requires InChoice(p, tags, blob, phase)
    modifies p`mLine, p`mSuccess, p.mLoopAddr, p.mBlobs, p.mChoice
    ensures if Ends(tags, phase) then !ok && (p.mSuccess <==> phase.Over?)
            else ok && id == p.mLine && InChoice(p, tags, blob, NextPhase(tags, blob[0], phase))
    ensures if NextPhase(tags, blob[0], phase).Taken? then found != NO_CHUNK && p.Gives(found, blob)
            else found == NO_CHUNK
  {
    hide Syntax, WholeObject, Accepted, Parser.Done, Parser.Passed, Parser.Gives;
    ghost var before, loops, choices, next := p.mBlobs[..], p.mLoopAddr[..], p.mChoice[..], p.mLine + 1;
    assert p.mpObjects[next] == LineAt(tags, next);
    ghost var line;
    ok, id, found, line := p.Iterate();
    assert Before(p, tags, blob, phase, next, before, loops, choices);
    if phase.Looking? && phase.j < |tags| {
      LooksAt(p, tags, blob, phase.j, before, loops, choices, ok, found);
    } else if Ends(tags, phase) {
      EndsChoice(p, tags, blob, phase, next, before, loops, choices, ok, found);
    } else {
      LeavesChoice(p, tags, blob, phase, next, before, loops, choices, ok, found);
    }
  }

  /** A client's loop over a choice, for any number of alternatives: it succeeds just when
      one of them has the tag of the object, and is handed the contents of the object for
      the first that has it and for no other. */
  method ReadChoice(blob: seq<Byte>, tags: seq<Byte>) returns (chosen: Option<nat>, contents: seq<Byte>)
    requires |blob| >= 2 && WholeObject(blob, blob[0])
    ensures chosen.Some? <==> blob[0] in tags
    ensures chosen.Some? ==> FirstOf(tags, blob[0], chosen.value) && contents == ContentsOf(blob)
  {
    hide Syntax, WholeObject, Accepted, ContentsOf;
    ChoiceIsSyntax(tags);
    var parser := new Parser(ChoiceOf(tags), blob, false);
    var ok, id, found := StartChoice(parser, tags, blob);
    chosen, contents := None, [];
    ghost var phase := Looking(0);
    while ok
      invariant ok ==> InChoice(parser, tags, blob, phase)
      invariant fresh(parser) && fresh(parser.mLoopAddr) && fresh(parser.mBlobs) && fresh(parser.mChoice)
      invariant chosen.Some? <==> !phase.Looking?
      invariant chosen.Some? ==> phase.j == chosen.value && contents == ContentsOf(blob)
      invariant chosen.Some? ==> FirstOf(tags, blob[0], chosen.value)
      invariant !ok ==> Ends(tags, phase) && (parser.mSuccess <==> phase.Over?)
      invariant phase == Looking(|tags|) ==> blob[0] !in tags
      decreases ok, 2 * |tags| + 2 - parser.mLine
    {
      ok, id, found := NextInChoice(parser, tags, blob, phase);
      phase := if ok then NextPhase(tags, blob[0], phase) else phase;
      assert phase == Looking(|tags|) ==> tags[..|tags|] == tags;
      if found != NO_CHUNK {
        chosen, contents := Some((id - 1) / 2), blob[found.ptr..End(found)];
      }
    }
    if !parser.mSuccess {
      chosen := None;
    }
  }
}
