/** Texts with any blanks between the tokens, which the printers never write but the
    parser of test/test_cjson/cJSON.c reads. */
module JsonSpaced {
  import opened JsonText
  import opened JsonParse
  import opened JsonLayout
  import opened JsonRoundTrip

  // ----- Tokens -----

  function Then(token: string, ts: seq<string>): (r: seq<string>)
    ensures |r| == |ts| + 1 && r[0] == token && r[1..] == ts
  {
    [token] + ts
  }

  /** The tokens of a value, in front of those that follow it. */
  function TokensOf(v: Json, ts: seq<string>): seq<string> {
    match v
    case Null => Then("null", ts)
    case False => Then("false", ts)
    case True => Then("true", ts)
    case Number(n) => Then(NumberText(n, ""), ts)
    case String(s) => Then(Quoted(s, ""), ts)
    case Array(items) => Then("[", ItemsTokens(items, Then("]", ts)))
    case Object(members) => Then("{", MembersTokens(members, Then("}", ts)))
  }

  function ItemsTokens(items: Items, ts: seq<string>): seq<string> {
    match items
    case NoItems => ts
    case Item(v, next) => TokensOf(v, if next.Item? then Then(",", ItemsTokens(next, ts)) else ts)
  }

  function MembersTokens(members: Members, ts: seq<string>): seq<string> {
    match members
    case NoMembers => ts
    case Member(name, v, next) =>
      Then(Quoted(name, ""),
           Then(":", TokensOf(v, if next.Member? then Then(",", MembersTokens(next, ts)) else ts)))
  }

  /** The text of the tokens with gaps around them: `gap(n)` stands where `n` tokens are
      still to come. */
  function Spread(ts: seq<string>, gap: nat -> string): string {
    gap(|ts|) + if ts == [] then "" else ts[0] + Spread(ts[1..], gap)
  }

  function NoGap(n: nat): string {
    ""
  }

  lemma SpreadThen(token: string, ts: seq<string>, gap: nat -> string)
    ensures Spread(Then(token, ts), gap) == gap(|ts| + 1) + (token + Spread(ts, gap))
  {
  }

  // ----- Without gaps -----

  lemma TightThen(token: string, ts: seq<string>)
    ensures Spread(Then(token, ts), NoGap) == token + Spread(ts, NoGap)
  {
    assert "" + (token + Spread(ts, NoGap)) == token + Spread(ts, NoGap);
  }

  /** The tokens of a value, with nothing between them, are its unformatted text. */
  lemma {:induction false} TightText(v: Json, depth: nat, ts: seq<string>)
    ensures Spread(TokensOf(v, ts), NoGap) == Text(v, depth, false, Spread(ts, NoGap))
    decreases v, 0
  {
    match v
    case Array(items) =>
      TightThen("[", ItemsTokens(items, Then("]", ts)));
      TightItems(items, depth + 1, Then("]", ts));
      TightThen("]", ts);
    case Object(members) =>
      TightThen("{", MembersTokens(members, Then("}", ts)));
      TightMembers(members, depth + 1, Then("}", ts));
      TightThen("}", ts);
    case _ =>
      TightThen(Text(v, depth, false, ""), ts);
      TextAppend(v, depth, false, Spread(ts, NoGap));
  }

  lemma {:induction false} TightItems(items: Items, depth: nat, ts: seq<string>)
    ensures Spread(ItemsTokens(items, ts), NoGap) == ItemsText(items, depth, false, Spread(ts, NoGap))
    decreases items
  {
    if items.Item? {
      if items.next.Item? {
        TightItems(items.next, depth, ts);
        TightThen(",", ItemsTokens(items.next, ts));
        TightText(items.value, depth, Then(",", ItemsTokens(items.next, ts)));
      } else {
        TightText(items.value, depth, ts);
      }
    }
  }

  lemma {:induction false} TightMembers(members: Members, depth: nat, ts: seq<string>)
    ensures Spread(MembersTokens(members, ts), NoGap) == MembersText(members, depth, false, Spread(ts, NoGap))
    decreases members
  {
    if members.Member? {
      var next := members.next;
      var more := if next.Member? then Then(",", MembersTokens(next, ts)) else ts;
      TightMembers(next, depth, ts);
      TightThen(",", MembersTokens(next, ts));
      TightText(members.value, depth, more);
      var value := TokensOf(members.value, more);
      TightThen(":", value);
      TightThen(Quoted(members.name, ""), Then(":", value));
      QuotedAppend(members.name, Cons(':', Spread(value, NoGap)));
    }
  }

  // ----- Blanks -----

  /** Characters that `skip` skips. */
  predicate Blanks(s: string) {
    forall i :: 0 <= i < |s| ==> NUL < s[i] <= ' '
  }

  ghost predicate BlankGaps(gap: nat -> string) {
    forall n :: Blanks(gap(n))
  }

  lemma {:induction false} SkipBlanks(blanks: string, s: string)
    requires Blanks(blanks)
    ensures Skip(blanks + s) == Skip(s)
  {
    if blanks == [] {
      assert blanks + s == s;
    } else {
      assert (blanks + s)[1..] == blanks[1..] + s;
      SkipBlanks(blanks[1..], s);
    }
  }

  /** The parser finds the next token behind the gap. */
  lemma SkipGap(token: string, ts: seq<string>, gap: nat -> string)
    requires BlankGaps(gap) && token != [] && token[0] > ' '
    ensures Skip(Spread(Then(token, ts), gap)) == token + Spread(ts, gap)
    ensures (token + Spread(ts, gap))[1..] == token[1..] + Spread(ts, gap)
  {
    SpreadThen(token, ts, gap);
    SkipBlanks(gap(|ts| + 1), token + Spread(ts, gap));
  }

  /** What may follow a value. */
  predicate Closes(ts: seq<string>) {
    ts == [] || ts[0] == "," || ts[0] == "]" || ts[0] == "}"
  }

  lemma GapEndsNumber(ts: seq<string>, gap: nat -> string)
    requires BlankGaps(gap) && Closes(ts)
    ensures EndsNumber(Spread(ts, gap))
  {
    assert Blanks(gap(|ts|));
    assert ts != [] ==> (ts[0] + Spread(ts[1..], gap))[0] == ts[0][0];
  }

  lemma FirstToken(v: Json, ts: seq<string>)
    ensures var r := TokensOf(v, ts);
            r != [] && r[0] != [] && r[0][0] > ' ' && r[0][0] != ']' && r[0][0] != '}'
  {
    FirstCharacter(v, 0, false, "");
  }

  lemma AfterGap(v: Json, ts: seq<string>, gap: nat -> string)
    requires BlankGaps(gap)
    ensures var s := Skip(Spread(TokensOf(v, ts), gap));
            s != [] && s[0] != ']' && s[0] != '}'
  {
    var r := TokensOf(v, ts);
    FirstToken(v, ts);
    assert Then(r[0], r[1..]) == r;
    SkipGap(r[0], r[1..], gap);
  }

  // ----- Parsing -----

  /** The text of a value with any blanks between its tokens parses as the value, and
      ends where its last token ends. */
  lemma {:induction false} SpacedValue(v: Json, ts: seq<string>, gap: nat -> string)
    requires Clean(v) && BlankGaps(gap) && Closes(ts)
    ensures ParseValue(Skip(Spread(TokensOf(v, ts), gap))) == Ok(v, Spread(ts, gap))
    decreases v, 0
  {
    match v
    case Array(items) => SpacedArray(items, ts, gap);
    case Object(members) => SpacedObject(members, ts, gap);
    case _ =>
      FirstToken(v, ts);
      SkipGap(Text(v, 0, false, ""), ts, gap);
      GapEndsNumber(ts, gap);
      TextAppend(v, 0, false, Spread(ts, gap));
      ValueRoundTrip(v, 0, false, Spread(ts, gap));
  }

  /** The opening character, and what is left when the gap behind it is skipped. */
  lemma Opening(open: string, inner: seq<string>, gap: nat -> string) returns (s: string)
    requires BlankGaps(gap) && (open == "[" || open == "{")
    ensures s == Skip(Spread(Then(open, inner), gap))
    ensures s != [] && s[0] == open[0] && s[1..] == Spread(inner, gap)
  {
    SkipGap(open, inner, gap);
    s := open + Spread(inner, gap);
  }

  lemma NothingInside(s: string, v: Json, ts: seq<string>, gap: nat -> string)
    requires BlankGaps(gap) && s != []
    requires || (v == Array(NoItems) && s[0] == '[' && s[1..] == Spread(Then("]", ts), gap))
             || (v == Object(NoMembers) && s[0] == '{' && s[1..] == Spread(Then("}", ts), gap))
    ensures ParseValue(s) == Ok(v, Spread(ts, gap))
  {
    hide ParseItems, ParseMembers, ParseString, ParseNumber, StartsWith;
    NoWord(s);
    SkipGap(if v.Array? then "]" else "}", ts, gap);
  }

  lemma {:induction false} SpacedArray(items: Items, ts: seq<string>, gap: nat -> string)
    requires CleanItems(items) && BlankGaps(gap)
    ensures ParseValue(Skip(Spread(TokensOf(Array(items), ts), gap))) == Ok(Array(items), Spread(ts, gap))
    decreases items, 1
  {
    hide Skip, ParseValue, ParseItems, Spread;
    var s := Opening("[", ItemsTokens(items, Then("]", ts)), gap);
    if items.NoItems? {
      NothingInside(s, Array(NoItems), ts, gap);
    } else {
      var close := Then("]", ts);
      AfterGap(items.value, if items.next.Item? then Then(",", ItemsTokens(items.next, close)) else close, gap);
      SpacedItems(items, ts, gap);
      ArrayParses(s, items, Spread(ts, gap));
    }
  }

  lemma {:induction false} SpacedItems(items: Items, ts: seq<string>, gap: nat -> string)
    requires CleanItems(items) && BlankGaps(gap) && items.Item?
    ensures ParseItems(Skip(Spread(ItemsTokens(items, Then("]", ts)), gap))) == Ok(items, Spread(ts, gap))
    decreases items, 0
  {
    if items.next.Item? {
      var more := ItemsTokens(items.next, Then("]", ts));
      SpacedItems(items.next, ts, gap);
      SkipGap(",", more, gap);
      SpacedValue(items.value, Then(",", more), gap);
      assert AfterItem("," + Spread(more, gap)) == Ok(items.next, Spread(ts, gap));
    } else {
      SkipGap("]", ts, gap);
      SpacedValue(items.value, Then("]", ts), gap);
      assert AfterItem("]" + Spread(ts, gap)) == Ok(NoItems, Spread(ts, gap));
    }
  }

  lemma {:induction false} SpacedObject(members: Members, ts: seq<string>, gap: nat -> string)
    requires CleanMembers(members) && BlankGaps(gap)
    ensures ParseValue(Skip(Spread(TokensOf(Object(members), ts), gap))) == Ok(Object(members), Spread(ts, gap))
    decreases members, 1
  {
    hide Skip, ParseValue, ParseMembers, Spread;
    var s := Opening("{", MembersTokens(members, Then("}", ts)), gap);
    if members.NoMembers? {
      NothingInside(s, Object(NoMembers), ts, gap);
    } else {
      SpacedMembers(members, ts, gap);
      ObjectParses(s, members, Spread(ts, gap));
    }
  }

  /** A name, a colon and a value, with gaps between them. */
  lemma SpacedPair(name: string, v: Json, more: seq<string>, gap: nat -> string)
    requires NulFree(name) && BlankGaps(gap)
    requires ParseValue(Skip(Spread(TokensOf(v, more), gap))) == Ok(v, Spread(more, gap))
    ensures var s := Skip(Spread(Then(Quoted(name, ""), Then(":", TokensOf(v, more))), gap));
            && s != [] && s[0] == '\"'
            && ParseMembers(s) == AddMember(name, v, AfterMember(Skip(Spread(more, gap))))
  {
    var value := TokensOf(v, more);
    var rest := Spread(Then(":", value), gap);
    SkipGap(Quoted(name, ""), Then(":", value), gap);
    QuotedAppend(name, rest);
    StringRoundTrip(name, rest);
    SkipGap(":", value, gap);
    assert (":" + Spread(value, gap))[1..] == Spread(value, gap);
  }

  lemma {:induction false} SpacedMembers(members: Members, ts: seq<string>, gap: nat -> string)
    requires CleanMembers(members) && BlankGaps(gap) && members.Member?
    ensures var s := Skip(Spread(MembersTokens(members, Then("}", ts)), gap));
            s != [] && s[0] == '\"' && ParseMembers(s) == Ok(members, Spread(ts, gap))
    decreases members, 0
  {
    if members.next.Member? {
      var more := MembersTokens(members.next, Then("}", ts));
      SpacedMembers(members.next, ts, gap);
      SkipGap(",", more, gap);
      SpacedValue(members.value, Then(",", more), gap);
      SpacedPair(members.name, members.value, Then(",", more), gap);
      assert AfterMember("," + Spread(more, gap)) == Ok(members.next, Spread(ts, gap));
    } else {
      SkipGap("}", ts, gap);
      SpacedValue(members.value, Then("}", ts), gap);
      SpacedPair(members.name, members.value, Then("}", ts), gap);
      assert AfterMember("}" + Spread(ts, gap)) == Ok(NoMembers, Spread(ts, gap));
    }
  }

  /** Whatever blanks stand between the tokens of a value, before them and behind them, the
      text parses as the value; with the check for the terminator it is consumed whole. */
  lemma SpacedParse(v: Json, gap: nat -> string)
    requires Clean(v) && BlankGaps(gap)
    ensures ParseWithOpts(Spread(TokensOf(v, []), gap), true) == Ok(v, "")
    ensures ParseWithOpts(Spread(TokensOf(v, []), gap), false) == Ok(v, gap(0))
  {
    SpacedValue(v, [], gap);
    assert Spread([], gap) == gap(0);
    SkipBlanks(gap(0), "");
    assert gap(0) + "" == gap(0);
  }

  /** And with none it is the text that the printer writes without format. */
  lemma TightPrint(v: Json)
    ensures Spread(TokensOf(v, []), NoGap) == PrintUnformatted(v)
  {
    TightText(v, 0, []);
  }
}
