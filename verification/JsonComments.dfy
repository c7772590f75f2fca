/** Blanks and comments between the tokens of a text, which cJSON_Minify of
    test/test_cjson/cJSON.c takes out. */
module JsonComments {
  import opened Common
  import opened JsonText
  import opened JsonParse
  import opened JsonLayout
  import opened JsonMinify
  import opened JsonSpaced

  // ----- One blank or comment -----

  /** The four blanks. */
  lemma BlanksGo(rest: string)
    ensures Minified(" " + rest) == Minified(rest) && Minified("\t" + rest) == Minified(rest)
    ensures Minified("\r" + rest) == Minified(rest) && Minified("\n" + rest) == Minified(rest)
  {
    MinifiedBlank(' ', rest);
    MinifiedBlank('\t', rest);
    MinifiedBlank('\r', rest);
    MinifiedBlank('\n', rest);
  }

  predicate OneLine(c: string) {
    forall i :: 0 <= i < |c| ==> c[i] != '\n'
  }

  lemma {:induction false} SkipLineEnds(c: string, rest: string)
    requires OneLine(c)
    ensures SkipLine(c + "\n" + rest) == "\n" + rest && SkipLine(c) == ""
  {
    if c == [] {
      assert c + "\n" + rest == "\n" + rest;
    } else {
      SkipLineEnds(c[1..], rest);
      assert (c + "\n" + rest)[1..] == c[1..] + "\n" + rest;
    }
  }

  /** A comment to the end of the line goes, with the line break; the last line of the text
      need not end. */
  lemma LineCommentGoes(c: string, rest: string)
    requires OneLine(c)
    ensures Minified("//" + c + "\n" + rest) == Minified(rest)
    ensures Minified("//" + c) == Some("")
  {
    var s, t := "//" + c + "\n" + rest, "//" + c;
    assert s[1..] == ("/" + c) + "\n" + rest && t[1..] == "/" + c;
    SkipLineEnds("/" + c, rest);
    BlanksGo(rest);
  }

  /** No comment ends within `body`, when a slash comes behind it only after a star. */
  predicate NotClosed(body: string) {
    forall i :: 0 <= i && i + 1 < |body| ==> body[i] != '*' || body[i + 1] != '/'
  }

  lemma {:induction false} SkipCommentEnds(body: string, rest: string)
    requires NotClosed(body + "*")
    ensures SkipComment(body + "*/" + rest) == Some(rest)
  {
    var s := body + "*/" + rest;
    if body == [] {
      assert s[2..] == rest;
    } else {
      var b := body + "*";
      assert b[0] != '*' || b[1] != '/';
      assert s[0] == b[0] && s[1] == b[1];
      assert (body + "*")[1..] == body[1..] + "*";
      assert forall i :: 0 <= i && i + 1 < |body[1..] + "*"| ==> (body[1..] + "*")[i] == b[i + 1];
      assert NotClosed(body[1..] + "*") by {
        forall i | 0 <= i && i + 1 < |body[1..] + "*"|
          ensures (body[1..] + "*")[i] != '*' || (body[1..] + "*")[i + 1] != '/'
        {
          assert b[i + 1] != '*' || b[i + 1 + 1] != '/';
        }
      }
      SkipCommentEnds(body[1..], rest);
      assert s[1..] == body[1..] + "*/" + rest;
    }
  }

  /** What stands between the slashes of a comment that is closed where it ends. The star
      that opens a comment may be the one that closes it. */
  predicate Enclosed(body: string) {
    body != [] && body[0] == '*' && body[|body| - 1] == '*' && NotClosed(body)
  }

  lemma CommentGoes(body: string, rest: string)
    requires Enclosed(body)
    ensures Minified("/" + body + "/" + rest) == Minified(rest)
  {
    var inner := body[..|body| - 1];
    assert inner + "*" == body;
    SkipCommentEnds(inner, rest);
    var s := "/" + body + "/" + rest;
    assert s[1..] == inner + "*/" + rest;
  }

  /** A comment with both its stars goes. */
  lemma BlockCommentGoes(c: string, rest: string)
    requires NotClosed("*" + c + "*")
    ensures Minified("/*" + c + "*/" + rest) == Minified(rest)
  {
    var body := "*" + c + "*";
    assert "/*" + c + "*/" + rest == "/" + body + "/" + rest;
    CommentGoes(body, rest);
  }

  // ----- Gaps -----

  /** A blank or a comment. */
  datatype Piece = Blank(c: char) | Line(comment: string) | Block(body: string)

  predicate Fits(piece: Piece) {
    match piece
    case Blank(c) => IsBlank(c)
    case Line(comment) => OneLine(comment)
    case Block(body) => Enclosed(body)
  }

  function PieceText(piece: Piece): string {
    match piece
    case Blank(c) => [c]
    case Line(comment) => "//" + comment + "\n"
    case Block(body) => "/" + body + "/"
  }

  function GapText(gap: seq<Piece>): string {
    if gap == [] then "" else PieceText(gap[0]) + GapText(gap[1..])
  }

  predicate AllFit(gap: seq<Piece>) {
    forall i :: 0 <= i < |gap| ==> Fits(gap[i])
  }

  lemma PieceGoes(piece: Piece, rest: string)
    requires Fits(piece)
    ensures Minified(PieceText(piece) + rest) == Minified(rest)
  {
    match piece
    case Blank(c) => MinifiedBlank(c, rest);
    case Line(comment) => LineCommentGoes(comment, rest);
    case Block(body) => CommentGoes(body, rest);
  }

  lemma {:induction false} GapGoes(gap: seq<Piece>, rest: string)
    requires AllFit(gap)
    ensures Minified(GapText(gap) + rest) == Minified(rest)
  {
    if gap == [] {
      assert GapText(gap) + rest == rest;
    } else {
      var more := GapText(gap[1..]) + rest;
      assert GapText(gap) + rest == PieceText(gap[0]) + more;
      PieceGoes(gap[0], more);
      GapGoes(gap[1..], rest);
    }
  }

  // ----- Texts -----

  /** The tokens one after the other. */
  function Tight(ts: seq<string>): string {
    Spread(ts, NoGap)
  }

  /** A token that is kept as it is. */
  ghost predicate Kept(token: string) {
    Solid(token) || exists s :: token == Quoted(s, "")
  }

  lemma KeptStays(token: string, rest: string)
    requires Kept(token)
    ensures Minified(token + rest) == Before(token, Minified(rest))
  {
    if Solid(token) {
      MinifiedSolid(token, rest);
    } else {
      var s :| token == Quoted(s, "");
      QuotedAppend(s, rest);
      MinifiedQuoted(s, rest);
    }
  }

  ghost predicate AllKept(ts: seq<string>) {
    forall i :: 0 <= i < |ts| ==> Kept(ts[i])
  }

  lemma KeptThen(token: string, ts: seq<string>)
    requires Kept(token) && AllKept(ts)
    ensures AllKept(Then(token, ts))
  {
  }

  lemma {:induction false} TokensAreKept(v: Json, ts: seq<string>)
    requires AllKept(ts)
    ensures AllKept(TokensOf(v, ts))
    decreases v, 0
  {
    match v
    case Null => KeptThen("null", ts);
    case False => KeptThen("false", ts);
    case True => KeptThen("true", ts);
    case Number(n) =>
      NumberSolid(n);
      KeptThen(NumberText(n, ""), ts);
    case String(s) => KeptThen(Quoted(s, ""), ts);
    case Array(items) =>
      KeptThen("]", ts);
      ItemsAreKept(items, Then("]", ts));
      KeptThen("[", ItemsTokens(items, Then("]", ts)));
    case Object(members) =>
      KeptThen("}", ts);
      MembersAreKept(members, Then("}", ts));
      KeptThen("{", MembersTokens(members, Then("}", ts)));
  }

  lemma {:induction false} ItemsAreKept(items: Items, ts: seq<string>)
    requires AllKept(ts)
    ensures AllKept(ItemsTokens(items, ts))
    decreases items
  {
    if items.Item? {
      if items.next.Item? {
        ItemsAreKept(items.next, ts);
        KeptThen(",", ItemsTokens(items.next, ts));
        TokensAreKept(items.value, Then(",", ItemsTokens(items.next, ts)));
      } else {
        TokensAreKept(items.value, ts);
      }
    }
  }

  lemma {:induction false} MembersAreKept(members: Members, ts: seq<string>)
    requires AllKept(ts)
    ensures AllKept(MembersTokens(members, ts))
    decreases members
  {
    if members.Member? {
      var more := if members.next.Member? then Then(",", MembersTokens(members.next, ts)) else ts;
      MembersAreKept(members.next, ts);
      KeptThen(",", MembersTokens(members.next, ts));
      TokensAreKept(members.value, more);
      var value := TokensOf(members.value, more);
      KeptThen(":", value);
      KeptThen(Quoted(members.name, ""), Then(":", value));
    }
  }

  ghost predicate GapsFit(gap: nat -> seq<Piece>) {
    forall n :: AllFit(gap(n))
  }

  function Texts(gap: nat -> seq<Piece>): nat -> string {
    (n: nat) => GapText(gap(n))
  }

  lemma {:induction false} MinifiedSpread(ts: seq<string>, gap: nat -> seq<Piece>)
    requires AllKept(ts) && GapsFit(gap)
    ensures Minified(Spread(ts, Texts(gap))) == Some(Tight(ts))
    decreases |ts|
  {
    var text := Texts(gap);
    var tail := if ts == [] then "" else ts[0] + Spread(ts[1..], text);
    assert Spread(ts, text) == GapText(gap(|ts|)) + tail;
    GapGoes(gap(|ts|), tail);
    if ts == [] {
      assert Tight(ts) == "" && Minified("") == Some("");
    } else {
      MinifiedSpread(ts[1..], gap);
      KeptStays(ts[0], Spread(ts[1..], text));
      assert Then(ts[0], ts[1..]) == ts;
      TightThen(ts[0], ts[1..]);
    }
  }

  /** Whatever blanks and comments stand between the tokens of a value, before them and
      behind them, cJSON_Minify leaves what cJSON_PrintUnformatted makes of the value. */
  lemma MinifiedSpacedText(v: Json, gap: nat -> seq<Piece>)
    requires GapsFit(gap)
    ensures Minified(Spread(TokensOf(v, []), Texts(gap))) == Some(PrintUnformatted(v))
  {
    TokensAreKept(v, []);
    MinifiedSpread(TokensOf(v, []), gap);
    TightPrint(v);
  }
}
