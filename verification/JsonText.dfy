/** The values that test/test_cjson/cJSON.c parses and prints, and the text it prints. */
module JsonText {

  type Int32 = n: int | -0x8000_0000 <= n < 0x8000_0000

  const NUL: char := '\0'

  /** A C string: up to its terminator. */
  predicate NulFree(s: string) {
    forall i :: 0 <= i < |s| ==> s[i] != NUL
  }

  datatype Json =
    | Null
    | False
    | True
    | Number(n: Int32)
    | String(s: string)
    | Array(items: Items)
    | Object(members: Members)

  /** The chains of siblings below an array and below an object. */
  datatype Items = NoItems | Item(value: Json, next: Items)
  datatype Members = NoMembers | Member(name: string, value: Json, next: Members)

  predicate Clean(v: Json) {
    match v
    case String(s) => NulFree(s)
    case Array(items) => CleanItems(items)
    case Object(members) => CleanMembers(members)
    case _ => true
  }

  predicate CleanItems(items: Items) {
    items.Item? ==> Clean(items.value) && CleanItems(items.next)
  }

  predicate CleanMembers(members: Members) {
    members.Member? ==> NulFree(members.name) && Clean(members.value) && CleanMembers(members.next)
  }

  // ----- Text, written in front of the text that follows it -----

  function Cons(c: char, rest: string): (s: string)
    ensures |s| == |rest| + 1 && s[0] == c && s[1..] == rest
  {
    [c] + rest
  }

  function Word(w: string, rest: string): (s: string)
    ensures w != [] ==> s != [] && s[0] == w[0]
  {
    w + rest
  }

  function Tabs(n: int, rest: string): string
    decreases n
  {
    if n <= 0 then rest else Cons('\t', Tabs(n - 1, rest))
  }

  function Digit(d: nat): char
    requires d < 10
  {
    '0' + d as char
  }

  /** A natural number in decimal. */
  function Decimal(n: nat, rest: string): string {
    if n < 10 then Cons(Digit(n), rest) else Decimal(n / 10, Cons(Digit(n % 10), rest))
  }

  function NumberText(n: Int32, rest: string): string {
    var m: int := n;
    if m < 0 then Cons('-', Decimal(-m, rest)) else Decimal(m, rest)
  }

  function HexDigit(d: nat): char
    requires d < 16
  {
    if d < 10 then '0' + d as char else 'a' + (d - 10) as char
  }

  /** The letter of a two-character escape; NUL if there is none. */
  function ShortEscape(c: char): char {
    match c
    case '\\' => '\\'
    case '\"' => '\"'
    case '\U{8}' => 'b'
    case '\U{c}' => 'f'
    case '\n' => 'n'
    case '\r' => 'r'
    case '\t' => 't'
    case _ => NUL
  }

  /** A character inside a string literal. */
  function Escape(c: char, rest: string): string {
    if ShortEscape(c) != NUL then Cons('\\', Cons(ShortEscape(c), rest))
    else if c < ' ' then
      Cons('\\', Cons('u', Cons('0', Cons('0',
        Cons(HexDigit(c as int / 16), Cons(HexDigit(c as int % 16), rest))))))
    else Cons(c, rest)
  }

  function Escaped(s: string, rest: string): string {
    if s == [] then rest else Escape(s[0], Escaped(s[1..], rest))
  }

  /** A string literal. */
  function Quoted(s: string, rest: string): string {
    Cons('\"', Escaped(s, Cons('\"', rest)))
  }

  /** The text of a value, formatted or not, at a depth, followed by `rest`. */
  function Text(v: Json, depth: nat, fmt: bool, rest: string): string {
    match v
    case Null => Word("null", rest)
    case False => Word("false", rest)
    case True => Word("true", rest)
    case Number(n) => NumberText(n, rest)
    case String(s) => Quoted(s, rest)
    case Array(items) => Cons('[', ItemsText(items, depth + 1, fmt, Cons(']', rest)))
    case Object(members) =>
      if members.NoMembers? then
        Cons('{', if fmt then Cons('\n', Tabs(depth - 1, Cons('}', rest))) else Cons('}', rest))
      else
        var tail := if fmt then Tabs(depth, Cons('}', rest)) else Cons('}', rest);
        var body := MembersText(members, depth + 1, fmt, tail);
        Cons('{', if fmt then Cons('\n', body) else body)
  }

  function ItemsText(items: Items, depth: nat, fmt: bool, rest: string): string {
    match items
    case NoItems => rest
    case Item(v, NoItems) => Text(v, depth, fmt, rest)
    case Item(v, next) =>
      var tail := ItemsText(next, depth, fmt, rest);
      Text(v, depth, fmt, Cons(',', if fmt then Cons(' ', tail) else tail))
  }

  function MembersText(members: Members, depth: nat, fmt: bool, rest: string): string {
    match members
    case NoMembers => rest
    case Member(name, v, next) =>
      var tail := MembersText(next, depth, fmt, rest);
      var line := if fmt then Cons('\n', tail) else tail;
      var value := Text(v, depth, fmt, if next.Member? then Cons(',', line) else line);
      var pair := Quoted(name, Cons(':', if fmt then Cons('\t', value) else value));
      if fmt then Tabs(depth, pair) else pair
  }

  function Print(v: Json): string {
    Text(v, 0, true, "")
  }

  function PrintUnformatted(v: Json): string {
    Text(v, 0, false, "")
  }
}
