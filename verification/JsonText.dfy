/**
 * JSON values with every choice their text leaves open (RFC 8259 sections 2,
 * 4, 5, 6 and 7), and how they print.
 */
module JsonText {
  import opened Common

  /** A character of a string: as itself, after a backslash, or as four hex digits. */
  datatype Piece = Raw(c: char) | Esc(c: char) | Uni(hex: string)

  datatype Exponent = Exponent(letter: char, sign: Option<char>, digits: string)

  datatype Number = Number(minus: bool, whole: string, frac: Option<string>, exp: Option<Exponent>)

  /** Items and members carry the whitespace around their parts. */
  datatype Json =
    | Null | True | False
    | Num(n: Number)
    | Str(pieces: seq<Piece>)
    | EmptyArray(ws: string)
    | Array(items: Items)
    | EmptyObject(ws: string)
    | Object(members: Members)

  datatype Items =
    | LastItem(before: string, value: Json, after: string)
    | Item(before: string, value: Json, after: string, rest: Items)

  datatype Members =
    | LastMember(before: string, key: seq<Piece>, colon: Colon, value: Json, after: string)
    | Member(before: string, key: seq<Piece>, colon: Colon, value: Json, after: string, rest: Members)

  datatype Colon = Colon(before: string, after: string)

  // ----- which of them are JSON -----

  predicate IsDigit(c: char) {
    '0' <= c <= '9'
  }

  predicate IsHex(c: char) {
    IsDigit(c) || 'a' <= c <= 'f' || 'A' <= c <= 'F'
  }

  predicate Digits(s: string) {
    s != "" && forall i :: 0 <= i < |s| ==> IsDigit(s[i])
  }

  predicate Spaces(s: string) {
    forall i :: 0 <= i < |s| ==> s[i] == ' ' || s[i] == '\t' || s[i] == '\n' || s[i] == '\r'
  }

  predicate ValidPiece(p: Piece) {
    match p
    case Raw(c) => c >= ' ' && c != '"' && c != '\\'
    case Esc(c) => c in "\"\\/bfnrt"
    case Uni(hex) => |hex| == 4 && forall i :: 0 <= i < 4 ==> IsHex(hex[i])
  }

  predicate ValidPieces(ps: seq<Piece>) {
    forall i :: 0 <= i < |ps| ==> ValidPiece(ps[i])
  }

  predicate ValidNumber(n: Number) {
    && Digits(n.whole) && (n.whole[0] == '0' ==> |n.whole| == 1)
    && (n.frac.Some? ==> Digits(n.frac.value))
    && (n.exp.Some? ==>
          && (n.exp.value.letter == 'e' || n.exp.value.letter == 'E')
          && (n.exp.value.sign.Some? ==> n.exp.value.sign.value == '+' || n.exp.value.sign.value == '-')
          && Digits(n.exp.value.digits))
  }

  predicate Valid(v: Json) {
    match v
    case Num(n) => ValidNumber(n)
    case Str(ps) => ValidPieces(ps)
    case EmptyArray(ws) => Spaces(ws)
    case Array(items) => ValidItems(items)
    case EmptyObject(ws) => Spaces(ws)
    case Object(members) => ValidMembers(members)
    case _ => true
  }

  predicate ValidItems(items: Items) {
    && Spaces(items.before) && Valid(items.value) && Spaces(items.after)
    && (items.Item? ==> ValidItems(items.rest))
  }

  predicate ValidMembers(ms: Members) {
    && Spaces(ms.before) && ValidPieces(ms.key) && Spaces(ms.colon.before) && Spaces(ms.colon.after)
    && Valid(ms.value) && Spaces(ms.after)
    && (ms.Member? ==> ValidMembers(ms.rest))
  }

  // ----- printing -----

  function PrintPiece(p: Piece): string {
    match p
    case Raw(c) => [c]
    case Esc(c) => ['\\', c]
    case Uni(hex) => "\\u" + hex
  }

  function PrintPieces(ps: seq<Piece>): string {
    if ps == [] then "" else PrintPieces(ps[..|ps| - 1]) + PrintPiece(ps[|ps| - 1])
  }

  function Quote(ps: seq<Piece>): string {
    "\"" + PrintPieces(ps) + "\""
  }

  function PrintNumber(n: Number): string {
    (if n.minus then "-" else "") + n.whole
    + (if n.frac.Some? then "." + n.frac.value else "")
    + (match n.exp
       case None => ""
       case Some(e) => [e.letter] + (if e.sign.Some? then [e.sign.value] else "") + e.digits)
  }

  function Print(v: Json): string {
    match v
    case Null => "null"
    case True => "true"
    case False => "false"
    case Num(n) => PrintNumber(n)
    case Str(ps) => Quote(ps)
    case EmptyArray(ws) => "[" + ws + "]"
    case Array(items) => "[" + PrintItems(items) + "]"
    case EmptyObject(ws) => "{" + ws + "}"
    case Object(members) => "{" + PrintMembers(members) + "}"
  }

  function PrintItems(items: Items): string {
    items.before + Print(items.value) + items.after
    + match items
      case LastItem(_, _, _) => ""
      case Item(_, _, _, rest) => "," + PrintItems(rest)
  }

  function PrintMembers(ms: Members): string {
    ms.before + Quote(ms.key) + ms.colon.before + ":" + ms.colon.after + Print(ms.value) + ms.after
    + match ms
      case LastMember(_, _, _, _, _) => ""
      case Member(_, _, _, _, _, rest) => "," + PrintMembers(rest)
  }
}
