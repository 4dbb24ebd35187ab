/** tools/omp_tools/envelope.py: the canonical text of a body.

    `Canonicalize` is proved against two independent definitions: a parser that reads the
    text back, and the text that RFC 8785 prescribes (`JcsText`). */
module Canonical {
  import opened Wrappers
  import opened JsonModel
  import opened NumberTexts
  import opened KeyOrders

  datatype NumberError = NonFiniteNumber | NonIntegralFloat

  // ---- number check -------------------------------------------------------

  function CheckNumbers(j: Json): Option<NumberError> {
    match j
    case NonFinite(_) => Some(NonFiniteNumber)
    case Float(r) => if r != r.Floor as real then Some(NonIntegralFloat) else None
    case Arr(items) => CheckItems(items)
    case Obj(fields) => CheckFields(fields)
    case _ => None
  }

  function CheckItems(items: seq<Json>): Option<NumberError> {
    if items == [] then None
    else if CheckNumbers(items[0]).Some? then CheckNumbers(items[0])
    else CheckItems(items[1..])
  }

  function CheckFields(fields: seq<Field>): Option<NumberError> {
    if fields == [] then None
    else if CheckNumbers(fields[0].value).Some? then CheckNumbers(fields[0].value)
    else CheckFields(fields[1..])
  }

  // ---- printer ------------------------------------------------------------

  function HexDigit(n: nat): char
    requires n < 16
  {
    "0123456789abcdef"[n]
  }

  // json.dumps with ensure_ascii=False escapes the quote, the backslash and the control characters.
  function EscapeChar(c: char): string {
    if c == '\"' then "\\\""
    else if c == '\\' then "\\\\"
    else if c == '\n' then "\\n"
    else if c == '\r' then "\\r"
    else if c == '\t' then "\\t"
    else if c as int == 8 then "\\b"
    else if c as int == 12 then "\\f"
    else if c < ' ' then "\\u00" + [HexDigit(c as int / 16), HexDigit(c as int % 16)]
    else [c]
  }

  function EscapeAll(s: string): string {
    if s == "" then "" else EscapeChar(s[0]) + EscapeAll(s[1..])
  }

  function Quote(s: string): string {
    "\"" + EscapeAll(s) + "\""
  }

  // The compact text of a value comes in two steps: first numbers and literal names are written,
  // then brackets and commas are put around them.
  datatype Token =
    | Word(text: string)                 // null, true, false, or a number
    | Quoted(s: string)
    | List(items: seq<Token>)
    | Dict(members: seq<Member>)

  datatype Member = Member(key: string, value: Token)

  function NumberText(j: Json, style: Style): string
    requires j.Int? || j.Float?
  {
    if j.Int? then IntegerText(j.n, style) else WholeFloatText(j.r.Floor, style)
  }

  function Tokens(j: Json, style: Style): Token {
    match j
    case Null => Word("null")
    case Bool(b) => Word(if b then "true" else "false")
    case Int(_) => Word(NumberText(j, style))
    case Float(_) => Word(NumberText(j, style))
    case NonFinite(_) => Word("NaN")
    case Str(s) => Quoted(s)
    case Arr(items) => List(seq(|items|, i requires 0 <= i < |items| => Tokens(items[i], style)))
    case Obj(fields) =>
      Dict(seq(|fields|, i requires 0 <= i < |fields| => Member(fields[i].key, Tokens(fields[i].value, style))))
  }

  function Print(t: Token): string {
    match t
    case Word(text) => text
    case Quoted(s) => Quote(s)
    case List(items) => "[" + (if items == [] then "]" else PrintItems(items))
    case Dict(members) => "{" + (if members == [] then "}" else PrintMembers(members))
  }

  function PrintItems(items: seq<Token>): string
    requires items != []
  {
    Print(items[0]) + (if |items| == 1 then "]" else "," + PrintItems(items[1..]))
  }

  function PrintMembers(members: seq<Member>): string
    requires members != []
  {
    Quote(members[0].key) + ":" + Print(members[0].value) +
    (if |members| == 1 then "}" else "," + PrintMembers(members[1..]))
  }

  // ---- key order ----------------------------------------------------------

  function InsertField(f: Field, sorted: seq<Field>, style: Style): seq<Field> {
    if sorted == [] then [f]
    else if Before(sorted[0].key, f.key, style) then [sorted[0]] + InsertField(f, sorted[1..], style)
    else [f] + sorted
  }

  // Every object in key order, at every depth.
  function SortKeys(j: Json, style: Style): Json {
    match j
    case Arr(items) => Arr(seq(|items|, i requires 0 <= i < |items| => SortKeys(items[i], style)))
    case Obj(fields) => Obj(SortFields(fields, style))
    case _ => j
  }

  function SortFields(fields: seq<Field>, style: Style): seq<Field> {
    if fields == [] then []
    else InsertField(Field(fields[0].key, SortKeys(fields[0].value, style)), SortFields(fields[1..], style), style)
  }

  // The tokens of the canonical text, in either style.
  function Canon(j: Json, style: Style): Token {
    Tokens(SortKeys(j, style), style)
  }

  // json.dumps with sort_keys=True and compact separators.
  function Canonicalize(j: Json): Result<string, NumberError> {
    match CheckNumbers(j)
    case Some(e) => Err(e)
    case None => Ok(Print(Canon(j, Python)))
  }

  // ---- RFC 8785 -------------------------------------------------------------

  // What section 3.2 of RFC 8785 prescribes: keys in the order of UTF-16 code units, numbers as
  // ECMAScript writes them, and strings by the rule of section 3.2.2.2.
  function JcsText(j: Json): string {
    JcsPrint(Canon(j, Ecma))
  }

  const TWO_CHARACTER_ESCAPES: map<int, char> :=
    map[0x08 := 'b', 0x09 := 't', 0x0A := 'n', 0x0C := 'f', 0x0D := 'r', 0x22 := '\"', 0x5C := '\\']

  // Seven characters come as a backslash and one character, the other characters below U+0020 with
  // four lower-case hexadecimal digits, and all the rest as they are.
  function JcsChar(c: char): string {
    if c as int in TWO_CHARACTER_ESCAPES then ['\\', TWO_CHARACTER_ESCAPES[c as int]]
    else if c as int >= 0x20 then [c]
    else
      var low := c as int % 0x10;
      "\\u00" + (if c as int >= 0x10 then "1" else "0")
      + [if low < 10 then ('0' as int + low) as char else ('a' as int + low - 10) as char]
  }

  function JcsString(s: string): string {
    if s == "" then "" else JcsChar(s[0]) + JcsString(s[1..])
  }

  function JcsPrint(t: Token): string {
    match t
    case Word(text) => text
    case Quoted(s) => "\"" + JcsString(s) + "\""
    case List(items) => "[" + (if items == [] then "" else JcsItems(items)) + "]"
    case Dict(members) => "{" + (if members == [] then "" else JcsMembers(members)) + "}"
  }

  function JcsItems(items: seq<Token>): string
    requires items != []
  {
    JcsPrint(items[0]) + if |items| == 1 then "" else "," + JcsItems(items[1..])
  }

  function JcsMembers(members: seq<Member>): string
    requires members != []
  {
    "\"" + JcsString(members[0].key) + "\":" + JcsPrint(members[0].value)
    + if |members| == 1 then "" else "," + JcsMembers(members[1..])
  }
}
