/** Reading JSON text: what json.loads makes of it, independently of the printer. */
module CanonicalParser {
  import opened Wrappers
  import opened Text
  import opened Doubles
  import opened NumberTexts
  import opened JsonModel
  import opened Canonical

  function HexValue(c: char): Option<nat> {
    if '0' <= c <= '9' then Some(c as int - '0' as int)
    else if 'a' <= c <= 'f' then Some(c as int - 'a' as int + 10)
    else if 'A' <= c <= 'F' then Some(c as int - 'A' as int + 10)
    else None
  }

  // The number that `\u` and four hexadecimal digits stand for, if `s` begins with them.
  function HexEscape(s: string): (r: Option<nat>)
    ensures r.Some? ==> r.value < 0x1_0000
  {
    if |s| < 6 || s[0] != '\\' || s[1] != 'u' then None
    else match (HexValue(s[2]), HexValue(s[3]), HexValue(s[4]), HexValue(s[5]))
      case (Some(a), Some(b), Some(c), Some(d)) => Some(((a * 16 + b) * 16 + c) * 16 + d)
      case _ => None
  }

  // One escape, or the two of a pair of surrogates.
  function UnescapeHex(s: string): (r: Option<(char, string)>)
    ensures r.Some? ==> |r.value.1| + 6 <= |s|
  {
    match HexEscape(s)
    case None => None
    case Some(n) =>
      if n < 0xD800 || 0xE000 <= n then Some((n as char, s[6..]))
      else match HexEscape(s[6..])
        case None => None
        case Some(m) =>
          if n < 0xDC00 <= m < 0xE000
          then Some(((0x1_0000 + (n - 0xD800) * 0x400 + (m - 0xDC00)) as char, s[12..]))
          else None
  }

  // The character that `s` begins with, escaped or not, and what follows it.
  function UnescapeChar(s: string): (r: Option<(char, string)>)
    requires s != ""
    ensures r.Some? ==> |r.value.1| < |s|
  {
    if s[0] != '\\' then if s[0] < ' ' then None else Some((s[0], s[1..]))
    else if |s| < 2 then None
    else if s[1] == '\"' || s[1] == '\\' || s[1] == '/' then Some((s[1], s[2..]))
    else if s[1] == 'n' then Some(('\n', s[2..]))
    else if s[1] == 'r' then Some(('\r', s[2..]))
    else if s[1] == 't' then Some(('\t', s[2..]))
    else if s[1] == 'b' then Some((8 as char, s[2..]))
    else if s[1] == 'f' then Some((12 as char, s[2..]))
    else UnescapeHex(s)
  }

  // The string whose closing quote comes first in `s`, and what follows the quote.
  function ParseChars(s: string): (r: Option<(string, string)>)
    ensures r.Some? ==> |r.value.1| < |s|
    decreases |s|
  {
    if s == "" then None
    else if s[0] == '\"' then Some(("", s[1..]))
    else match UnescapeChar(s)
      case None => None
      case Some((c, rest)) =>
        match ParseChars(rest)
        case None => None
        case Some((cs, rest')) => Some(([c] + cs, rest'))
  }

  predicate IsWordChar(c: char) {
    IsDigit(c) || 'a' <= c <= 'z' || c == '-' || c == '+' || c == '.'
  }

  // The longest run of such characters.
  function WordPrefix(s: string): (n: nat)
    ensures n <= |s| && forall i | 0 <= i < n :: IsWordChar(s[i])
  {
    if s == "" || !IsWordChar(s[0]) then 0 else 1 + WordPrefix(s[1..])
  }

  // The value that `s` begins with, and what follows it.
  function ParseToken(s: string): (r: Option<(Token, string)>)
    ensures r.Some? ==> |r.value.1| < |s|
    decreases |s|, 1
  {
    if s == "" then None
    else if s[0] == '\"' then
      match ParseChars(s[1..])
      case None => None
      case Some((text, rest)) => Some((Quoted(text), rest))
    else if s[0] == '[' then
      if "[]" <= s then Some((List([]), s[2..]))
      else match ParseItems(s[1..])
        case None => None
        case Some((items, rest)) => Some((List(items), rest))
    else if s[0] == '{' then
      if "{}" <= s then Some((Dict([]), s[2..]))
      else match ParseMembers(s[1..])
        case None => None
        case Some((members, rest)) => Some((Dict(members), rest))
    else
      var n := WordPrefix(s);
      if n == 0 then None else Some((Word(s[..n]), s[n..]))
  }

  function ParseItems(s: string): (r: Option<(seq<Token>, string)>)
    ensures r.Some? ==> |r.value.1| < |s|
    decreases |s|, 2
  {
    match ParseToken(s)
    case None => None
    case Some((item, rest)) =>
      if rest != "" && rest[0] == ']' then Some(([item], rest[1..]))
      else if rest != "" && rest[0] == ',' then
        match ParseItems(rest[1..])
        case None => None
        case Some((items, rest')) => Some(([item] + items, rest'))
      else None
  }

  function ParseMembers(s: string): (r: Option<(seq<Member>, string)>)
    ensures r.Some? ==> |r.value.1| < |s|
    decreases |s|, 2
  {
    if s == "" || s[0] != '\"' then None
    else match ParseChars(s[1..])
      case None => None
      case Some((key, colon)) =>
        if colon == "" || colon[0] != ':' then None
        else match ParseToken(colon[1..])
          case None => None
          case Some((value, rest)) =>
            if rest != "" && rest[0] == '}' then Some(([Member(key, value)], rest[1..]))
            else if rest != "" && rest[0] == ',' then
              match ParseMembers(rest[1..])
              case None => None
              case Some((members, rest')) => Some(([Member(key, value)] + members, rest'))
            else None
  }

  // A number with a point or an exponent is a float.
  function ReadNumber(text: string): Json {
    var negative := text != "" && text[0] == '-';
    var body := if negative then text[1..] else text;
    if '.' in body || 'e' in body then
      var x := Round(ReadDecimal(body));
      Float(if negative then -(x as real) else x as real)
    else
      var n: int := DigitsOf(body);
      Int(if negative then -n else n)
  }

  function ReadWord(text: string): Json {
    if text == "null" then Null
    else if text == "true" then Bool(true)
    else if text == "false" then Bool(false)
    else ReadNumber(text)
  }

  function ReadToken(t: Token): Json {
    match t
    case Word(text) => ReadWord(text)
    case Quoted(s) => Str(s)
    case List(items) => Arr(seq(|items|, i requires 0 <= i < |items| => ReadToken(items[i])))
    case Dict(members) =>
      Obj(seq(|members|, i requires 0 <= i < |members| => Field(members[i].key, ReadToken(members[i].value))))
  }

  // json.loads on a whole text.
  function ReadText(s: string): Option<Json> {
    match ParseToken(s)
    case None => None
    case Some((t, rest)) => if rest == "" then Some(ReadToken(t)) else None
  }
}
