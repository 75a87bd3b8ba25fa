/** What the parser makes of the text that remains, as functions of that text. */
module JsonGrammar {
  import opened Wrappers
  import opened JsonText

  datatype Error =
    | UnexpectedEnd
    | TrailingData
    | DuplicateKey(key: Text)
    | UnterminatedEscape
    | InvalidEscape
    | ControlCharacter
    | UnterminatedString
    | ShortUnicode
    | InvalidUnicode
    | InvalidLiteral
    | InvalidNumber
    | ExpectedDigit
    | Expected(wanted: CodeUnit)

  /** A parse, with the text left over; for a failure, the text at the reported position. */
  datatype Parsed<+T> = Ok(value: T, rest: Text) | Fail(error: Error, rest: Text)

  // ---------------------------------------------------------------- tokens

  function Space(s: Text): (rest: Text)
    ensures |rest| <= |s|
  {
    if s != [] && IsSpace(s[0]) then Space(s[1..]) else s
  }

  predicate Starts(s: Text, c: CodeUnit) {
    s != [] && s[0] == c
  }

  /** `take`: drop the unit when it is next. */
  function Take(s: Text, c: CodeUnit): (rest: Text)
    ensures |rest| <= |s|
  {
    if Starts(s, c) then s[1..] else s
  }

  function SkipDigits(s: Text): (rest: Text)
    ensures |rest| <= |s|
  {
    if s != [] && IsDigit(s[0]) then SkipDigits(s[1..]) else s
  }

  function Digits(s: Text): (p: Parsed<()>)
    ensures |p.rest| <= |s|
  {
    if SkipDigits(s) == s then Fail(ExpectedDigit, s) else Ok((), SkipDigits(s))
  }

  function IntegerPart(s: Text): (p: Parsed<()>)
    ensures |p.rest| <= |s|
  {
    var unsigned := Take(s, MINUS);
    if Starts(unsigned, ZERO) then Ok((), unsigned[1..]) else Digits(unsigned)
  }

  function FractionPart(s: Text): (p: Parsed<()>)
    ensures |p.rest| <= |s|
  {
    if Starts(s, DOT) then Digits(s[1..]) else Ok((), s)
  }

  function ExponentPart(s: Text): (p: Parsed<()>)
    ensures |p.rest| <= |s|
  {
    if Starts(s, LOWER_E) || Starts(s, UPPER_E) then Digits(Take(Take(s[1..], PLUS), MINUS)) else Ok((), s)
  }

  /** The longest lexeme `number` takes. */
  function Scan(s: Text): (p: Parsed<()>)
    ensures |p.rest| <= |s|
  {
    var integer := IntegerPart(s);
    if integer.Fail? then integer
    else
      var fraction := FractionPart(integer.rest);
      if fraction.Fail? then fraction else ExponentPart(fraction.rest)
  }

  function NumberAt(s: Text, decimal: Decimal): (p: Parsed<Value>)
    ensures |p.rest| <= |s|
  {
    var scanned := Scan(s);
    if scanned.Fail? then Fail(scanned.error, scanned.rest)
    else
      match decimal(s[..|s| - |scanned.rest|])
      case Some(number) => Ok(Number(number), scanned.rest)
      case None => Fail(InvalidNumber, scanned.rest)
  }

  function LiteralAt(s: Text, text: Text, value: Value): (p: Parsed<Value>)
    ensures |p.rest| <= |s|
  {
    if text <= s then Ok(value, s[|text|..]) else Fail(InvalidLiteral, s)
  }

  // ---------------------------------------------------------------- strings

  /** The next `count` hexadecimal digits, folded into a value below 16 to the power of all digits read. */
  function HexDigits(s: Text, count: nat, value: nat): (p: Parsed<nat>)
    requires |s| >= count
    ensures |p.rest| <= |s|
  {
    if count == 0 then Ok(value, s)
    else if HexValue(s[0]) < 0 then Fail(InvalidUnicode, s[1..])
    else HexDigits(s[1..], count - 1, value * 16 + HexValue(s[0]))
  }

  /** The cast to `char` keeps the low sixteen bits. */
  function UnicodeAt(s: Text): (p: Parsed<CodeUnit>)
    ensures |p.rest| <= |s|
  {
    if |s| < 4 then Fail(ShortUnicode, s)
    else
      var digits := HexDigits(s, 4, 0);
      if digits.Fail? then Fail(digits.error, digits.rest) else Ok(digits.value % 0x1_0000, digits.rest)
  }

  /** The unit a one-letter escape stands for. */
  function Unescape(letter: CodeUnit): Option<CodeUnit> {
    if letter == QUOTE then Some(QUOTE)
    else if letter == BACKSLASH then Some(BACKSLASH)
    else if letter == 0x2F then Some(0x2F)
    else if letter == 0x62 then Some(0x08)
    else if letter == 0x66 then Some(0x0C)
    else if letter == 0x6E then Some(0x0A)
    else if letter == 0x72 then Some(0x0D)
    else if letter == 0x74 then Some(0x09)
    else None
  }

  /** After a backslash. */
  function EscapeAt(s: Text): (p: Parsed<CodeUnit>)
    ensures |p.rest| <= |s|
    ensures p.Ok? ==> |p.rest| < |s|
  {
    if s == [] then Fail(UnterminatedEscape, s)
    else if s[0] == LOWER_U then UnicodeAt(s[1..])
    else
      match Unescape(s[0])
      case Some(unit) => Ok(unit, s[1..])
      case None => Fail(InvalidEscape, s[1..])
  }

  function StringBody(s: Text, out: Text): (p: Parsed<Text>)
    ensures |p.rest| <= |s|
    ensures p.Ok? ==> |p.rest| < |s|
    decreases |s|
  {
    if s == [] then Fail(UnterminatedString, s)
    else if s[0] == QUOTE then Ok(out, s[1..])
    else if s[0] == BACKSLASH then
      var escaped := EscapeAt(s[1..]);
      if escaped.Fail? then Fail(escaped.error, escaped.rest)
      else StringBody(escaped.rest, out + [escaped.value])
    else if s[0] < 0x20 then Fail(ControlCharacter, s[1..])
    else StringBody(s[1..], out + [s[0]])
  }

  function StringAt(s: Text): (p: Parsed<Text>)
    ensures |p.rest| <= |s|
    ensures p.Ok? ==> |p.rest| < |s|
  {
    if Starts(s, QUOTE) then StringBody(s[1..], []) else Fail(Expected(QUOTE), s)
  }

  // ---------------------------------------------------------------- values

  function ValueAt(text: Text, decimal: Decimal): (p: Parsed<Value>)
    ensures |p.rest| <= |text|
    ensures p.Ok? ==> |p.rest| < |text|
    decreases |text|, 1
  {
    var s := Space(text);
    if s == [] then Fail(UnexpectedEnd, s)
    else if s[0] == LBRACE then ObjectAt(s, decimal)
    else if s[0] == LBRACKET then ArrayAt(s, decimal)
    else if s[0] == QUOTE then
      var p := StringAt(s);
      if p.Fail? then Fail(p.error, p.rest) else Ok(String(p.value), p.rest)
    else if s[0] == TRUE[0] then LiteralAt(s, TRUE, Bool(true))
    else if s[0] == FALSE[0] then LiteralAt(s, FALSE, Bool(false))
    else if s[0] == NULL[0] then LiteralAt(s, NULL, Null)
    else
      ScanAdvances(s);
      NumberAt(s, decimal)
  }

  lemma ScanAdvances(s: Text)
    ensures Scan(s).Ok? ==> |Scan(s).rest| < |s|
  {}

  function ArrayAt(s: Text, decimal: Decimal): (p: Parsed<Value>)
    requires Starts(s, LBRACKET)
    ensures |p.rest| <= |s|
    ensures p.Ok? ==> |p.rest| < |s|
    decreases |s|, 0
  {
    var inside := Space(s[1..]);
    if Starts(inside, RBRACKET) then Ok(Array([]), inside[1..]) else ItemsAt(inside, [], decimal)
  }

  function ItemsAt(s: Text, out: seq<Value>, decimal: Decimal): (p: Parsed<Value>)
    ensures |p.rest| <= |s|
    ensures p.Ok? ==> |p.rest| < |s|
    decreases |s|, 2
  {
    var item := ValueAt(s, decimal);
    if item.Fail? then item
    else
      var next := Space(item.rest);
      if Starts(next, RBRACKET) then Ok(Array(out + [item.value]), next[1..])
      else if Starts(next, COMMA) then ItemsAt(next[1..], out + [item.value], decimal)
      else Fail(Expected(COMMA), next)
  }

  function ObjectAt(s: Text, decimal: Decimal): (p: Parsed<Value>)
    requires Starts(s, LBRACE)
    ensures |p.rest| <= |s|
    ensures p.Ok? ==> |p.rest| < |s|
    decreases |s|, 0
  {
    var inside := Space(s[1..]);
    if Starts(inside, RBRACE) then Ok(Object(map[]), inside[1..]) else MembersAt(inside, map[], decimal)
  }

  /** `put(...) != null`: a repeated key is noticed only when its earlier value is not null. */
  predicate Clashes(out: map<Text, Value>, key: Text) {
    key in out && out[key] != Null
  }

  function MembersAt(s: Text, out: map<Text, Value>, decimal: Decimal): (p: Parsed<Value>)
    ensures |p.rest| <= |s|
    ensures p.Ok? ==> |p.rest| < |s|
    decreases |s|, 2
  {
    var key := StringAt(Space(s));
    if key.Fail? then Fail(key.error, key.rest)
    else
      var colon := Space(key.rest);
      if !Starts(colon, COLON) then Fail(Expected(COLON), colon)
      else
        var value := ValueAt(colon[1..], decimal);
        if value.Fail? then value
        else if Clashes(out, key.value) then Fail(DuplicateKey(key.value), value.rest)
        else
          var next := Space(value.rest);
          if Starts(next, RBRACE) then Ok(Object(out[key.value := value.value]), next[1..])
          else if Starts(next, COMMA) then MembersAt(next[1..], out[key.value := value.value], decimal)
          else Fail(Expected(COMMA), next)
  }

  /** The whole source: one value and nothing but space after it. */
  function Parse(source: Text, decimal: Decimal): Parsed<Value> {
    var p := ValueAt(source, decimal);
    if p.Fail? then p
    else if Space(p.rest) != [] then Fail(TrailingData, Space(p.rest))
    else Ok(p.value, [])
  }
}
