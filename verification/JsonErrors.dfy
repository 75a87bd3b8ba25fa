/** Where each of the parser's errors is reported. */
module JsonErrors {
  import opened Wrappers
  import opened JsonText
  import opened JsonGrammar
  import opened JsonRoundTrip
  import opened JsonSyntax

  // ---------------------------------------------------------------- inside a string

  /** A text no unit and no closing quote starts, the error it is, and what is left after the offending unit. */
  predicate IsFault(s: Text, error: Error, rest: Text) {
    || (s == [] && error == UnterminatedString && rest == [])
    || (s != [] && s[0] < 0x20 && error == ControlCharacter && rest == s[1..])
    || (s == [BACKSLASH] && error == UnterminatedEscape && rest == [])
    || (|s| > 1 && s[0] == BACKSLASH && s[1] != LOWER_U && Unescape(s[1]) == None && error == InvalidEscape
        && rest == s[2..])
    || (1 < |s| < 6 && s[0] == BACKSLASH && s[1] == LOWER_U && error == ShortUnicode && rest == s[2..])
    || (|s| >= 6 && s[0] == BACKSLASH && s[1] == LOWER_U && error == InvalidUnicode && IsFirstBad(s[2..], rest))
  }

  /** Some digit among the first four is none, and the rest begins after the first such. */
  predicate IsFirstBad(s: Text, rest: Text)
    requires |s| >= 4
  {
    exists i :: 0 <= i < 4 && HexValue(s[i]) < 0 && (forall j :: 0 <= j < i ==> HexValue(s[j]) >= 0) && rest == s[i + 1..]
  }

  lemma {:induction false} FirstBadDigit(s: Text, count: nat, value: nat, i: nat)
    requires i < count <= |s| && HexValue(s[i]) < 0 && forall j :: 0 <= j < i ==> HexValue(s[j]) >= 0
    ensures HexDigits(s, count, value) == Fail(InvalidUnicode, s[i + 1..])
  {
    if i > 0 {
      FirstBadDigit(s[1..], count - 1, value * 16 + HexValue(s[0]), i - 1);
      assert s[1..][i..] == s[i + 1..];
    }
  }

  lemma FaultStops(s: Text, error: Error, rest: Text, out: Text)
    requires IsFault(s, error, rest)
    ensures StringBody(s, out) == Fail(error, rest)
  {
    if |s| > 1 && s[0] == BACKSLASH {
      assert s[1..][0] == s[1] && s[1..][1..] == s[2..];
      if s[1] == LOWER_U && |s| >= 6 {
        var i :| 0 <= i < 4 && HexValue(s[2..][i]) < 0 && (forall j :: 0 <= j < i ==> HexValue(s[2..][j]) >= 0)
                 && rest == s[2..][i + 1..];
        FirstBadDigit(s[2..], 4, 0, i);
      }
    }
  }

  lemma {:induction false} UnitsPassed(units: seq<Unit>, rest: Text, out: Text)
    requires UnitsOk(units)
    ensures StringBody(UnitsText(units, rest), out) == StringBody(rest, out + UnitsValue(units))
  {
    if units == [] {
      assert out + UnitsValue(units) == out;
    } else {
      UnitReads(units[0], UnitsText(units[1..], rest), out);
      UnitsPassed(units[1..], rest, out + [UnitValue(units[0])]);
      assert out + UnitsValue(units) == out + [UnitValue(units[0])] + UnitsValue(units[1..]);
    }
  }

  /** A fault after any well-formed units of a string is the error, and the position is right after it. */
  lemma StringFault(units: seq<Unit>, s: Text, error: Error, rest: Text, decimal: Decimal)
    requires UnitsOk(units) && IsFault(s, error, rest)
    ensures Parse([QUOTE] + UnitsText(units, s), decimal) == Fail(error, rest)
  {
    var source := [QUOTE] + UnitsText(units, s);
    assert Space(source) == source && source[1..] == UnitsText(units, s);
    UnitsPassed(units, s, []);
    FaultStops(s, error, rest, [] + UnitsValue(units));
  }

  // ---------------------------------------------------------------- around values

  /** Nothing but space where a value is due. */
  lemma NothingToRead(space: Text, decimal: Decimal)
    requires AllSpace(space)
    ensures Parse(space, decimal) == Fail(UnexpectedEnd, [])
  {
    SpaceSkipped(space, []);
    assert space + [] == space;
  }

  /** Anything behind the document and its space. */
  lemma DataBehind(lead: Text, d: Doc, space: Text, bad: Text, decimal: Decimal)
    requires AllSpace(lead) && DocOk(d, decimal) && AllSpace(space) && bad != [] && !IsSpace(bad[0])
    requires Ends(space + bad)
    ensures Parse(lead + DocText(d, space + bad), decimal) == Fail(TrailingData, bad)
  {
    DocReads(d, space + bad, decimal);
    ValueAfterSpace(lead, DocText(d, space + bad), decimal);
    SpaceSkipped(space, bad);
  }

  /** A word that starts as a literal and is none. */
  lemma NoLiteral(s: Text, decimal: Decimal)
    requires s != [] && s[0] in [TRUE[0], FALSE[0], NULL[0]] && !(TRUE <= s) && !(FALSE <= s) && !(NULL <= s)
    ensures Parse(s, decimal) == Fail(InvalidLiteral, s)
  {
    assert Space(s) == s;
  }

  /** A minus with no digit behind it. */
  lemma NoDigit(bad: Text, decimal: Decimal)
    requires bad == [] || !IsDigit(bad[0])
    ensures Parse([MINUS] + bad, decimal) == Fail(ExpectedDigit, bad)
  {
    var s := [MINUS] + bad;
    assert Space(s) == s && s[1..] == bad;
    assert !Starts(bad, ZERO) by {
      assert IsDigit(ZERO);
    }
  }

  /** A lexeme the decimal constructor refuses. */
  lemma NoNumber(u: Text, decimal: Decimal)
    requires IsLexeme(u) && decimal(u) == None
    ensures Parse(u, decimal) == Fail(InvalidNumber, [])
  {
    LexemeStart(u);
    NumberStart(u[0]);
    assert Space(u) == u;
    assert u[..|u|] == u;
  }

  /** Neither a comma nor a closing bracket behind the first item. */
  lemma NoSeparator(d: Doc, space: Text, bad: Text, decimal: Decimal)
    requires DocOk(d, decimal) && AllSpace(space) && Ends(space + bad)
    requires bad == [] || !(IsSpace(bad[0]) || bad[0] == COMMA || bad[0] == RBRACKET)
    ensures Parse([LBRACKET] + DocText(d, space + bad), decimal) == Fail(Expected(COMMA), bad)
  {
    var inside := DocText(d, space + bad);
    DocStart(d, space + bad, decimal);
    assert Space(inside) == inside;
    ArrayReads(inside, decimal);
    DocReads(d, space + bad, decimal);
    SpaceSkipped(space, bad);
    assert Space(bad) == bad;
    assert ItemsAt(inside, [], decimal) == Fail(Expected(COMMA), bad);
  }

  /** No key where one is due. */
  lemma NoKey(space: Text, bad: Text, decimal: Decimal)
    requires AllSpace(space) && (bad == [] || !(IsSpace(bad[0]) || bad[0] == QUOTE || bad[0] == RBRACE))
    ensures Parse([LBRACE] + (space + bad), decimal) == Fail(Expected(QUOTE), bad)
  {
    SpaceSkipped(space, bad);
    assert Space(bad) == bad;
    ObjectReads(space + bad, decimal);
    assert MembersAt(bad, map[], decimal) == Fail(Expected(QUOTE), bad);
  }

  /** No colon behind the first key. */
  lemma NoColon(key: seq<Unit>, space: Text, bad: Text, decimal: Decimal)
    requires UnitsOk(key) && AllSpace(space) && (bad == [] || !(IsSpace(bad[0]) || bad[0] == COLON))
    ensures Parse([LBRACE] + StringText(key, space + bad), decimal) == Fail(Expected(COLON), bad)
  {
    var inside := StringText(key, space + bad);
    StringReads(key, space + bad);
    ObjectReads(inside, decimal);
    SpaceSkipped(space, bad);
    assert Space(bad) == bad;
    assert MembersAt(inside, map[], decimal) == Fail(Expected(COLON), bad);
  }

  /** The same key again, its first value not null: noticed once the second value has been read. */
  lemma SameKey(key: seq<Unit>, again: seq<Unit>, d: Doc, e: Doc, tail: Text, decimal: Decimal)
    requires UnitsOk(key) && UnitsOk(again) && UnitsValue(key) == UnitsValue(again)
    requires DocOk(d, decimal) && DocValue(d, decimal) != Null && DocOk(e, decimal) && Ends(tail)
    ensures Parse([LBRACE] + StringText(key, [COLON] + DocText(d, [COMMA] + StringText(again, [COLON] + DocText(e, tail)))),
                  decimal) == Fail(DuplicateKey(UnitsValue(key)), tail)
  {
    var second := StringText(again, [COLON] + DocText(e, tail));
    var inside := StringText(key, [COLON] + DocText(d, [COMMA] + second));
    StringReads(key, [COLON] + DocText(d, [COMMA] + second));
    StringReads(again, [COLON] + DocText(e, tail));
    DocReads(d, [COMMA] + second, decimal);
    DocReads(e, tail, decimal);
    ObjectReads(inside, decimal);
    OneMember(inside, UnitsValue(key), DocText(d, [COMMA] + second), DocValue(d, decimal), second, map[], decimal);
    SecondClashes(second, UnitsValue(key), DocText(e, tail), tail, map[UnitsValue(key) := DocValue(d, decimal)], decimal);
  }

  lemma OneMember(s: Text, key: Text, text: Text, value: Value, more: Text, out: map<Text, Value>, decimal: Decimal)
    requires StringAt(Space(s)) == Ok(key, [COLON] + text) && ValueAt(text, decimal) == Ok(value, [COMMA] + more)
    requires !Clashes(out, key)
    ensures MembersAt(s, out, decimal) == MembersAt(more, out[key := value], decimal)
  {
    var colon, comma := [COLON] + text, [COMMA] + more;
    assert Space(colon) == colon && colon[1..] == text;
    assert Space(comma) == comma && comma[1..] == more;
  }

  lemma SecondClashes(s: Text, key: Text, text: Text, tail: Text, out: map<Text, Value>, decimal: Decimal)
    requires StringAt(Space(s)) == Ok(key, [COLON] + text) && ValueAt(text, decimal).Ok?
    requires ValueAt(text, decimal).rest == tail && Clashes(out, key)
    ensures MembersAt(s, out, decimal) == Fail(DuplicateKey(key), tail)
  {
    var colon := [COLON] + text;
    assert Space(colon) == colon && colon[1..] == text;
  }

  // ---------------------------------------------------------------- how the tokens are spelled

  function Ascii(s: string): (text: Text)
    requires forall i :: 0 <= i < |s| ==> s[i] < '\U{0080}'
  {
    seq(|s|, i requires 0 <= i < |s| => s[i] as int)
  }

  /** The literals and the structural characters are those of RFC 8259. */
  lemma TokensAreSpelled()
    ensures TRUE == Ascii("true") && FALSE == Ascii("false") && NULL == Ascii("null")
    ensures [LBRACE, RBRACE, LBRACKET, RBRACKET, COLON, COMMA, QUOTE, BACKSLASH] == Ascii("{}[]:,\"\\")
    ensures [MINUS, PLUS, DOT, ZERO, LOWER_E, UPPER_E, LOWER_U] == Ascii("-+.0eEu")
  {}

  /** Space is one of the four of RFC 8259, section 2. */
  lemma SpacesAre(c: CodeUnit)
    ensures IsSpace(c) <==> c in Ascii(" \t\n\r")
  {
    assert Ascii(" \t\n\r") == [0x20, 0x09, 0x0A, 0x0D];
  }

  /** The two-character escapes of RFC 8259, section 7, with the units they stand for. */
  lemma EscapesAre(letter: CodeUnit, c: CodeUnit)
    ensures Unescape(letter) == Some(c) <==>
            (letter, c) in [(0x22, 0x22), (0x5C, 0x5C), (0x2F, 0x2F), (0x62, 0x08), (0x66, 0x0C), (0x6E, 0x0A),
                            (0x72, 0x0D), (0x74, 0x09)]
  {}
}
