/** The recursive-descent parser over a mutable offset. */
module JsonParser {
  import opened JsonText
  import opened JsonGrammar

  /** A result, or the exception thrown with the offset in its message. */
  datatype Outcome<+T> = Done(value: T) | Threw(error: Error, at: nat)

  class Json {
    const source: Text
    const decimal: Decimal
    var offset: nat

    constructor (source: Text, decimal: Decimal)
      ensures this.source == source && this.decimal == decimal && offset == 0
    {
      this.source, this.decimal, offset := source, decimal, 0;
    }

    ghost predicate Valid()
      reads this
    {
      offset <= |source|
    }

    ghost function Rest(): Text
      requires Valid()
      reads this
    {
      source[offset..]
    }

    /** The outcome is the parse `p` of what remained, and what `p` leaves now remains. */
    ghost predicate Reports<T(!new)>(r: Outcome<T>, p: Parsed<T>)
      reads this
    {
      && Valid()
      && Rest() == p.rest
      && r == (if p.Ok? then Done(p.value) else Threw(p.error, offset))
    }

    static method Parse(source: Text, decimal: Decimal) returns (r: Outcome<Value>)
      ensures var p := JsonGrammar.Parse(source, decimal);
              r == if p.Ok? then Done(p.value) else Threw(p.error, |source| - |p.rest|)
    {
      var parser := new Json(source, decimal);
      r := parser.ParseValue();
      if r.Done? {
        parser.SkipSpace();
        if parser.offset != |source| {
          return Threw(TrailingData, parser.offset);
        }
      }
    }

    method ParseValue() returns (r: Outcome<Value>)
      requires Valid()
      modifies this`offset
      ensures Reports(r, ValueAt(old(Rest()), decimal))
      decreases |source| - offset, 1
    {
      SkipSpace();
      if offset >= |source| {
        return Threw(UnexpectedEnd, offset);
      }
      var first := source[offset];
      if first == LBRACE {
        r := ParseObject();
      } else if first == LBRACKET {
        r := ParseArray();
      } else if first == QUOTE {
        var text := ParseString();
        r := if text.Done? then Done(String(text.value)) else Threw(text.error, text.at);
      } else if first == TRUE[0] {
        r := ParseLiteral(TRUE, Bool(true));
      } else if first == FALSE[0] {
        r := ParseLiteral(FALSE, Bool(false));
      } else if first == NULL[0] {
        r := ParseLiteral(NULL, Null);
      } else {
        r := ParseNumber();
      }
    }

    method ParseObject() returns (r: Outcome<Value>)
      requires Valid() && Starts(Rest(), LBRACE)
      modifies this`offset
      ensures Reports(r, ObjectAt(old(Rest()), decimal))
      decreases |source| - offset, 0
    {
      ghost var start := offset;
      offset := offset + 1;
      var out: map<Text, Value> := map[];
      SkipSpace();
      var closed := TakeUnit(RBRACE);
      if closed {
        return Done(Object(out));
      }
      ghost var spec := MembersAt(Rest(), out, decimal);
      while true
        invariant Valid() && start < offset
        invariant MembersAt(Rest(), out, decimal) == spec
        decreases |source| - offset
      {
        SkipSpace();
        var key := ParseString();
        if key.Threw? {
          return Threw(key.error, key.at);
        }
        SkipSpace();
        var colon := TakeUnit(COLON);
        if !colon {
          return Threw(Expected(COLON), offset);
        }
        var value := ParseValue();
        if value.Threw? {
          return value;
        }
        if Clashes(out, key.value) {
          return Threw(DuplicateKey(key.value), offset);
        }
        out := out[key.value := value.value];
        SkipSpace();
        closed := TakeUnit(RBRACE);
        if closed {
          return Done(Object(out));
        }
        var comma := TakeUnit(COMMA);
        if !comma {
          return Threw(Expected(COMMA), offset);
        }
      }
    }

    method ParseArray() returns (r: Outcome<Value>)
      requires Valid() && Starts(Rest(), LBRACKET)
      modifies this`offset
      ensures Reports(r, ArrayAt(old(Rest()), decimal))
      decreases |source| - offset, 0
    {
      ghost var start := offset;
      offset := offset + 1;
      var out: seq<Value> := [];
      SkipSpace();
      var closed := TakeUnit(RBRACKET);
      if closed {
        return Done(Array(out));
      }
      ghost var spec := ItemsAt(Rest(), out, decimal);
      while true
        invariant Valid() && start < offset
        invariant ItemsAt(Rest(), out, decimal) == spec
        decreases |source| - offset
      {
        var item := ParseValue();
        if item.Threw? {
          return item;
        }
        out := out + [item.value];
        SkipSpace();
        closed := TakeUnit(RBRACKET);
        if closed {
          return Done(Array(out));
        }
        var comma := TakeUnit(COMMA);
        if !comma {
          return Threw(Expected(COMMA), offset);
        }
      }
    }

    method ParseString() returns (r: Outcome<Text>)
      requires Valid()
      modifies this`offset
      ensures Reports(r, StringAt(old(Rest())))
    {
      var quoted := TakeUnit(QUOTE);
      if !quoted {
        return Threw(Expected(QUOTE), offset);
      }
      var out: Text := [];
      ghost var spec := StringBody(Rest(), out);
      while offset < |source|
        invariant Valid()
        invariant StringBody(Rest(), out) == spec
      {
        ghost var text := Rest();
        var current := source[offset];
        offset := offset + 1;
        assert text[0] == current && text[1..] == Rest();
        if current == QUOTE {
          return Done(out);
        }
        if current == BACKSLASH {
          var escaped := ParseEscape();
          if escaped.Threw? {
            return Threw(escaped.error, escaped.at);
          }
          out := out + [escaped.value];
        } else {
          if current < 0x20 {
            return Threw(ControlCharacter, offset);
          }
          out := out + [current];
        }
      }
      r := Threw(UnterminatedString, offset);
    }

    method ParseEscape() returns (r: Outcome<CodeUnit>)
      requires Valid()
      modifies this`offset
      ensures Reports(r, EscapeAt(old(Rest())))
    {
      if offset >= |source| {
        return Threw(UnterminatedEscape, offset);
      }
      var escaped := source[offset];
      offset := offset + 1;
      if escaped == LOWER_U {
        r := ParseUnicode();
      } else {
        var unit := Unescape(escaped);
        r := if unit.Some? then Done(unit.value) else Threw(InvalidEscape, offset);
      }
    }

    method ParseUnicode() returns (r: Outcome<CodeUnit>)
      requires Valid()
      modifies this`offset
      ensures Reports(r, UnicodeAt(old(Rest())))
    {
      if offset + 4 > |source| {
        return Threw(ShortUnicode, offset);
      }
      var value := 0;
      ghost var spec := HexDigits(Rest(), 4, 0);
      for i := 0 to 4
        invariant Valid() && value >= 0
        invariant |Rest()| >= 4 - i
        invariant HexDigits(Rest(), 4 - i, value) == spec
      {
        var digit := HexValue(source[offset]);
        offset := offset + 1;
        if digit < 0 {
          return Threw(InvalidUnicode, offset);
        }
        value := value * 16 + digit;
      }
      r := Done(value % 0x1_0000);
    }

    method ParseLiteral(text: Text, value: Value) returns (r: Outcome<Value>)
      requires Valid()
      modifies this`offset
      ensures Reports(r, LiteralAt(old(Rest()), text, value))
    {
      if !(text <= source[offset..]) {
        return Threw(InvalidLiteral, offset);
      }
      offset := offset + |text|;
      r := Done(value);
    }

    method ParseNumber() returns (r: Outcome<Value>)
      requires Valid()
      modifies this`offset
      ensures Reports(r, NumberAt(old(Rest()), decimal))
    {
      var start := offset;
      var scanned := ScanLexeme();
      if scanned.Threw? {
        return Threw(scanned.error, scanned.at);
      }
      assert source[start..offset] == old(Rest())[..offset - start];
      var number := decimal(source[start..offset]);
      r := if number.Some? then Done(Number(number.value)) else Threw(InvalidNumber, offset);
    }

    method ScanLexeme() returns (r: Outcome<()>)
      requires Valid()
      modifies this`offset
      ensures Reports(r, Scan(old(Rest())))
      ensures old(offset) <= offset
    {
      r := ParseIntegerPart();
      if r.Threw? {
        return;
      }
      r := ParseFractionPart();
      if r.Threw? {
        return;
      }
      r := ParseExponentPart();
    }

    method ParseIntegerPart() returns (r: Outcome<()>)
      requires Valid()
      modifies this`offset
      ensures Reports(r, IntegerPart(old(Rest())))
      ensures old(offset) <= offset
    {
      var _ := TakeUnit(MINUS);
      var zero := TakeUnit(ZERO);
      r := Done(());
      if !zero {
        r := ParseDigits();
      }
    }

    method ParseFractionPart() returns (r: Outcome<()>)
      requires Valid()
      modifies this`offset
      ensures Reports(r, FractionPart(old(Rest())))
      ensures old(offset) <= offset
    {
      var dot := TakeUnit(DOT);
      r := Done(());
      if dot {
        r := ParseDigits();
      }
    }

    method ParseExponentPart() returns (r: Outcome<()>)
      requires Valid()
      modifies this`offset
      ensures Reports(r, ExponentPart(old(Rest())))
      ensures old(offset) <= offset
    {
      var exponent := TakeUnit(LOWER_E);
      if !exponent {
        exponent := TakeUnit(UPPER_E);
      }
      r := Done(());
      if exponent {
        var _ := TakeUnit(PLUS);
        var _ := TakeUnit(MINUS);
        r := ParseDigits();
      }
    }

    method ParseDigits() returns (r: Outcome<()>)
      requires Valid()
      modifies this`offset
      ensures Reports(r, Digits(old(Rest())))
      ensures old(offset) <= offset
    {
      var start := offset;
      while offset < |source| && IsDigit(source[offset])
        invariant Valid() && start <= offset
        invariant SkipDigits(Rest()) == SkipDigits(old(Rest()))
      {
        offset := offset + 1;
      }
      if start == offset {
        return Threw(ExpectedDigit, offset);
      }
      r := Done(());
    }

    method SkipSpace()
      requires Valid()
      modifies this`offset
      ensures Valid() && Rest() == Space(old(Rest())) && old(offset) <= offset
    {
      while offset < |source| && IsSpace(source[offset])
        invariant Valid() && old(offset) <= offset
        invariant Space(Rest()) == Space(old(Rest()))
      {
        offset := offset + 1;
      }
    }

    method TakeUnit(wanted: CodeUnit) returns (taken: bool)
      requires Valid()
      modifies this`offset
      ensures Valid() && taken == Starts(old(Rest()), wanted) && Rest() == Take(old(Rest()), wanted)
      ensures offset == old(offset) + if taken then 1 else 0
    {
      taken := offset < |source| && source[offset] == wanted;
      if taken {
        offset := offset + 1;
      }
    }
  }
}
