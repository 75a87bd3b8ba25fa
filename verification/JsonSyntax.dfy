/** A declarative grammar of JSON documents, and the parser accepting exactly it. */
module JsonSyntax {
  import opened JsonText
  import opened JsonGrammar
  import opened JsonRoundTrip

  // ---------------------------------------------------------------- documents

  /** `-`, integer digits, `.digits` or nothing, `e...` or nothing. */
  datatype Numeral = Numeral(minus: bool, integer: Text, fraction: Text, exponent: Text)

  /** One unit of a string as written. */
  datatype Unit = Plain(c: CodeUnit) | Short(letter: CodeUnit) | Hex(digits: Text)

  /** A document with all its space. */
  datatype Doc =
    | NullDoc
    | BoolDoc(b: bool)
    | NumeralDoc(numeral: Numeral)
    | StringDoc(units: seq<Unit>)
    | EmptyArray(space: Text)
    | ArrayDoc(items: Items)
    | EmptyObject(space: Text)
    | ObjectDoc(members: Members)

  datatype Items =
    | LastItem(before: Text, doc: Doc, after: Text)
    | Item(before: Text, doc: Doc, after: Text, others: Items)

  datatype Members =
    | LastMember(beforeKey: Text, key: seq<Unit>, afterKey: Text, before: Text, doc: Doc, after: Text)
    | Member(beforeKey: Text, key: seq<Unit>, afterKey: Text, before: Text, doc: Doc, after: Text, others: Members)

  predicate AllSpace(s: Text) {
    forall i :: 0 <= i < |s| ==> IsSpace(s[i])
  }

  predicate AllDigits(s: Text) {
    forall i :: 0 <= i < |s| ==> IsDigit(s[i])
  }

  predicate DigitRun(s: Text) {
    s != [] && AllDigits(s)
  }

  predicate IntegerOk(s: Text) {
    s == [ZERO] || (DigitRun(s) && s[0] != ZERO)
  }

  predicate FractionOk(s: Text) {
    s == [] || (s[0] == DOT && DigitRun(s[1..]))
  }

  /** Both signs are passed over, a plus and then a minus. */
  predicate ExponentOk(s: Text) {
    s == [] || ((s[0] == LOWER_E || s[0] == UPPER_E) && DigitRun(Take(Take(s[1..], PLUS), MINUS)))
  }

  predicate NumeralOk(n: Numeral) {
    IntegerOk(n.integer) && FractionOk(n.fraction) && ExponentOk(n.exponent)
  }

  predicate UnitOk(u: Unit) {
    match u
    case Plain(c) => c >= 0x20 && c != QUOTE && c != BACKSLASH
    case Short(letter) => Unescape(letter).Some?
    case Hex(digits) => |digits| == 4 && forall i :: 0 <= i < 4 ==> HexValue(digits[i]) >= 0
  }

  predicate UnitsOk(units: seq<Unit>) {
    forall i :: 0 <= i < |units| ==> UnitOk(units[i])
  }

  // The text of a document, followed by `tail`.

  function NumeralText(n: Numeral, tail: Text): Text {
    (if n.minus then [MINUS] else []) + (n.integer + (n.fraction + (n.exponent + tail)))
  }

  function UnitText(u: Unit, tail: Text): Text {
    match u
    case Plain(c) => [c] + tail
    case Short(letter) => [BACKSLASH] + ([letter] + tail)
    case Hex(digits) => [BACKSLASH] + ([LOWER_U] + (digits + tail))
  }

  function UnitsText(units: seq<Unit>, tail: Text): Text {
    if units == [] then tail else UnitText(units[0], UnitsText(units[1..], tail))
  }

  function StringText(units: seq<Unit>, tail: Text): Text {
    [QUOTE] + UnitsText(units, [QUOTE] + tail)
  }

  function DocText(d: Doc, tail: Text): Text
    decreases d
  {
    match d
    case NullDoc => NULL + tail
    case BoolDoc(b) => (if b then TRUE else FALSE) + tail
    case NumeralDoc(n) => NumeralText(n, tail)
    case StringDoc(units) => StringText(units, tail)
    case EmptyArray(space) => [LBRACKET] + (space + ([RBRACKET] + tail))
    case ArrayDoc(items) => [LBRACKET] + ItemsText(items, tail)
    case EmptyObject(space) => [LBRACE] + (space + ([RBRACE] + tail))
    case ObjectDoc(members) => [LBRACE] + MembersText(members, tail)
  }

  function ItemsText(items: Items, tail: Text): Text
    decreases items
  {
    var end := if items.Item? then [COMMA] + ItemsText(items.others, tail) else [RBRACKET] + tail;
    items.before + DocText(items.doc, items.after + end)
  }

  function MembersText(members: Members, tail: Text): Text
    decreases members
  {
    var end := if members.Member? then [COMMA] + MembersText(members.others, tail) else [RBRACE] + tail;
    members.beforeKey + StringText(members.key,
      members.afterKey + ([COLON] + (members.before + DocText(members.doc, members.after + end))))
  }

  // What a document means.

  function HexNumber(digits: Text): CodeUnit
    requires |digits| == 4 && forall i :: 0 <= i < 4 ==> HexValue(digits[i]) >= 0
  {
    HexValueBelowSixteen(digits[0]);
    HexValueBelowSixteen(digits[1]);
    HexValueBelowSixteen(digits[2]);
    HexValueBelowSixteen(digits[3]);
    ((HexValue(digits[0]) * 16 + HexValue(digits[1])) * 16 + HexValue(digits[2])) * 16 + HexValue(digits[3])
  }

  function UnitValue(u: Unit): CodeUnit
    requires UnitOk(u)
  {
    match u
    case Plain(c) => c
    case Short(letter) => Unescape(letter).value
    case Hex(digits) => HexNumber(digits)
  }

  function UnitsValue(units: seq<Unit>): Text
    requires UnitsOk(units)
  {
    if units == [] then [] else [UnitValue(units[0])] + UnitsValue(units[1..])
  }

  /** A numeral the constructor refuses means nothing; `DocOk` excludes it. */
  function DocValue(d: Doc, decimal: Decimal): Value
    requires DocOk(d, decimal)
    decreases d, 1
  {
    match d
    case NullDoc => Null
    case BoolDoc(b) => Bool(b)
    case NumeralDoc(n) => Number(decimal(NumeralText(n, [])).value)
    case StringDoc(units) => String(UnitsValue(units))
    case EmptyArray(_) => Array([])
    case ArrayDoc(items) => Array(ItemsValue(items, decimal))
    case EmptyObject(_) => Object(map[])
    case ObjectDoc(members) => Object(MembersValue(members, map[], decimal))
  }

  function ItemsValue(items: Items, decimal: Decimal): seq<Value>
    requires ItemsOk(items, decimal)
    decreases items, 1
  {
    [DocValue(items.doc, decimal)] + if items.Item? then ItemsValue(items.others, decimal) else []
  }

  function MembersValue(members: Members, out: map<Text, Value>, decimal: Decimal): map<Text, Value>
    requires MembersOk(members, out, decimal)
    decreases members, 1
  {
    var put := out[UnitsValue(members.key) := DocValue(members.doc, decimal)];
    if members.Member? then MembersValue(members.others, put, decimal) else put
  }

  predicate DocOk(d: Doc, decimal: Decimal)
    decreases d, 0
  {
    match d
    case NumeralDoc(n) => NumeralOk(n) && decimal(NumeralText(n, [])).Some?
    case StringDoc(units) => UnitsOk(units)
    case EmptyArray(space) => AllSpace(space)
    case ArrayDoc(items) => ItemsOk(items, decimal)
    case EmptyObject(space) => AllSpace(space)
    case ObjectDoc(members) => MembersOk(members, map[], decimal)
    case _ => true
  }

  predicate ItemsOk(items: Items, decimal: Decimal)
    decreases items, 0
  {
    && AllSpace(items.before) && DocOk(items.doc, decimal) && AllSpace(items.after)
    && (items.Item? ==> ItemsOk(items.others, decimal))
  }

  /** `out` is what the members before these have put; none of these may clash with it. */
  predicate MembersOk(members: Members, out: map<Text, Value>, decimal: Decimal)
    decreases members, 0
  {
    && AllSpace(members.beforeKey) && UnitsOk(members.key) && AllSpace(members.afterKey)
    && AllSpace(members.before) && DocOk(members.doc, decimal) && AllSpace(members.after)
    && !Clashes(out, UnitsValue(members.key))
    && (members.Member? ==>
          MembersOk(members.others, out[UnitsValue(members.key) := DocValue(members.doc, decimal)], decimal))
  }

  // ---------------------------------------------------------------- every document is read

  lemma {:induction false} SpaceSkipped(space: Text, tail: Text)
    requires AllSpace(space)
    ensures Space(space + tail) == Space(tail)
  {
    if space == [] {
      assert space + tail == tail;
    } else {
      assert (space + tail)[1..] == space[1..] + tail;
      SpaceSkipped(space[1..], tail);
    }
  }

  lemma {:induction false} RunSkipped(run: Text, tail: Text)
    requires AllDigits(run) && (tail == [] || !IsDigit(tail[0]))
    ensures SkipDigits(run + tail) == tail
  {
    if run == [] {
      assert run + tail == tail;
    } else {
      assert (run + tail)[1..] == run[1..] + tail;
      RunSkipped(run[1..], tail);
    }
  }

  lemma RunReads(run: Text, tail: Text)
    requires DigitRun(run) && (tail == [] || !IsDigit(tail[0]))
    ensures Digits(run + tail) == Ok((), tail)
  {
    RunSkipped(run, tail);
    assert |run + tail| > |tail|;
  }

  /** The marks of a numeral are no digits. */
  lemma MarksAreNoDigits()
    ensures !IsDigit(DOT) && !IsDigit(LOWER_E) && !IsDigit(UPPER_E) && !IsDigit(MINUS) && !IsDigit(PLUS) && IsDigit(ZERO)
  {}

  lemma IntegerReads(minus: bool, integer: Text, tail: Text)
    requires IntegerOk(integer) && (tail == [] || !IsDigit(tail[0]))
    ensures IntegerPart((if minus then [MINUS] else []) + (integer + tail)) == Ok((), tail)
  {
    MarksAreNoDigits();
    var unsigned := integer + tail;
    assert unsigned[0] == integer[0];
    assert Take((if minus then [MINUS] else []) + unsigned, MINUS) == unsigned by {
      if minus {
        assert ([MINUS] + unsigned)[1..] == unsigned;
      } else {
        assert [] + unsigned == unsigned;
      }
    }
    if integer == [ZERO] {
      assert unsigned[1..] == tail;
    } else {
      RunReads(integer, tail);
    }
  }

  lemma FractionReads(fraction: Text, tail: Text)
    requires FractionOk(fraction) && (tail == [] || (tail[0] != DOT && !IsDigit(tail[0])))
    ensures FractionPart(fraction + tail) == Ok((), tail)
  {
    if fraction == [] {
      assert fraction + tail == tail;
    } else {
      assert (fraction + tail)[1..] == fraction[1..] + tail;
      RunReads(fraction[1..], tail);
    }
  }

  lemma TakeBeforeTail(s: Text, tail: Text, c: CodeUnit)
    requires s != []
    ensures Take(s + tail, c) == Take(s, c) + tail
  {
    assert (s + tail)[1..] == s[1..] + tail;
  }

  lemma ExponentReads(exponent: Text, tail: Text)
    requires ExponentOk(exponent) && Ends(tail)
    ensures ExponentPart(exponent + tail) == Ok((), tail)
  {
    if tail != [] {
      EndsStopNumbers(tail);
    }
    if exponent == [] {
      assert exponent + tail == tail;
    } else {
      var signed := exponent[1..];
      assert (exponent + tail)[1..] == signed + tail;
      TakeBeforeTail(signed, tail, PLUS);
      TakeBeforeTail(Take(signed, PLUS), tail, MINUS);
      RunReads(Take(Take(signed, PLUS), MINUS), tail);
    }
  }

  /** Nothing that can follow a part of a numeral continues that part. */
  lemma ScanReads(n: Numeral, tail: Text)
    requires NumeralOk(n) && Ends(tail)
    ensures Scan(NumeralText(n, tail)) == Ok((), tail)
  {
    MarksAreNoDigits();
    if tail != [] {
      EndsStopNumbers(tail);
    }
    var afterFraction := n.exponent + tail;
    assert n.exponent != [] ==> afterFraction[0] == n.exponent[0];
    assert n.exponent == [] ==> afterFraction == tail;
    var afterInteger := n.fraction + afterFraction;
    assert n.fraction != [] ==> afterInteger[0] == n.fraction[0];
    assert n.fraction == [] ==> afterInteger == afterFraction;
    IntegerReads(n.minus, n.integer, afterInteger);
    FractionReads(n.fraction, afterFraction);
    ExponentReads(n.exponent, tail);
  }

  lemma NumeralBeforeTail(n: Numeral, tail: Text)
    ensures NumeralText(n, tail) == NumeralText(n, []) + tail
  {
    assert n.exponent + [] == n.exponent;
  }

  lemma NumeralStart(n: Numeral, tail: Text)
    requires NumeralOk(n)
    ensures NumeralText(n, tail) != []
    ensures NumeralText(n, tail)[0] == MINUS || IsDigit(NumeralText(n, tail)[0])
  {
    MarksAreNoDigits();
    if !n.minus {
      assert NumeralText(n, tail)[0] == n.integer[0];
    }
  }

  lemma NumeralReads(n: Numeral, tail: Text, decimal: Decimal)
    requires NumeralOk(n) && Ends(tail) && decimal(NumeralText(n, [])).Some?
    ensures ValueAt(NumeralText(n, tail), decimal) == Ok(Number(decimal(NumeralText(n, [])).value), tail)
  {
    var s := NumeralText(n, tail);
    NumeralStart(n, tail);
    ReadAsNumber(s, decimal);
    ScanReads(n, tail);
    NumeralBeforeTail(n, tail);
    assert s[..|s| - |tail|] == NumeralText(n, []);
  }

  lemma HexReads(digits: Text, tail: Text)
    requires |digits| == 4 && forall i :: 0 <= i < 4 ==> HexValue(digits[i]) >= 0
    ensures UnicodeAt(digits + tail) == Ok(HexNumber(digits), tail)
  {
    var s := digits + tail;
    var v0 := HexValue(digits[0]);
    var v1 := v0 * 16 + HexValue(digits[1]);
    var v2 := v1 * 16 + HexValue(digits[2]);
    assert s[1..][0] == digits[1] && s[1..][1..][0] == digits[2] && s[1..][1..][1..][0] == digits[3];
    assert s[1..][1..][1..][1..] == tail;
    assert HexDigits(s, 4, 0) == HexDigits(s[1..], 3, v0) == HexDigits(s[1..][1..], 2, v1);
    assert HexDigits(s[1..][1..], 2, v1) == HexDigits(s[1..][1..][1..], 1, v2);
    assert HexDigits(s[1..][1..][1..], 1, v2) == HexDigits(tail, 0, v2 * 16 + HexValue(digits[3]));
  }

  lemma UnitReads(u: Unit, tail: Text, out: Text)
    requires UnitOk(u)
    ensures StringBody(UnitText(u, tail), out) == StringBody(tail, out + [UnitValue(u)])
  {
    var s := UnitText(u, tail);
    match u {
      case Plain(c) =>
        assert s[1..] == tail;
      case Short(letter) =>
        assert s[1..] == [letter] + tail;
        assert s[1..][1..] == tail;
      case Hex(digits) =>
        assert s[1..] == [LOWER_U] + (digits + tail);
        assert s[1..][1..] == digits + tail;
        HexReads(digits, tail);
    }
  }

  lemma {:induction false} UnitsRead(units: seq<Unit>, tail: Text, out: Text)
    requires UnitsOk(units)
    ensures StringBody(UnitsText(units, [QUOTE] + tail), out) == Ok(out + UnitsValue(units), tail)
  {
    if units == [] {
      assert ([QUOTE] + tail)[1..] == tail;
      assert out + UnitsValue(units) == out;
    } else {
      UnitReads(units[0], UnitsText(units[1..], [QUOTE] + tail), out);
      UnitsRead(units[1..], tail, out + [UnitValue(units[0])]);
      assert out + [UnitValue(units[0])] + UnitsValue(units[1..]) == out + UnitsValue(units);
    }
  }

  lemma StringReads(units: seq<Unit>, tail: Text)
    requires UnitsOk(units)
    ensures StringAt(StringText(units, tail)) == Ok(UnitsValue(units), tail)
    ensures Space(StringText(units, tail)) == StringText(units, tail)
  {
    var s := StringText(units, tail);
    assert s[1..] == UnitsText(units, [QUOTE] + tail);
    UnitsRead(units, tail, []);
    assert [] + UnitsValue(units) == UnitsValue(units);
  }

  /** A document starts with no space, and after it and some space nothing continues it. */
  lemma SpaceThenEnds(space: Text, end: Text)
    requires AllSpace(space) && Ends(end)
    ensures Ends(space + end)
  {
    if space == [] {
      assert space + end == end;
    }
  }

  lemma ValueAfterSpace(space: Text, s: Text, decimal: Decimal)
    requires AllSpace(space)
    ensures ValueAt(space + s, decimal) == ValueAt(s, decimal)
  {
    SpaceSkipped(space, s);
  }

  lemma LiteralReads(d: Doc, tail: Text, decimal: Decimal)
    requires d.NullDoc? || d.BoolDoc?
    ensures ValueAt(DocText(d, tail), decimal) == Ok(DocValue(d, decimal), tail)
  {
    var s := DocText(d, tail);
    assert Space(s) == s;
    match d {
      case NullDoc => assert NULL <= s && s[|NULL|..] == tail;
      case BoolDoc(true) => assert TRUE <= s && s[|TRUE|..] == tail;
      case BoolDoc(false) => assert FALSE <= s && s[|FALSE|..] == tail;
    }
  }

  lemma EmptyReads(d: Doc, tail: Text, decimal: Decimal)
    requires (d.EmptyArray? || d.EmptyObject?) && DocOk(d, decimal)
    ensures ValueAt(DocText(d, tail), decimal) == Ok(DocValue(d, decimal), tail)
  {
    var s := DocText(d, tail);
    var end := [if d.EmptyArray? then RBRACKET else RBRACE] + tail;
    assert s[1..] == d.space + end;
    assert Space(s) == s;
    SpaceSkipped(d.space, end);
    assert Space(end) == end;
    assert end[1..] == tail;
  }

  /** Every well-formed document, before anything that may follow a value, is read as what it means. */
  lemma {:induction false} DocReads(d: Doc, tail: Text, decimal: Decimal)
    requires DocOk(d, decimal) && Ends(tail)
    ensures ValueAt(DocText(d, tail), decimal) == Ok(DocValue(d, decimal), tail)
    decreases d
  {
    var s := DocText(d, tail);
    match d {
      case NullDoc => LiteralReads(d, tail, decimal);
      case BoolDoc(_) => LiteralReads(d, tail, decimal);
      case NumeralDoc(n) => NumeralReads(n, tail, decimal);
      case StringDoc(units) => StringReads(units, tail);
      case EmptyArray(_) => EmptyReads(d, tail, decimal);
      case EmptyObject(_) => EmptyReads(d, tail, decimal);
      case ArrayDoc(items) =>
        ItemsRead(items, tail, [], decimal);
        ItemsStart(items, tail, decimal);
        ItemsAfterSpace(ItemsText(items, tail), [], decimal);
        ArrayReads(ItemsText(items, tail), decimal);
        assert [] + ItemsValue(items, decimal) == ItemsValue(items, decimal);
      case ObjectDoc(members) =>
        MembersRead(members, tail, map[], decimal);
        MembersStart(members, tail, map[], decimal);
        MembersAfterSpace(MembersText(members, tail), map[], decimal);
        ObjectReads(MembersText(members, tail), decimal);
    }
  }

  lemma ArrayReads(inside: Text, decimal: Decimal)
    requires !Starts(Space(inside), RBRACKET)
    ensures ValueAt([LBRACKET] + inside, decimal) == ItemsAt(Space(inside), [], decimal)
  {
    var s := [LBRACKET] + inside;
    assert Space(s) == s && s[1..] == inside;
  }

  lemma ObjectReads(inside: Text, decimal: Decimal)
    requires !Starts(Space(inside), RBRACE)
    ensures ValueAt([LBRACE] + inside, decimal) == MembersAt(Space(inside), map[], decimal)
  {
    var s := [LBRACE] + inside;
    assert Space(s) == s && s[1..] == inside;
  }

  lemma DocStart(d: Doc, tail: Text, decimal: Decimal)
    requires DocOk(d, decimal)
    ensures var s := DocText(d, tail);
            s != [] && !IsSpace(s[0]) && s[0] != RBRACKET
  {
    if d.NumeralDoc? {
      NumeralStart(d.numeral, tail);
      NumberStart(DocText(d, tail)[0]);
      assert !IsDigit(RBRACKET);
    }
  }

  lemma SpaceTwice(s: Text)
    ensures Space(Space(s)) == Space(s)
    ensures Space(s) != [] ==> !IsSpace(Space(s)[0])
  {}

  lemma ItemsAfterSpace(s: Text, out: seq<Value>, decimal: Decimal)
    ensures ItemsAt(Space(s), out, decimal) == ItemsAt(s, out, decimal)
  {
    SpaceTwice(s);
  }

  lemma MembersAfterSpace(s: Text, out: map<Text, Value>, decimal: Decimal)
    ensures MembersAt(Space(s), out, decimal) == MembersAt(s, out, decimal)
  {
    SpaceTwice(s);
  }

  lemma ItemsStart(items: Items, tail: Text, decimal: Decimal)
    requires ItemsOk(items, decimal)
    ensures !Starts(Space(ItemsText(items, tail)), RBRACKET)
  {
    var end := if items.Item? then [COMMA] + ItemsText(items.others, tail) else [RBRACKET] + tail;
    DocStart(items.doc, items.after + end, decimal);
    SpaceSkipped(items.before, DocText(items.doc, items.after + end));
  }

  lemma MembersStart(members: Members, tail: Text, out: map<Text, Value>, decimal: Decimal)
    requires MembersOk(members, out, decimal)
    ensures !Starts(Space(MembersText(members, tail)), RBRACE)
  {
    var end := if members.Member? then [COMMA] + MembersText(members.others, tail) else [RBRACE] + tail;
    var colon := [COLON] + (members.before + DocText(members.doc, members.after + end));
    SpaceSkipped(members.beforeKey, StringText(members.key, members.afterKey + colon));
  }

  /** One item and what ends it. */
  lemma ItemReads(before: Text, doc: Doc, after: Text, end: Text, decimal: Decimal)
    requires AllSpace(before) && DocOk(doc, decimal) && AllSpace(after)
    requires Starts(end, COMMA) || Starts(end, RBRACKET) || Starts(end, RBRACE)
    requires ValueAt(DocText(doc, after + end), decimal) == Ok(DocValue(doc, decimal), after + end)
    ensures ValueAt(before + DocText(doc, after + end), decimal) == Ok(DocValue(doc, decimal), after + end)
    ensures Space(after + end) == end
  {
    ValueAfterSpace(before, DocText(doc, after + end), decimal);
    SpaceSkipped(after, end);
  }

  lemma {:induction false} ItemsRead(items: Items, tail: Text, out: seq<Value>, decimal: Decimal)
    requires ItemsOk(items, decimal) && Ends(tail)
    ensures ItemsAt(ItemsText(items, tail), out, decimal) == Ok(Array(out + ItemsValue(items, decimal)), tail)
    decreases items
  {
    var value := DocValue(items.doc, decimal);
    var end := if items.Item? then [COMMA] + ItemsText(items.others, tail) else [RBRACKET] + tail;
    SpaceThenEnds(items.after, end);
    DocReads(items.doc, items.after + end, decimal);
    ItemReads(items.before, items.doc, items.after, end, decimal);
    if items.Item? {
      ItemsRead(items.others, tail, out + [value], decimal);
      assert end[1..] == ItemsText(items.others, tail);
      assert out + [value] + ItemsValue(items.others, decimal) == out + ItemsValue(items, decimal);
    } else {
      assert end[1..] == tail;
      assert ItemsValue(items, decimal) == [value];
    }
  }

  /** One key, its colon, and what follows. */
  lemma KeyReads(members: Members, after: Text)
    requires AllSpace(members.beforeKey) && UnitsOk(members.key) && AllSpace(members.afterKey)
    ensures var s := members.beforeKey + StringText(members.key, members.afterKey + ([COLON] + after));
            && StringAt(Space(s)) == Ok(UnitsValue(members.key), members.afterKey + ([COLON] + after))
            && Space(members.afterKey + ([COLON] + after)) == [COLON] + after
  {
    var colon := [COLON] + after;
    SpaceSkipped(members.beforeKey, StringText(members.key, members.afterKey + colon));
    StringReads(members.key, members.afterKey + colon);
    SpaceSkipped(members.afterKey, colon);
  }

  lemma {:induction false} MembersRead(members: Members, tail: Text, out: map<Text, Value>, decimal: Decimal)
    requires MembersOk(members, out, decimal) && Ends(tail)
    ensures MembersAt(MembersText(members, tail), out, decimal) == Ok(Object(MembersValue(members, out, decimal)), tail)
    decreases members
  {
    var key, value := UnitsValue(members.key), DocValue(members.doc, decimal);
    var end := if members.Member? then [COMMA] + MembersText(members.others, tail) else [RBRACE] + tail;
    var after := members.before + DocText(members.doc, members.after + end);
    KeyReads(members, after);
    SpaceThenEnds(members.after, end);
    DocReads(members.doc, members.after + end, decimal);
    ItemReads(members.before, members.doc, members.after, end, decimal);
    assert ([COLON] + after)[1..] == after;
    MemberStep(MembersText(members, tail), key, members.afterKey + ([COLON] + after), after, value,
               members.after + end, end, out, decimal);
    if members.Member? {
      MembersRead(members.others, tail, out[key := value], decimal);
      assert end[1..] == MembersText(members.others, tail);
    } else {
      assert end[1..] == tail;
    }
  }

  /** The loop body of the parser, its calls given. */
  lemma MemberStep(s: Text, key: Text, afterKey: Text, after: Text, value: Value, afterValue: Text, end: Text,
                   out: map<Text, Value>, decimal: Decimal)
    requires StringAt(Space(s)) == Ok(key, afterKey) && Space(afterKey) == [COLON] + after
    requires ValueAt(after, decimal) == Ok(value, afterValue) && Space(afterValue) == end && !Clashes(out, key)
    requires Starts(end, COMMA) || Starts(end, RBRACE)
    ensures MembersAt(s, out, decimal) ==
            if Starts(end, RBRACE) then Ok(Object(out[key := value]), end[1..])
            else MembersAt(end[1..], out[key := value], decimal)
  {
    assert ([COLON] + after)[1..] == after;
  }

  // ---------------------------------------------------------------- nothing else is read

  lemma FirstApart(s: Text)
    requires s != []
    ensures s == [s[0]] + s[1..]
  {}

  function Lead(s: Text, rest: Text): Text
    requires |rest| <= |s|
  {
    s[..|s| - |rest|]
  }

  lemma LeadIs(lead: Text, rest: Text)
    ensures Lead(lead + rest, rest) == lead
  {}

  lemma LeadStep(s: Text, rest: Text)
    requires |rest| < |s| && s[1..] == Lead(s[1..], rest) + rest
    ensures Lead(s, rest) == [s[0]] + Lead(s[1..], rest) && s == Lead(s, rest) + rest
  {
    var tail := Lead(s[1..], rest);
    assert s == ([s[0]] + tail) + rest;
    LeadIs([s[0]] + tail, rest);
  }

  lemma {:induction false} SpaceIsLead(s: Text)
    ensures AllSpace(Lead(s, Space(s))) && s == Lead(s, Space(s)) + Space(s)
  {
    if s != [] && IsSpace(s[0]) {
      SpaceIsLead(s[1..]);
      LeadStep(s, Space(s));
    }
  }

  lemma {:induction false} RunIsLead(s: Text)
    ensures AllDigits(Lead(s, SkipDigits(s))) && s == Lead(s, SkipDigits(s)) + SkipDigits(s)
  {
    if s != [] && IsDigit(s[0]) {
      RunIsLead(s[1..]);
      LeadStep(s, SkipDigits(s));
    }
  }

  lemma DigitsAre(s: Text)
    requires Digits(s).Ok?
    ensures var run := Lead(s, Digits(s).rest);
            DigitRun(run) && run[0] == s[0] && s == run + Digits(s).rest
  {
    RunIsLead(s);
    SkipNeverGrows(s);
  }

  lemma {:induction false} SkipNeverGrows(s: Text)
    ensures SkipDigits(s) != s ==> |SkipDigits(s)| < |s|
  {
    if s != [] && IsDigit(s[0]) {
      SkipNeverGrows(s[1..]);
    }
  }

  lemma IntegerIs(s: Text) returns (minus: bool, integer: Text)
    requires IntegerPart(s).Ok?
    ensures IntegerOk(integer) && s == (if minus then [MINUS] else []) + (integer + IntegerPart(s).rest)
  {
    minus := Starts(s, MINUS);
    var unsigned, rest := Take(s, MINUS), IntegerPart(s).rest;
    assert s == (if minus then [MINUS] else []) + unsigned;
    if Starts(unsigned, ZERO) {
      integer := [ZERO];
      assert unsigned == [ZERO] + rest;
    } else {
      integer := Lead(unsigned, rest);
      DigitsAre(unsigned);
    }
  }

  lemma FractionIs(s: Text) returns (fraction: Text)
    requires FractionPart(s).Ok?
    ensures FractionOk(fraction) && s == fraction + FractionPart(s).rest
  {
    var rest := FractionPart(s).rest;
    if Starts(s, DOT) {
      DigitsAre(s[1..]);
      fraction := [DOT] + Lead(s[1..], rest);
      assert fraction[1..] == Lead(s[1..], rest);
      assert s == [DOT] + s[1..];
    } else {
      fraction := [];
      assert s == fraction + rest;
    }
  }

  lemma SignIs(signed: Text, sign: CodeUnit, unsigned: Text, rest: Text) returns (written: Text)
    requires unsigned != [] && Take(signed, sign) == unsigned + rest
    ensures written != [] && signed == written + rest && Take(written, sign) == unsigned
  {
    if Starts(signed, sign) {
      written := [sign] + unsigned;
      assert signed == [sign] + signed[1..];
      assert written[1..] == unsigned;
    } else {
      written := unsigned;
      assert signed[0] == written[0];
    }
  }

  lemma SignsAre(signed: Text, run: Text, rest: Text) returns (written: Text)
    requires DigitRun(run) && Take(Take(signed, PLUS), MINUS) == run + rest
    ensures signed == written + rest && Take(Take(written, PLUS), MINUS) == run
  {
    var negative := SignIs(Take(signed, PLUS), MINUS, run, rest);
    written := SignIs(signed, PLUS, negative, rest);
  }

  /** The digits of an exponent, its signs, and its letter. */
  lemma ExponentIs(s: Text) returns (exponent: Text)
    requires ExponentPart(s).Ok?
    ensures ExponentOk(exponent) && s == exponent + ExponentPart(s).rest
  {
    var rest := ExponentPart(s).rest;
    if Starts(s, LOWER_E) || Starts(s, UPPER_E) {
      var written := SignedIs(s[1..]);
      exponent := [s[0]] + written;
      assert exponent[1..] == written;
      assert s == [s[0]] + s[1..];
    } else {
      exponent := [];
      assert s == exponent + rest;
    }
  }

  lemma SignedIs(signed: Text) returns (written: Text)
    requires Digits(Take(Take(signed, PLUS), MINUS)).Ok?
    ensures signed == written + Digits(Take(Take(signed, PLUS), MINUS)).rest
    ensures DigitRun(Take(Take(written, PLUS), MINUS))
  {
    var digits := Take(Take(signed, PLUS), MINUS);
    DigitsAre(digits);
    written := SignsAre(signed, Lead(digits, Digits(digits).rest), Digits(digits).rest);
  }

  /** Whatever is scanned is a numeral. */
  lemma NumeralIs(s: Text) returns (n: Numeral)
    requires Scan(s).Ok?
    ensures NumeralOk(n) && s == NumeralText(n, Scan(s).rest)
  {
    var minus, integer := IntegerIs(s);
    var afterInteger := IntegerPart(s).rest;
    var fraction := FractionIs(afterInteger);
    var afterFraction := FractionPart(afterInteger).rest;
    var exponent := ExponentIs(afterFraction);
    n := Numeral(minus, integer, fraction, exponent);
  }

  lemma NumberIs(s: Text, decimal: Decimal) returns (n: Numeral)
    requires NumberAt(s, decimal).Ok?
    ensures DocOk(NumeralDoc(n), decimal) && s == NumeralText(n, NumberAt(s, decimal).rest)
    ensures NumberAt(s, decimal).value == DocValue(NumeralDoc(n), decimal)
  {
    var rest := Scan(s).rest;
    n := NumeralIs(s);
    NumeralBeforeTail(n, rest);
    assert s[..|s| - |rest|] == NumeralText(n, []);
  }

  lemma HexIs(s: Text)
    requires UnicodeAt(s).Ok?
    ensures |s| >= 4 && s == s[..4] + s[4..]
    ensures forall i :: 0 <= i < 4 ==> HexValue(s[..4][i]) >= 0
    ensures UnicodeAt(s) == Ok(HexNumber(s[..4]), s[4..])
  {
    var v0 := HexValue(s[0]);
    assert HexDigits(s, 4, 0) == HexDigits(s[1..], 3, v0);
    assert s[1..][0] == s[1];
    var v1 := v0 * 16 + HexValue(s[1]);
    assert HexDigits(s[1..], 3, v0) == HexDigits(s[1..][1..], 2, v1);
    assert s[1..][1..][0] == s[2];
    var v2 := v1 * 16 + HexValue(s[2]);
    assert HexDigits(s[1..][1..], 2, v1) == HexDigits(s[1..][1..][1..], 1, v2);
    assert s[1..][1..][1..][0] == s[3];
    HexReads(s[..4], s[4..]);
  }

  /** One unit was read off the front. */
  lemma UnitIs(s: Text, out: Text) returns (u: Unit, tail: Text)
    requires StringBody(s, out).Ok? && s[0] != QUOTE
    ensures UnitOk(u) && s == UnitText(u, tail)
    ensures StringBody(s, out) == StringBody(tail, out + [UnitValue(u)]) && |tail| < |s|
  {
    if s[0] != BACKSLASH {
      u, tail := Plain(s[0]), s[1..];
    } else if s[1..][0] == LOWER_U {
      HexIs(s[1..][1..]);
      u, tail := Hex(s[1..][1..][..4]), s[1..][1..][4..];
      assert s[1..] == [LOWER_U] + s[1..][1..];
      assert s == [BACKSLASH] + s[1..];
    } else {
      u, tail := Short(s[1..][0]), s[1..][1..];
      assert s[1..] == [s[1..][0]] + tail;
      assert s == [BACKSLASH] + s[1..];
    }
  }

  lemma OneMoreUnit(u: Unit, others: seq<Unit>, out: Text, tail: Text)
    requires UnitOk(u) && UnitsOk(others)
    ensures UnitsOk([u] + others) && UnitsText([u] + others, tail) == UnitText(u, UnitsText(others, tail))
    ensures out + UnitsValue([u] + others) == out + [UnitValue(u)] + UnitsValue(others)
  {
    assert ([u] + others)[1..] == others;
  }

  lemma {:induction false} UnitsAre(s: Text, out: Text) returns (units: seq<Unit>)
    requires StringBody(s, out).Ok?
    ensures UnitsOk(units) && s == UnitsText(units, [QUOTE] + StringBody(s, out).rest)
    ensures StringBody(s, out).value == out + UnitsValue(units)
    decreases |s|
  {
    if s[0] == QUOTE {
      units := [];
      assert s == [QUOTE] + s[1..];
      assert out + UnitsValue(units) == out;
    } else {
      var u, tail := UnitIs(s, out);
      var others := UnitsAre(tail, out + [UnitValue(u)]);
      units := [u] + others;
      OneMoreUnit(u, others, out, [QUOTE] + StringBody(s, out).rest);
    }
  }

  lemma StringIs(s: Text) returns (units: seq<Unit>)
    requires StringAt(s).Ok?
    ensures UnitsOk(units) && s == StringText(units, StringAt(s).rest) && StringAt(s).value == UnitsValue(units)
  {
    units := UnitsAre(s[1..], []);
    assert s == [QUOTE] + s[1..];
    assert [] + UnitsValue(units) == UnitsValue(units);
  }

  /** The document is what was read off `s`, which starts with no space. */
  predicate ReadAs(s: Text, p: Parsed<Value>, d: Doc, decimal: Decimal) {
    p.Ok? && DocOk(d, decimal) && s == DocText(d, p.rest) && p.value == DocValue(d, decimal)
  }

  lemma LiteralIs(s: Text, decimal: Decimal) returns (d: Doc)
    requires s != [] && s[0] in {TRUE[0], FALSE[0], NULL[0]} && ValueAt(s, decimal).Ok?
    ensures ReadAs(s, ValueAt(s, decimal), d, decimal)
  {
    assert Space(s) == s;
    var rest := ValueAt(s, decimal).rest;
    if s[0] == TRUE[0] {
      d := BoolDoc(true);
      assert s == TRUE + rest;
    } else if s[0] == FALSE[0] {
      d := BoolDoc(false);
      assert s == FALSE + rest;
    } else {
      d := NullDoc;
      assert s == NULL + rest;
    }
  }

  /** Whatever is read is a well-formed document after some space, and it means what was returned. */
  lemma {:induction false} DocIs(text: Text, decimal: Decimal) returns (d: Doc)
    requires ValueAt(text, decimal).Ok?
    ensures ReadAs(Space(text), ValueAt(text, decimal), d, decimal)
    decreases |text|, 1
  {
    var s, p := Space(text), ValueAt(text, decimal);
    SpaceTwice(text);
    assert ValueAt(s, decimal) == p;
    if s[0] == LBRACE {
      d := ObjectIs(s, decimal);
    } else if s[0] == LBRACKET {
      d := ArrayIs(s, decimal);
    } else if s[0] == QUOTE {
      var units := StringIs(s);
      d := StringDoc(units);
    } else if s[0] in {TRUE[0], FALSE[0], NULL[0]} {
      d := LiteralIs(s, decimal);
    } else {
      var n := NumberIs(s, decimal);
      d := NumeralDoc(n);
    }
  }

  lemma EmptyIs(s: Text, space: Text, inside: Text, decimal: Decimal)
    requires s == [LBRACKET] + (space + inside) || s == [LBRACE] + (space + inside)
    requires AllSpace(space) && inside != []
    requires inside[0] == if s[0] == LBRACKET then RBRACKET else RBRACE
    ensures var d := if s[0] == LBRACKET then EmptyArray(space) else EmptyObject(space);
            DocOk(d, decimal) && s == DocText(d, inside[1..])
  {
    assert inside == [inside[0]] + inside[1..];
  }

  lemma {:induction false} ArrayIs(s: Text, decimal: Decimal) returns (d: Doc)
    requires Starts(s, LBRACKET) && ArrayAt(s, decimal).Ok?
    ensures ReadAs(s, ArrayAt(s, decimal), d, decimal)
    decreases |s|, 0
  {
    var inside := Space(s[1..]);
    assert s == [LBRACKET] + s[1..];
    if Starts(inside, RBRACKET) {
      SpaceIsLead(s[1..]);
      d := EmptyArray(Lead(s[1..], inside));
      EmptyIs(s, Lead(s[1..], inside), inside, decimal);
    } else {
      ItemsAfterSpace(s[1..], [], decimal);
      var items := ItemsAre(s[1..], [], decimal);
      d := ArrayDoc(items);
      assert [] + ItemsValue(items, decimal) == ItemsValue(items, decimal);
    }
  }

  /** The space before and after a value that was read. */
  lemma ValueSplits(s: Text, d: Doc, decimal: Decimal) returns (before: Text, after: Text)
    requires ReadAs(Space(s), ValueAt(s, decimal), d, decimal)
    ensures AllSpace(before) && AllSpace(after)
    ensures s == before + DocText(d, after + Space(ValueAt(s, decimal).rest))
  {
    var rest := ValueAt(s, decimal).rest;
    SpaceIsLead(s);
    SpaceIsLead(rest);
    before, after := Lead(s, Space(s)), Lead(rest, Space(rest));
  }

  lemma LastItemIs(s: Text, before: Text, d: Doc, after: Text, next: Text, decimal: Decimal)
    requires AllSpace(before) && DocOk(d, decimal) && AllSpace(after)
    requires s == before + DocText(d, after + next) && Starts(next, RBRACKET)
    ensures var items := LastItem(before, d, after);
            && ItemsOk(items, decimal) && s == ItemsText(items, next[1..])
            && ItemsValue(items, decimal) == [DocValue(d, decimal)]
  {
    assert next == [RBRACKET] + next[1..];
  }

  lemma ItemIs(s: Text, before: Text, d: Doc, after: Text, next: Text, others: Items, rest: Text, decimal: Decimal)
    requires AllSpace(before) && DocOk(d, decimal) && AllSpace(after) && ItemsOk(others, decimal)
    requires s == before + DocText(d, after + next) && Starts(next, COMMA) && next[1..] == ItemsText(others, rest)
    ensures var items := Item(before, d, after, others);
            && ItemsOk(items, decimal) && s == ItemsText(items, rest)
            && ItemsValue(items, decimal) == [DocValue(d, decimal)] + ItemsValue(others, decimal)
  {
    assert next == [COMMA] + next[1..];
  }

  /** How the item loop goes on. */
  lemma ItemsUnfold(s: Text, out: seq<Value>, decimal: Decimal)
    requires ItemsAt(s, out, decimal).Ok?
    ensures ValueAt(s, decimal).Ok?
    ensures var item := ValueAt(s, decimal);
            var next := Space(item.rest);
            && (Starts(next, RBRACKET) || Starts(next, COMMA)) && |next| < |s|
            && ItemsAt(s, out, decimal) ==
               if Starts(next, RBRACKET) then Ok(Array(out + [item.value]), next[1..])
               else ItemsAt(next[1..], out + [item.value], decimal)
  {}

  lemma {:induction false} ItemsAre(s: Text, out: seq<Value>, decimal: Decimal) returns (items: Items)
    requires ItemsAt(s, out, decimal).Ok?
    ensures ItemsOk(items, decimal) && s == ItemsText(items, ItemsAt(s, out, decimal).rest)
    ensures ItemsAt(s, out, decimal).value == Array(out + ItemsValue(items, decimal))
    decreases |s|, 2
  {
    ItemsUnfold(s, out, decimal);
    var item := ValueAt(s, decimal);
    var next := Space(item.rest);
    var d := DocIs(s, decimal);
    var before, after := ValueSplits(s, d, decimal);
    if Starts(next, RBRACKET) {
      items := LastItem(before, d, after);
      LastItemIs(s, before, d, after, next, decimal);
    } else {
      var others := ItemsAre(next[1..], out + [item.value], decimal);
      items := Item(before, d, after, others);
      ItemIs(s, before, d, after, next, others, ItemsAt(s, out, decimal).rest, decimal);
      Associate(out, item.value, ItemsValue(others, decimal));
    }
  }

  lemma Associate(a: seq<Value>, b: Value, c: seq<Value>)
    ensures a + [b] + c == a + ([b] + c)
  {}

  lemma {:induction false} ObjectIs(s: Text, decimal: Decimal) returns (d: Doc)
    requires Starts(s, LBRACE) && ObjectAt(s, decimal).Ok?
    ensures ReadAs(s, ObjectAt(s, decimal), d, decimal)
    decreases |s|, 0
  {
    var inside := Space(s[1..]);
    assert s == [LBRACE] + s[1..];
    if Starts(inside, RBRACE) {
      SpaceIsLead(s[1..]);
      d := EmptyObject(Lead(s[1..], inside));
      EmptyIs(s, Lead(s[1..], inside), inside, decimal);
    } else {
      MembersAfterSpace(s[1..], map[], decimal);
      var members := MembersAre(s[1..], map[], decimal);
      d := ObjectDoc(members);
    }
  }

  /** The space around a key that was read, and the colon after it. */
  lemma KeySplits(s: Text) returns (beforeKey: Text, key: seq<Unit>, afterKey: Text)
    requires StringAt(Space(s)).Ok? && Starts(Space(StringAt(Space(s)).rest), COLON)
    ensures AllSpace(beforeKey) && UnitsOk(key) && AllSpace(afterKey) && StringAt(Space(s)).value == UnitsValue(key)
    ensures s == beforeKey + StringText(key, afterKey + ([COLON] + Space(StringAt(Space(s)).rest)[1..]))
  {
    var rest := StringAt(Space(s)).rest;
    var colon := Space(rest);
    SpaceIsLead(s);
    SpaceIsLead(rest);
    key := StringIs(Space(s));
    beforeKey, afterKey := Lead(s, Space(s)), Lead(rest, colon);
    FirstApart(colon);
  }

  /** How the member loop goes on. */
  lemma MembersUnfold(s: Text, out: map<Text, Value>, decimal: Decimal)
    requires MembersAt(s, out, decimal).Ok?
    ensures StringAt(Space(s)).Ok? && Starts(Space(StringAt(Space(s)).rest), COLON)
    ensures var key := StringAt(Space(s));
            var after := Space(key.rest)[1..];
            var value := ValueAt(after, decimal);
            && |after| < |s| && value.Ok? && !Clashes(out, key.value)
            && var next := Space(value.rest);
            && (Starts(next, RBRACE) || Starts(next, COMMA)) && |next| < |s|
            && MembersAt(s, out, decimal) ==
               if Starts(next, RBRACE) then Ok(Object(out[key.value := value.value]), next[1..])
               else MembersAt(next[1..], out[key.value := value.value], decimal)
  {}

  lemma LastMemberIs(s: Text, m: Members, after: Text, next: Text, out: map<Text, Value>, decimal: Decimal)
    requires m.LastMember? && MembersOk(m, out, decimal) && Starts(next, RBRACE)
    requires s == m.beforeKey + StringText(m.key, m.afterKey + ([COLON] + after))
    requires after == m.before + DocText(m.doc, m.after + next)
    ensures s == MembersText(m, next[1..])
  {
    assert next == [RBRACE] + next[1..];
  }

  lemma MemberIs(s: Text, m: Members, after: Text, next: Text, rest: Text)
    requires m.Member? && Starts(next, COMMA) && next[1..] == MembersText(m.others, rest)
    requires s == m.beforeKey + StringText(m.key, m.afterKey + ([COLON] + after))
    requires after == m.before + DocText(m.doc, m.after + next)
    ensures s == MembersText(m, rest)
  {
    assert next == [COMMA] + next[1..];
  }

  lemma {:induction false} MembersAre(s: Text, out: map<Text, Value>, decimal: Decimal) returns (members: Members)
    requires MembersAt(s, out, decimal).Ok?
    ensures MembersOk(members, out, decimal) && s == MembersText(members, MembersAt(s, out, decimal).rest)
    ensures MembersAt(s, out, decimal).value == Object(MembersValue(members, out, decimal))
    decreases |s|, 2
  {
    MembersUnfold(s, out, decimal);
    var beforeKey, units, afterKey := KeySplits(s);
    var key := StringAt(Space(s));
    var text := Space(key.rest)[1..];
    var value := ValueAt(text, decimal);
    var next := Space(value.rest);
    var d := DocIs(text, decimal);
    var before, after := ValueSplits(text, d, decimal);
    if Starts(next, RBRACE) {
      members := LastMember(beforeKey, units, afterKey, before, d, after);
      LastMemberIs(s, members, text, next, out, decimal);
    } else {
      var others := MembersAre(next[1..], out[key.value := value.value], decimal);
      members := Member(beforeKey, units, afterKey, before, d, after, others);
      MemberIs(s, members, text, next, MembersAt(s, out, decimal).rest);
    }
  }

  // ---------------------------------------------------------------- the language accepted

  /** The source is a well-formed document, with space around it, that means v. */
  ghost predicate Denotes(source: Text, v: Value, decimal: Decimal) {
    exists d, lead, trail :: DocumentOf(source, lead, d, trail, decimal) && v == DocValue(d, decimal)
  }

  predicate DocumentOf(source: Text, lead: Text, d: Doc, trail: Text, decimal: Decimal) {
    AllSpace(lead) && DocOk(d, decimal) && AllSpace(trail) && source == lead + DocText(d, trail)
  }

  lemma DocumentReads(source: Text, lead: Text, d: Doc, trail: Text, decimal: Decimal)
    requires DocumentOf(source, lead, d, trail, decimal)
    ensures Parse(source, decimal) == Ok(DocValue(d, decimal), [])
  {
    DocReads(d, trail, decimal);
    ValueAfterSpace(lead, DocText(d, trail), decimal);
    SpaceSkipped(trail, []);
    assert trail + [] == trail;
  }

  /** The parser accepts exactly the well-formed documents, each with its meaning. */
  lemma ParseExactly(source: Text, v: Value, decimal: Decimal)
    ensures Parse(source, decimal) == Ok(v, []) <==> Denotes(source, v, decimal)
  {
    if Parse(source, decimal) == Ok(v, []) {
      var d := DocIs(source, decimal);
      var p := ValueAt(source, decimal);
      SpaceIsLead(source);
      SpaceIsLead(p.rest);
      assert Lead(p.rest, []) == p.rest;
      assert DocumentOf(source, Lead(source, Space(source)), d, p.rest, decimal);
    }
    if Denotes(source, v, decimal) {
      var d, lead, trail :| DocumentOf(source, lead, d, trail, decimal) && v == DocValue(d, decimal);
      DocumentReads(source, lead, d, trail, decimal);
    }
  }

  /** No text has two meanings. */
  lemma MeaningIsUnique(source: Text, v: Value, w: Value, decimal: Decimal)
    requires Denotes(source, v, decimal) && Denotes(source, w, decimal)
    ensures v == w
  {
    ParseExactly(source, v, decimal);
    ParseExactly(source, w, decimal);
  }
}
