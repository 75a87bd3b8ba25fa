/** RFC 8259 documents among those the parser accepts, and what sets the others apart. */
module JsonRfc {
  import opened JsonText
  import opened JsonGrammar
  import opened JsonSyntax
  import opened JsonUnique

  // ---------------------------------------------------------------- section by section

  predicate IsAsciiDigit(c: CodeUnit) {
    0x30 <= c <= 0x39
  }

  predicate IsAsciiHex(c: CodeUnit) {
    IsAsciiDigit(c) || 0x41 <= c <= 0x46 || 0x61 <= c <= 0x66
  }

  /** 1*DIGIT */
  predicate AsciiRun(s: Text) {
    s != [] && forall i :: 0 <= i < |s| ==> IsAsciiDigit(s[i])
  }

  /** Section 6: zero, or a digit 1-9 and digits. */
  predicate RfcInteger(s: Text) {
    s == [ZERO] || (AsciiRun(s) && s[0] != ZERO)
  }

  predicate RfcFraction(s: Text) {
    s == [] || (s[0] == DOT && AsciiRun(s[1..]))
  }

  /** At most one sign. */
  predicate RfcExponent(s: Text) {
    s == [] || ((s[0] == LOWER_E || s[0] == UPPER_E)
                && (AsciiRun(s[1..]) || (|s| > 1 && (s[1] == PLUS || s[1] == MINUS) && AsciiRun(s[2..]))))
  }

  predicate RfcNumeral(n: Numeral) {
    RfcInteger(n.integer) && RfcFraction(n.fraction) && RfcExponent(n.exponent)
  }

  /** Section 7: what may stand unescaped, the two-character escapes, and four hexadecimal digits. */
  predicate RfcUnit(u: Unit) {
    match u
    case Plain(c) => c >= 0x20 && c != QUOTE && c != BACKSLASH
    case Short(letter) => Unescape(letter).Some?
    case Hex(digits) => |digits| == 4 && forall i :: 0 <= i < 4 ==> IsAsciiHex(digits[i])
  }

  predicate RfcUnits(units: seq<Unit>) {
    forall i :: 0 <= i < |units| ==> RfcUnit(units[i])
  }

  /** The keys of an object, unescaped, in order. */
  function Keys(members: Members): seq<Text>
    requires MembersShaped(members)
    decreases members
  {
    [UnitsValue(members.key)] + if members.Member? then Keys(members.others) else []
  }

  ghost predicate Distinct(keys: seq<Text>) {
    forall i, j :: 0 <= i < j < |keys| ==> keys[i] != keys[j]
  }

  /** An RFC 8259 text, its names unique as section 4 asks. */
  ghost predicate RfcDoc(d: Doc)
    requires Shaped(d)
    decreases d
  {
    match d
    case NumeralDoc(n) => RfcNumeral(n)
    case StringDoc(units) => RfcUnits(units)
    case ArrayDoc(items) => RfcItems(items)
    case ObjectDoc(members) => RfcMembers(members) && Distinct(Keys(members))
    case _ => true
  }

  ghost predicate RfcItems(items: Items)
    requires ItemsShaped(items)
    decreases items
  {
    RfcDoc(items.doc) && (items.Item? ==> RfcItems(items.others))
  }

  ghost predicate RfcMembers(members: Members)
    requires MembersShaped(members)
    decreases members
  {
    RfcUnits(members.key) && RfcDoc(members.doc) && (members.Member? ==> RfcMembers(members.others))
  }

  // ---------------------------------------------------------------- the three departures

  /** A digit the parser accepts and ASCII does not have. */
  predicate ForeignDigitIn(s: Text) {
    exists i :: 0 <= i < |s| && IsDigit(s[i]) && !IsAsciiDigit(s[i])
  }

  predicate ForeignHexIn(u: Unit) {
    u.Hex? && exists i :: 0 <= i < |u.digits| && !IsAsciiHex(u.digits[i])
  }

  predicate ForeignInUnits(units: seq<Unit>) {
    exists i :: 0 <= i < |units| && ForeignHexIn(units[i])
  }

  predicate ForeignInNumeral(n: Numeral) {
    ForeignDigitIn(n.integer) || ForeignDigitIn(n.fraction) || ForeignDigitIn(n.exponent)
  }

  /** A plus and then a minus. */
  predicate DoubleSigned(n: Numeral) {
    |n.exponent| > 2 && n.exponent[1] == PLUS && n.exponent[2] == MINUS
  }

  predicate Departs(d: Doc, decimal: Decimal)
    requires DocOk(d, decimal)
    decreases d
  {
    match d
    case NumeralDoc(n) => ForeignInNumeral(n) || DoubleSigned(n)
    case StringDoc(units) => ForeignInUnits(units)
    case ArrayDoc(items) => ItemsDepart(items, decimal)
    case ObjectDoc(members) => MembersDepart(members, map[], decimal)
    case _ => false
  }

  predicate ItemsDepart(items: Items, decimal: Decimal)
    requires ItemsOk(items, decimal)
    decreases items
  {
    Departs(items.doc, decimal) || (items.Item? && ItemsDepart(items.others, decimal))
  }

  /** A key already put with a null value is put again, or a key or a value departs. */
  predicate MembersDepart(members: Members, out: map<Text, Value>, decimal: Decimal)
    requires MembersOk(members, out, decimal)
    decreases members
  {
    var key := UnitsValue(members.key);
    || (key in out && out[key] == Null) || ForeignInUnits(members.key) || Departs(members.doc, decimal)
    || (members.Member? && MembersDepart(members.others, out[key := DocValue(members.doc, decimal)], decimal))
  }

  // ---------------------------------------------------------------- accepted, but for the departures

  lemma DigitRunIsAscii(s: Text)
    requires DigitRun(s)
    ensures AsciiRun(s) <==> !ForeignDigitIn(s)
  {}

  lemma ForeignInTail(s: Text, n: nat)
    requires n <= |s| && (forall i :: 0 <= i < n ==> !IsDigit(s[i]))
    ensures ForeignDigitIn(s) <==> ForeignDigitIn(s[n..])
  {
    if i :| 0 <= i < |s| && IsDigit(s[i]) && !IsAsciiDigit(s[i]) {
      assert s[n..][i - n] == s[i];
    }
    if i :| 0 <= i < |s[n..]| && IsDigit(s[n..][i]) && !IsAsciiDigit(s[n..][i]) {
      assert s[n + i] == s[n..][i];
    }
  }

  lemma IntegerDeparts(s: Text)
    requires IntegerOk(s)
    ensures RfcInteger(s) <==> !ForeignDigitIn(s)
  {
    MarksAreNoDigits();
    if s != [ZERO] {
      DigitRunIsAscii(s);
    }
  }

  lemma FractionDeparts(s: Text)
    requires FractionOk(s)
    ensures RfcFraction(s) <==> !ForeignDigitIn(s)
  {
    MarksAreNoDigits();
    if s != [] {
      DigitRunIsAscii(s[1..]);
      ForeignInTail(s, 1);
    }
  }

  /** The signs passed over are none, a plus, a minus, or both in that order. */
  lemma SignsTaken(s: Text) returns (n: nat)
    requires DigitRun(Take(Take(s, PLUS), MINUS))
    ensures n <= 2 && n <= |s| && Take(Take(s, PLUS), MINUS) == s[n..]
    ensures n == 0 ==> s[0] != PLUS && s[0] != MINUS
    ensures n == 1 ==> s[0] == PLUS || s[0] == MINUS
    ensures n == 2 ==> s[0] == PLUS && s[1] == MINUS
  {
    MarksAreNoDigits();
    if Starts(s, PLUS) {
      n := if Starts(s[1..], MINUS) then 2 else 1;
      assert n == 2 ==> s[1..][1..] == s[2..] && s[1] == s[1..][0];
    } else {
      n := if Starts(s, MINUS) then 1 else 0;
      assert s[0..] == s;
    }
  }

  lemma ExponentDeparts(s: Text)
    requires ExponentOk(s)
    ensures RfcExponent(s) <==> !ForeignDigitIn(s) && !(|s| > 2 && s[1] == PLUS && s[2] == MINUS)
  {
    MarksAreNoDigits();
    if s != [] {
      var signed := s[1..];
      var n := SignsTaken(signed);
      var run := signed[n..];
      assert run == s[n + 1..];
      assert forall i :: 0 <= i < n ==> s[i + 1] == signed[i];
      DigitRunIsAscii(run);
      ForeignInTail(s, n + 1);
      if n == 0 {
        assert s[1..] == run && s[1] == run[0];
      } else if n == 1 {
        assert s[2..] == run && s[2] == run[0];
        assert !AsciiRun(s[1..]) by {
          assert s[1..][0] == s[1];
        }
      } else {
        assert !AsciiRun(s[1..]) by {
          assert s[1..][0] == s[1];
        }
        assert !AsciiRun(s[2..]) by {
          assert s[2..][0] == s[2];
        }
      }
    }
  }

  lemma UnitsDepart(units: seq<Unit>)
    requires UnitsOk(units)
    ensures RfcUnits(units) <==> !ForeignInUnits(units)
  {
    forall i | 0 <= i < |units| ensures RfcUnit(units[i]) <==> !ForeignHexIn(units[i]) {}
  }

  /** Every document the parser accepts is an RFC 8259 document unless it departs. */
  lemma {:induction false} DepartsExactly(d: Doc, decimal: Decimal)
    requires DocOk(d, decimal)
    ensures Shaped(d)
    ensures RfcDoc(d) <==> !Departs(d, decimal)
    decreases d
  {
    OkIsShaped(d, decimal);
    match d {
      case NumeralDoc(n) =>
        IntegerDeparts(n.integer);
        FractionDeparts(n.fraction);
        ExponentDeparts(n.exponent);
      case StringDoc(units) => UnitsDepart(units);
      case ArrayDoc(items) => ItemsDepartExactly(items, decimal);
      case ObjectDoc(members) =>
        MembersDepartExactly(members, map[], decimal);
        assert NoneOf(Keys(members), map[]);
      case _ =>
    }
  }

  lemma {:induction false} ItemsDepartExactly(items: Items, decimal: Decimal)
    requires ItemsOk(items, decimal)
    ensures ItemsShaped(items)
    ensures RfcItems(items) <==> !ItemsDepart(items, decimal)
    decreases items
  {
    ItemsOkShaped(items, decimal);
    DepartsExactly(items.doc, decimal);
    if items.Item? {
      ItemsDepartExactly(items.others, decimal);
    }
  }

  ghost predicate NoneOf(keys: seq<Text>, out: map<Text, Value>) {
    forall i :: 0 <= i < |keys| ==> keys[i] !in out
  }

  /** A first key, and the keys after it against the map it was put in. */
  lemma FirstKeyApart(key: Text, keys: seq<Text>, out: map<Text, Value>, value: Value)
    ensures NoneOf([key] + keys, out) && Distinct([key] + keys) <==>
            key !in out && NoneOf(keys, out[key := value]) && Distinct(keys)
  {
    var all := [key] + keys;
    assert forall i :: 0 <= i < |keys| ==> all[i + 1] == keys[i];
    if NoneOf(all, out) && Distinct(all) {
      assert all[0] == key;
      forall i, j | 0 <= i < j < |keys| ensures keys[i] != keys[j] {
        assert all[i + 1] != all[j + 1];
      }
      forall i | 0 <= i < |keys| ensures keys[i] !in out[key := value] {
        assert all[0] != all[i + 1];
      }
    }
  }

  lemma {:induction false} MembersDepartExactly(members: Members, out: map<Text, Value>, decimal: Decimal)
    requires MembersOk(members, out, decimal)
    ensures MembersShaped(members)
    ensures RfcMembers(members) && NoneOf(Keys(members), out) && Distinct(Keys(members)) <==>
            !MembersDepart(members, out, decimal)
    decreases members
  {
    MembersOkShaped(members, out, decimal);
    UnitsDepart(members.key);
    DepartsExactly(members.doc, decimal);
    var key, value := UnitsValue(members.key), DocValue(members.doc, decimal);
    var others := if members.Member? then Keys(members.others) else [];
    FirstKeyApart(key, others, out, value);
    assert Keys(members) == [key] + others;
    if members.Member? {
      MembersDepartExactly(members.others, out[key := value], decimal);
    }
  }

  // ---------------------------------------------------------------- texts

  /** The text is an RFC 8259 document with space around it. */
  ghost predicate IsRfc(source: Text) {
    exists lead, d, trail :: RfcText(source, lead, d, trail)
  }

  ghost predicate RfcText(source: Text, lead: Text, d: Doc, trail: Text) {
    AllSpace(lead) && Shaped(d) && RfcDoc(d) && AllSpace(trail) && source == lead + DocText(d, trail)
  }

  /** An accepted text is RFC 8259 exactly when its one document has no foreign digit, no double sign, and no key repeated after a null. */
  lemma AcceptedIsRfcExactly(source: Text, lead: Text, d: Doc, trail: Text, decimal: Decimal)
    requires DocumentOf(source, lead, d, trail, decimal)
    ensures IsRfc(source) <==> !Departs(d, decimal)
  {
    DepartsExactly(d, decimal);
    if IsRfc(source) {
      var lead', d', trail' :| RfcText(source, lead', d', trail');
      DocumentIsUnique(lead, d, trail, lead', d', trail');
    }
    if RfcDoc(d) {
      assert RfcText(source, lead, d, trail);
    }
  }

  /** The decimal constructor takes every numeral of the document. */
  predicate Constructs(d: Doc, decimal: Decimal)
    decreases d
  {
    match d
    case NumeralDoc(n) => decimal(NumeralText(n, [])).Some?
    case ArrayDoc(items) => ConstructsItems(items, decimal)
    case ObjectDoc(members) => ConstructsMembers(members, decimal)
    case _ => true
  }

  predicate ConstructsItems(items: Items, decimal: Decimal)
    decreases items
  {
    Constructs(items.doc, decimal) && (items.Item? ==> ConstructsItems(items.others, decimal))
  }

  predicate ConstructsMembers(members: Members, decimal: Decimal)
    decreases members
  {
    Constructs(members.doc, decimal) && (members.Member? ==> ConstructsMembers(members.others, decimal))
  }

  /** Every RFC 8259 document whose numbers can be constructed is one the parser accepts. */
  lemma {:induction false} RfcIsOk(d: Doc, decimal: Decimal)
    requires Shaped(d) && RfcDoc(d) && Constructs(d, decimal)
    ensures DocOk(d, decimal)
    decreases d
  {
    match d {
      case ArrayDoc(items) => RfcItemsAreOk(items, decimal);
      case ObjectDoc(members) => RfcMembersAreOk(members, map[], decimal);
      case _ =>
    }
  }

  lemma {:induction false} RfcItemsAreOk(items: Items, decimal: Decimal)
    requires ItemsShaped(items) && RfcItems(items) && ConstructsItems(items, decimal)
    ensures ItemsOk(items, decimal)
    decreases items
  {
    RfcIsOk(items.doc, decimal);
    if items.Item? {
      RfcItemsAreOk(items.others, decimal);
    }
  }

  lemma {:induction false} RfcMembersAreOk(members: Members, out: map<Text, Value>, decimal: Decimal)
    requires MembersShaped(members) && RfcMembers(members) && ConstructsMembers(members, decimal)
    requires NoneOf(Keys(members), out) && Distinct(Keys(members))
    ensures MembersOk(members, out, decimal)
    decreases members
  {
    RfcIsOk(members.doc, decimal);
    var key, value := UnitsValue(members.key), DocValue(members.doc, decimal);
    var others := if members.Member? then Keys(members.others) else [];
    assert Keys(members) == [key] + others;
    FirstKeyApart(key, others, out, value);
    if members.Member? {
      RfcMembersAreOk(members.others, out[key := value], decimal);
    }
  }

  /** So every RFC 8259 text with constructible numbers is parsed, to what it means. */
  lemma RfcIsParsed(source: Text, lead: Text, d: Doc, trail: Text, decimal: Decimal)
    requires RfcText(source, lead, d, trail) && Constructs(d, decimal)
    ensures DocOk(d, decimal) && Parse(source, decimal) == Ok(DocValue(d, decimal), [])
  {
    RfcIsOk(d, decimal);
    DocumentReads(source, lead, d, trail, decimal);
  }

  // ---------------------------------------------------------------- a text for each departure

  /** An Arabic-Indic three is a number. */
  lemma ForeignNumberParses(decimal: Decimal)
    requires decimal([0x663]).Some?
    ensures Parse([0x663], decimal) == Ok(Number(decimal([0x663]).value), []) && !IsRfc([0x663])
  {
    var d := NumeralDoc(Numeral(false, [0x663], [], []));
    assert DigitRun([0x663]);
    assert DocText(d, []) == [0x663];
    assert NumeralText(d.numeral, []) == [0x663];
    assert DocumentOf([0x663], [], d, [], decimal);
    DocumentReads([0x663], [], d, [], decimal);
    assert ForeignDigitIn(d.numeral.integer) by {
      assert IsDigit([0x663][0]) && !IsAsciiDigit([0x663][0]);
    }
    AcceptedIsRfcExactly([0x663], [], d, [], decimal);
  }

  lemma OneUnit(u: Unit, tail: Text)
    ensures StringText([u], tail) == [QUOTE] + UnitText(u, [QUOTE] + tail)
  {
    assert [u][1..] == [];
    assert UnitsText([u], [QUOTE] + tail) == UnitText(u, UnitsText([], [QUOTE] + tail));
  }

  /** `"\u` and 0041 in Arabic-Indic digits, and a quote. */
  const FOREIGN_DIGITS: Text := [0x660, 0x660, 0x664, 0x661]

  const FOREIGN_ESCAPE: Text := [QUOTE, BACKSLASH, LOWER_U] + FOREIGN_DIGITS + [QUOTE]

  lemma ForeignDigitsMean()
    ensures UnitOk(Hex(FOREIGN_DIGITS)) && ForeignHexIn(Hex(FOREIGN_DIGITS))
    ensures UnitsValue([Hex(FOREIGN_DIGITS)]) == [0x41]
  {
    var units := [Hex(FOREIGN_DIGITS)];
    assert HexValue(0x660) == 0 && HexValue(0x664) == 4 && HexValue(0x661) == 1;
    assert !IsAsciiHex(FOREIGN_DIGITS[0]);
    assert units[1..] == [];
    assert UnitsValue([]) == [];
  }

  lemma ForeignEscapeText()
    ensures DocText(StringDoc([Hex(FOREIGN_DIGITS)]), []) == FOREIGN_ESCAPE
  {
    OneUnit(Hex(FOREIGN_DIGITS), []);
    assert [QUOTE] + [] == [QUOTE];
  }

  /** An escape spelled with Arabic-Indic digits is the letter A. */
  lemma ForeignEscapeParses(decimal: Decimal)
    ensures Parse(FOREIGN_ESCAPE, decimal) == Ok(String([0x41]), []) && !IsRfc(FOREIGN_ESCAPE)
  {
    var units := [Hex(FOREIGN_DIGITS)];
    var d := StringDoc(units);
    ForeignDigitsMean();
    ForeignEscapeText();
    assert [] + DocText(d, []) == DocText(d, []);
    assert DocumentOf(FOREIGN_ESCAPE, [], d, [], decimal);
    DocumentReads(FOREIGN_ESCAPE, [], d, [], decimal);
    assert ForeignHexIn(units[0]);
    AcceptedIsRfcExactly(FOREIGN_ESCAPE, [], d, [], decimal);
  }

  const LETTER_A: CodeUnit := 0x61

  /** `{"a":null,"a":true}` */
  const NULL_THEN_TRUE: Text :=
    [LBRACE, QUOTE, LETTER_A, QUOTE, COLON] + NULL + [COMMA, QUOTE, LETTER_A, QUOTE, COLON] + TRUE + [RBRACE]

  /** The repeated key passes, as its first value is null, and the last value stays. */
  lemma NullThenTrueParses(decimal: Decimal)
    ensures Parse(NULL_THEN_TRUE, decimal) == Ok(Object(map[[LETTER_A] := Bool(true)]), []) && !IsRfc(NULL_THEN_TRUE)
  {
    var key := [Plain(LETTER_A)];
    var last := LastMember([], key, [], [], BoolDoc(true), []);
    var members := Member([], key, [], [], NullDoc, [], last);
    var d := ObjectDoc(members);
    NullThenTrueText(key, last, members);
    assert key[1..] == [];
    assert UnitsValue(key) == [LETTER_A] + UnitsValue([]);
    assert UnitsValue(key) == [LETTER_A];
    assert !Clashes(map[[LETTER_A] := Null], UnitsValue(key));
    assert MembersOk(last, map[[LETTER_A] := Null], decimal);
    var out := map[][[LETTER_A] := Null];
    assert out == map[[LETTER_A] := Null];
    assert out[[LETTER_A] := Bool(true)] == map[[LETTER_A] := Bool(true)];
    assert DocumentOf(NULL_THEN_TRUE, [], d, [], decimal);
    DocumentReads(NULL_THEN_TRUE, [], d, [], decimal);
    assert MembersValue(members, map[], decimal) == MembersValue(last, out, decimal);
    assert MembersValue(last, out, decimal) == out[[LETTER_A] := Bool(true)];
    assert MembersDepart(last, out, decimal);
    assert Departs(d, decimal);
    AcceptedIsRfcExactly(NULL_THEN_TRUE, [], d, [], decimal);
  }

  lemma PlainMember(key: CodeUnit, doc: Doc, tail: Text)
    ensures LastMember([], [Plain(key)], [], [], doc, []).LastMember?
    ensures MembersText(LastMember([], [Plain(key)], [], [], doc, []), tail) ==
            [QUOTE, key, QUOTE] + ([COLON] + DocText(doc, [RBRACE] + tail))
  {
    var after := [COLON] + DocText(doc, [RBRACE] + tail);
    assert [] + ([RBRACE] + tail) == [RBRACE] + tail;
    assert [] + DocText(doc, [RBRACE] + tail) == DocText(doc, [RBRACE] + tail);
    assert [] + after == after;
    OneUnit(Plain(key), after);
    assert [] + StringText([Plain(key)], after) == StringText([Plain(key)], after);
    assert [QUOTE] + ([key] + ([QUOTE] + after)) == [QUOTE, key, QUOTE] + after;
  }

  lemma PlainMemberBefore(key: CodeUnit, doc: Doc, others: Members, tail: Text)
    ensures MembersText(Member([], [Plain(key)], [], [], doc, [], others), tail) ==
            [QUOTE, key, QUOTE] + ([COLON] + DocText(doc, [COMMA] + MembersText(others, tail)))
  {
    var end := [COMMA] + MembersText(others, tail);
    var after := [COLON] + DocText(doc, end);
    assert [] + end == end;
    assert [] + DocText(doc, end) == DocText(doc, end);
    assert [] + after == after;
    OneUnit(Plain(key), after);
    assert [] + StringText([Plain(key)], after) == StringText([Plain(key)], after);
    assert [QUOTE] + ([key] + ([QUOTE] + after)) == [QUOTE, key, QUOTE] + after;
  }

  lemma NullThenTrueText(key: seq<Unit>, last: Members, members: Members)
    requires key == [Plain(LETTER_A)] && last == LastMember([], key, [], [], BoolDoc(true), [])
    requires members == Member([], key, [], [], NullDoc, [], last)
    ensures NULL_THEN_TRUE == [] + DocText(ObjectDoc(members), [])
  {
    PlainMember(LETTER_A, BoolDoc(true), []);
    PlainMemberBefore(LETTER_A, NullDoc, last, []);
    var second := [QUOTE, LETTER_A, QUOTE] + ([COLON] + (TRUE + [RBRACE]));
    assert [RBRACE] + [] == [RBRACE];
    assert MembersText(last, []) == second;
    assert MembersText(members, []) == [QUOTE, LETTER_A, QUOTE] + ([COLON] + (NULL + ([COMMA] + second)));
  }
}
