/** What the serializer writes: the one canonical document of a value. */
module JsonCanonical {
  import opened Wrappers
  import opened JsonText
  import opened JsonGrammar
  import opened JsonRoundTrip
  import opened JsonSyntax

  // ---------------------------------------------------------------- canonical documents

  /** No other spelling of the same unit is shorter, and digits are lower-case ASCII. */
  ghost predicate Shortest(u: Unit)
    requires UnitOk(u)
  {
    && (forall v :: UnitOk(v) && UnitValue(v) == UnitValue(u) ==> |UnitText(u, [])| <= |UnitText(v, [])|)
    && (u.Hex? ==> forall i :: 0 <= i < 4 ==> IsLowerHex(u.digits[i]))
  }

  ghost predicate AllShortest(units: seq<Unit>)
    requires UnitsOk(units)
  {
    forall i :: 0 <= i < |units| ==> Shortest(units[i])
  }

  /** No space anywhere, the shortest escapes, keys in ascending order, and numbers as the constructor prints them. */
  ghost predicate Canonical(d: Doc, decimal: Decimal)
    requires DocOk(d, decimal)
    decreases d
  {
    match d
    case NumeralDoc(n) => decimal(NumeralText(n, [])) == Some(NumeralText(n, []))
    case StringDoc(units) => AllShortest(units)
    case EmptyArray(space) => space == []
    case ArrayDoc(items) => CanonicalItems(items, decimal)
    case EmptyObject(space) => space == []
    case ObjectDoc(members) =>
      CanonicalMembers(members, map[], decimal) && Ascending(KeysOf(members, map[], decimal))
    case _ => true
  }

  ghost predicate CanonicalItems(items: Items, decimal: Decimal)
    requires ItemsOk(items, decimal)
    decreases items
  {
    && items.before == items.after == [] && Canonical(items.doc, decimal)
    && (items.Item? ==> CanonicalItems(items.others, decimal))
  }

  ghost predicate CanonicalMembers(members: Members, out: map<Text, Value>, decimal: Decimal)
    requires MembersOk(members, out, decimal)
    decreases members
  {
    && members.beforeKey == members.afterKey == members.before == members.after == []
    && AllShortest(members.key) && Canonical(members.doc, decimal)
    && (members.Member? ==> CanonicalMembers(members.others, Put(members, out, decimal), decimal))
  }

  function Put(members: Members, out: map<Text, Value>, decimal: Decimal): map<Text, Value>
    requires MembersOk(members, out, decimal)
  {
    out[UnitsValue(members.key) := DocValue(members.doc, decimal)]
  }

  function KeysOf(members: Members, out: map<Text, Value>, decimal: Decimal): seq<Text>
    requires MembersOk(members, out, decimal)
    decreases members
  {
    [UnitsValue(members.key)]
    + if members.Member? then KeysOf(members.others, Put(members, out, decimal), decimal) else []
  }

  // ---------------------------------------------------------------- the shortest spelling of a unit

  /** The digits of a control character. */
  function ControlDigits(c: CodeUnit): Text
    requires c < 0x20
  {
    [ZERO, ZERO, LowerHex(c / 16), LowerHex(c % 16)]
  }

  /** The letter of a two-character escape that stands for the unit. */
  function LetterFor(c: CodeUnit): Option<CodeUnit> {
    if c == QUOTE || c == BACKSLASH then Some(c)
    else if c == 0x08 then Some(0x62)
    else if c == 0x0C then Some(0x66)
    else if c == 0x0A then Some(0x6E)
    else if c == 0x0D then Some(0x72)
    else if c == 0x09 then Some(0x74)
    else None
  }

  function UnitFor(c: CodeUnit): Unit {
    if LetterFor(c).Some? then Short(LetterFor(c).value)
    else if c < 0x20 then Hex(ControlDigits(c))
    else Plain(c)
  }

  lemma DigitValues(n: int)
    requires 0 <= n < 16
    ensures IsLowerHex(LowerHex(n)) && HexValue(LowerHex(n)) == n
  {}

  lemma LowerHexDetermined(c: CodeUnit)
    requires IsLowerHex(c)
    ensures 0 <= HexValue(c) < 16 && LowerHex(HexValue(c)) == c
  {}

  lemma ControlNumber(c: CodeUnit)
    requires c < 0x20
    ensures |ControlDigits(c)| == 4 && forall i :: 0 <= i < 4 ==> IsLowerHex(ControlDigits(c)[i])
    ensures UnitOk(Hex(ControlDigits(c))) && UnitValue(Hex(ControlDigits(c))) == c
  {
    DigitValues(c / 16);
    DigitValues(c % 16);
    assert HexValue(ZERO) == 0;
  }

  lemma LetterStandsFor(c: CodeUnit)
    requires LetterFor(c).Some?
    ensures Unescape(LetterFor(c).value) == Some(c)
  {}

  lemma LetterIsOnly(letter: CodeUnit, c: CodeUnit)
    requires Unescape(letter) == Some(c)
    ensures c == 0x2F || LetterFor(c) == Some(letter)
  {}

  lemma UnitForIsOk(c: CodeUnit)
    ensures UnitOk(UnitFor(c)) && UnitValue(UnitFor(c)) == c
  {
    if LetterFor(c).Some? {
      LetterStandsFor(c);
    } else if c < 0x20 {
      ControlNumber(c);
    }
  }

  lemma UnitLength(u: Unit)
    requires UnitOk(u)
    ensures |UnitText(u, [])| == match u case Plain(_) => 1 case Short(_) => 2 case Hex(_) => 6
  {}

  lemma UnitForIsLeast(c: CodeUnit, v: Unit)
    requires UnitOk(v) && UnitValue(v) == c
    ensures UnitOk(UnitFor(c)) && |UnitText(UnitFor(c), [])| <= |UnitText(v, [])|
  {
    UnitForIsOk(c);
    UnitLength(UnitFor(c));
    UnitLength(v);
    if v.Short? {
      LetterIsOnly(v.letter, c);
    }
  }

  lemma UnitForIsShortest(c: CodeUnit)
    ensures UnitOk(UnitFor(c)) && UnitValue(UnitFor(c)) == c && Shortest(UnitFor(c))
  {
    UnitForIsOk(c);
    forall v | UnitOk(v) && UnitValue(v) == c ensures |UnitText(UnitFor(c), [])| <= |UnitText(v, [])| {
      UnitForIsLeast(c, v);
    }
    if UnitFor(c).Hex? {
      ControlNumber(c);
    }
  }

  lemma SameDigit(x: int, y: int, d: int, e: int)
    requires 0 <= d < 16 && 0 <= e < 16 && x * 16 + d == y * 16 + e
    ensures x == y && d == e
  {}

  lemma SameNumber(a: seq<int>, b: seq<int>)
    requires |a| == |b| == 4 && forall i :: 0 <= i < 4 ==> 0 <= a[i] < 16 && 0 <= b[i] < 16
    requires ((a[0] * 16 + a[1]) * 16 + a[2]) * 16 + a[3] == ((b[0] * 16 + b[1]) * 16 + b[2]) * 16 + b[3]
    ensures a == b
  {
    SameDigit((a[0] * 16 + a[1]) * 16 + a[2], (b[0] * 16 + b[1]) * 16 + b[2], a[3], b[3]);
    SameDigit(a[0] * 16 + a[1], b[0] * 16 + b[1], a[2], b[2]);
    SameDigit(a[0], b[0], a[1], b[1]);
  }

  function Values(digits: Text): (values: seq<int>)
    requires |digits| == 4
  {
    [HexValue(digits[0]), HexValue(digits[1]), HexValue(digits[2]), HexValue(digits[3])]
  }

  lemma ValuesDetermine(digits: Text)
    requires |digits| == 4 && forall i :: 0 <= i < 4 ==> IsLowerHex(digits[i])
    ensures forall i :: 0 <= i < 4 ==> 0 <= Values(digits)[i] < 16 && digits[i] == LowerHex(Values(digits)[i])
  {
    forall i | 0 <= i < 4 ensures 0 <= Values(digits)[i] < 16 && digits[i] == LowerHex(Values(digits)[i]) {
      assert Values(digits)[i] == HexValue(digits[i]);
      LowerHexDetermined(digits[i]);
    }
  }

  lemma SameValues(a: Text, b: Text)
    requires |a| == |b| == 4 && forall i :: 0 <= i < 4 ==> IsLowerHex(a[i]) && IsLowerHex(b[i])
    requires Values(a) == Values(b)
    ensures a == b
  {
    ValuesDetermine(a);
    ValuesDetermine(b);
    forall i | 0 <= i < 4 ensures a[i] == b[i] {
      assert a[i] == LowerHex(Values(a)[i]);
    }
  }

  lemma LowerDigitsAgree(a: Text, b: Text)
    requires |a| == |b| == 4 && forall i :: 0 <= i < 4 ==> IsLowerHex(a[i]) && IsLowerHex(b[i])
    requires UnitOk(Hex(a)) && UnitOk(Hex(b)) && HexNumber(a) == HexNumber(b)
    ensures a == b
  {
    ValuesDetermine(a);
    ValuesDetermine(b);
    SameNumber(Values(a), Values(b));
    SameValues(a, b);
  }

  /** A unit has one shortest spelling. */
  lemma ShortestIsUnitFor(u: Unit)
    requires UnitOk(u) && Shortest(u)
    ensures u == UnitFor(UnitValue(u))
  {
    var c := UnitValue(u);
    UnitForIsShortest(c);
    assert |UnitText(u, [])| <= |UnitText(UnitFor(c), [])|;
    UnitForIsLeast(c, u);
    UnitLength(u);
    UnitLength(UnitFor(c));
    match u {
      case Plain(_) =>
      case Short(letter) => LetterIsOnly(letter, c);
      case Hex(digits) =>
        ControlNumber(c);
        LowerDigitsAgree(digits, ControlDigits(c));
    }
  }

  lemma UnitForIsEscape(c: CodeUnit, tail: Text)
    ensures UnitText(UnitFor(c), tail) == Escape(c) + tail
  {}

  lemma {:induction false} ShortestUnitsAreQuoted(units: seq<Unit>, tail: Text)
    requires UnitsOk(units) && AllShortest(units)
    ensures UnitsText(units, tail) == QuoteBody(UnitsValue(units)) + tail
  {
    if units != [] {
      var c, others := UnitValue(units[0]), units[1..];
      ShortestUnitsAreQuoted(others, tail);
      ShortestIsUnitFor(units[0]);
      UnitForIsEscape(c, QuoteBody(UnitsValue(others)) + tail);
      QuotedMore(c, UnitsValue(others), tail);
      assert UnitsValue(units) == [c] + UnitsValue(others);
    }
  }

  lemma QuotedMore(c: CodeUnit, others: Text, tail: Text)
    ensures QuoteBody([c] + others) + tail == Escape(c) + (QuoteBody(others) + tail)
  {
    assert ([c] + others)[1..] == others;
  }

  lemma ShortestIsQuoted(units: seq<Unit>, tail: Text)
    requires UnitsOk(units) && AllShortest(units)
    ensures StringText(units, tail) == Quote(UnitsValue(units)) + tail
  {
    ShortestUnitsAreQuoted(units, [QUOTE] + tail);
    var body := QuoteBody(UnitsValue(units));
    assert [QUOTE] + (body + ([QUOTE] + tail)) == [QUOTE] + body + [QUOTE] + tail;
  }

  // ---------------------------------------------------------------- a canonical document is what is written

  /** The members in order, with their values. */
  function PairsOf(members: Members, out: map<Text, Value>, decimal: Decimal): (pairs: seq<Member>)
    requires MembersOk(members, out, decimal)
    ensures pairs != []
    decreases members
  {
    [(UnitsValue(members.key), DocValue(members.doc, decimal))]
    + if members.Member? then PairsOf(members.others, Put(members, out, decimal), decimal) else []
  }

  lemma {:induction false} PairsMakeTheMap(members: Members, out: map<Text, Value>, decimal: Decimal)
    requires MembersOk(members, out, decimal)
    ensures MembersValue(members, out, decimal) == PutAll(out, PairsOf(members, out, decimal))
    ensures |KeysOf(members, out, decimal)| == |PairsOf(members, out, decimal)|
    ensures forall i :: 0 <= i < |PairsOf(members, out, decimal)| ==>
                          KeysOf(members, out, decimal)[i] == PairsOf(members, out, decimal)[i].0
    decreases members
  {
    var pairs := PairsOf(members, out, decimal);
    if members.Member? {
      PairsMakeTheMap(members.others, Put(members, out, decimal), decimal);
      assert pairs[1..] == PairsOf(members.others, Put(members, out, decimal), decimal);
    } else {
      assert pairs[1..] == [];
    }
  }

  lemma JoinMore(first: Text, more: seq<Text>, tail: Text)
    requires more != []
    ensures Join([first] + more) + tail == first + ([COMMA] + (Join(more) + tail))
  {
    assert ([first] + more)[1..] == more;
  }

  /** What a canonical document has to do with the text of its meaning. */
  ghost predicate WrittenAs(d: Doc, decimal: Decimal)
    requires DocOk(d, decimal)
  {
    forall tail :: DocText(d, tail) == Write(DocValue(d, decimal)) + tail
  }

  lemma LeafIsWritten(d: Doc, decimal: Decimal)
    requires DocOk(d, decimal) && Canonical(d, decimal) && !d.ArrayDoc? && !d.ObjectDoc?
    ensures WrittenAs(d, decimal)
  {
    forall tail ensures DocText(d, tail) == Write(DocValue(d, decimal)) + tail {
      match d {
        case NumeralDoc(n) => NumeralBeforeTail(n, tail);
        case StringDoc(units) => ShortestIsQuoted(units, tail);
        case EmptyArray(_) => EmptyArrayIsWritten(tail);
        case EmptyObject(_) => EmptyObjectIsWritten(tail);
        case _ =>
      }
    }
  }

  lemma NothingBracketed(open: CodeUnit, close: CodeUnit, tail: Text)
    ensures [open] + ([] + ([close] + tail)) == [open, close] + tail
  {}

  lemma EmptyArrayIsWritten(tail: Text)
    ensures DocText(EmptyArray([]), tail) == Write(Array([])) + tail
  {
    assert Write(Array([])) == [LBRACKET, RBRACKET];
    NothingBracketed(LBRACKET, RBRACKET, tail);
  }

  lemma EmptyObjectIsWritten(tail: Text)
    ensures DocText(EmptyObject([]), tail) == Write(Object(map[])) + tail
  {
    EmptyObjectText();
    NothingBracketed(LBRACE, RBRACE, tail);
  }

  lemma EmptyObjectText()
    ensures Write(Object(map[])) == [LBRACE, RBRACE]
  {
    var v := Object(map[]);
    var keys := SortedKeys(v.members.Keys);
    assert Lists([], v.members.Keys);
    ListIsUnique(keys, [], v.members.Keys);
    assert MemberTexts(v, keys) == [];
  }

  lemma Bracketed(open: CodeUnit, texts: Text, close: CodeUnit, tail: Text)
    ensures [open] + (texts + ([close] + tail)) == [open] + texts + [close] + tail
  {}

  lemma ArrayIsWritten(items: Items, tail: Text, decimal: Decimal)
    requires ItemsOk(items, decimal)
    requires ItemsText(items, tail) == Join(ItemTexts(ItemsValue(items, decimal))) + ([RBRACKET] + tail)
    ensures DocText(ArrayDoc(items), tail) == Write(Array(ItemsValue(items, decimal))) + tail
  {
    Bracketed(LBRACKET, Join(ItemTexts(ItemsValue(items, decimal))), RBRACKET, tail);
  }

  lemma ObjectIsWritten(members: Members, tail: Text, decimal: Decimal)
    requires MembersOk(members, map[], decimal) && Ascending(KeysOf(members, map[], decimal))
    requires MembersText(members, tail) == Join(PairTexts(PairsOf(members, map[], decimal))) + ([RBRACE] + tail)
    ensures DocText(ObjectDoc(members), tail) == Write(Object(MembersValue(members, map[], decimal))) + tail
  {
    MembersAreSorted(members, decimal);
    Bracketed(LBRACE, Join(PairTexts(PairsOf(members, map[], decimal))), RBRACE, tail);
  }

  /** The canonical document of a value is unique as a text: it is the text written for the value. */
  lemma {:induction false} CanonicalIsWritten(d: Doc, decimal: Decimal)
    requires DocOk(d, decimal) && Canonical(d, decimal)
    ensures WrittenAs(d, decimal)
    decreases d
  {
    match d {
      case ArrayDoc(items) =>
        forall tail ensures DocText(d, tail) == Write(DocValue(d, decimal)) + tail {
          ItemsAreWritten(items, tail, decimal);
          ArrayIsWritten(items, tail, decimal);
        }
      case ObjectDoc(members) =>
        forall tail ensures DocText(d, tail) == Write(DocValue(d, decimal)) + tail {
          MembersAreWritten(members, map[], tail, decimal);
          ObjectIsWritten(members, tail, decimal);
        }
      case _ => LeafIsWritten(d, decimal);
    }
  }

  lemma ItemIsWritten(items: Items, end: Text, decimal: Decimal)
    requires ItemsOk(items, decimal) && CanonicalItems(items, decimal) && WrittenAs(items.doc, decimal)
    ensures items.before + DocText(items.doc, items.after + end) == Write(DocValue(items.doc, decimal)) + end
  {
    assert [] + end == end;
    assert DocText(items.doc, end) == Write(DocValue(items.doc, decimal)) + end;
    assert [] + DocText(items.doc, end) == DocText(items.doc, end);
  }

  lemma FirstItemText(items: Items, decimal: Decimal)
    requires ItemsOk(items, decimal)
    ensures ItemTexts(ItemsValue(items, decimal)) ==
            [Write(DocValue(items.doc, decimal))]
            + (if items.Item? then ItemTexts(ItemsValue(items.others, decimal)) else [])
  {}

  lemma {:induction false} ItemsAreWritten(items: Items, tail: Text, decimal: Decimal)
    requires ItemsOk(items, decimal) && CanonicalItems(items, decimal)
    ensures ItemsText(items, tail) == Join(ItemTexts(ItemsValue(items, decimal))) + ([RBRACKET] + tail)
    decreases items
  {
    CanonicalIsWritten(items.doc, decimal);
    FirstItemText(items, decimal);
    if items.Item? {
      ItemsAreWritten(items.others, tail, decimal);
      ItemIsWritten(items, [COMMA] + ItemsText(items.others, tail), decimal);
      JoinMore(Write(DocValue(items.doc, decimal)), ItemTexts(ItemsValue(items.others, decimal)), [RBRACKET] + tail);
    } else {
      ItemIsWritten(items, [RBRACKET] + tail, decimal);
    }
  }

  lemma KeyIsWritten(key: seq<Unit>, value: Text, end: Text)
    requires UnitsOk(key) && AllShortest(key)
    ensures [] + StringText(key, [] + ([COLON] + ([] + (value + end)))) ==
            Quote(UnitsValue(key)) + [COLON] + value + end
  {
    var after := [COLON] + (value + end);
    assert [] + (value + end) == value + end && [] + after == after;
    ShortestIsQuoted(key, after);
    var quoted := Quote(UnitsValue(key));
    assert [] + StringText(key, after) == StringText(key, after);
    assert quoted + ([COLON] + (value + end)) == quoted + [COLON] + value + end;
  }

  lemma MemberIsWritten(members: Members, end: Text, out: map<Text, Value>, decimal: Decimal)
    requires MembersOk(members, out, decimal) && CanonicalMembers(members, out, decimal)
    requires WrittenAs(members.doc, decimal)
    ensures members.beforeKey + StringText(members.key,
              members.afterKey + ([COLON] + (members.before + DocText(members.doc, members.after + end)))) ==
            Quote(UnitsValue(members.key)) + [COLON] + Write(DocValue(members.doc, decimal)) + end
  {
    assert [] + end == end;
    assert DocText(members.doc, end) == Write(DocValue(members.doc, decimal)) + end;
    KeyIsWritten(members.key, Write(DocValue(members.doc, decimal)), end);
  }

  lemma {:induction false} MembersAreWritten(members: Members, out: map<Text, Value>, tail: Text, decimal: Decimal)
    requires MembersOk(members, out, decimal) && CanonicalMembers(members, out, decimal)
    ensures MembersText(members, tail) == Join(PairTexts(PairsOf(members, out, decimal))) + ([RBRACE] + tail)
    decreases members
  {
    CanonicalIsWritten(members.doc, decimal);
    var end := if members.Member? then [COMMA] + MembersText(members.others, tail) else [RBRACE] + tail;
    MemberIsWritten(members, end, out, decimal);
    FirstPairText(members, out, decimal);
    if members.Member? {
      MembersAreWritten(members.others, Put(members, out, decimal), tail, decimal);
      JoinMore(Quote(UnitsValue(members.key)) + [COLON] + Write(DocValue(members.doc, decimal)),
               PairTexts(PairsOf(members.others, Put(members, out, decimal), decimal)), [RBRACE] + tail);
    }
  }

  lemma PairTextsMore(pair: Member, more: seq<Member>)
    ensures PairTexts([pair] + more) == [Quote(pair.0) + [COLON] + Write(pair.1)] + PairTexts(more)
  {}

  lemma FirstPairText(members: Members, out: map<Text, Value>, decimal: Decimal)
    requires MembersOk(members, out, decimal)
    ensures PairTexts(PairsOf(members, out, decimal)) ==
            [Quote(UnitsValue(members.key)) + [COLON] + Write(DocValue(members.doc, decimal))]
            + (if members.Member? then PairTexts(PairsOf(members.others, Put(members, out, decimal), decimal)) else [])
  {
    var more := if members.Member? then PairsOf(members.others, Put(members, out, decimal), decimal) else [];
    PairTextsMore((UnitsValue(members.key), DocValue(members.doc, decimal)), more);
  }

  lemma AscendingDiffers(keys: seq<Text>, i: nat, j: nat)
    requires Ascending(keys) && i < j < |keys|
    ensures keys[i] != keys[j]
  {
    assert Less(keys[i], keys[j]);
    LessIrreflexive(keys[i]);
  }

  /** The pairs of an ascending list of members are the sorted ones of their map. */
  lemma MembersAreSorted(members: Members, decimal: Decimal)
    requires MembersOk(members, map[], decimal) && Ascending(KeysOf(members, map[], decimal))
    ensures Write(Object(MembersValue(members, map[], decimal))) ==
            [LBRACE] + Join(PairTexts(PairsOf(members, map[], decimal))) + [RBRACE]
  {
    var pairs, keys := PairsOf(members, map[], decimal), KeysOf(members, map[], decimal);
    var values := MembersValue(members, map[], decimal);
    PairsMakeTheMap(members, map[], decimal);
    forall i, j | 0 <= i < j < |pairs| ensures pairs[i].0 != pairs[j].0 {
      AscendingDiffers(keys, i, j);
    }
    PutAllHolds(map[], pairs);
    forall k ensures k in keys <==> k in values.Keys {
      if k in keys {
        var i :| 0 <= i < |keys| && keys[i] == k;
        assert pairs[i].0 in PutAll(map[], pairs);
      }
      if k in values {
        var i :| 0 <= i < |pairs| && pairs[i].0 == k;
        assert keys[i] == k;
      }
    }
    ListIsUnique(keys, SortedKeys(values.Keys), values.Keys);
    assert MemberTexts(Object(values), keys) == PairTexts(pairs);
  }

  // ---------------------------------------------------------------- every value has a canonical document

  lemma {:induction false} UnitsFor(text: Text) returns (units: seq<Unit>)
    ensures UnitsOk(units) && AllShortest(units) && UnitsValue(units) == text
  {
    if text == [] {
      units := [];
    } else {
      var others := UnitsFor(text[1..]);
      UnitForIsShortest(text[0]);
      units := [UnitFor(text[0])] + others;
      assert units[1..] == others;
    }
  }

  /** Every value that can be read back has a canonical document that means it. */
  lemma {:induction false} CanonicalExists(v: Value, decimal: Decimal) returns (d: Doc)
    requires Good(v, decimal)
    ensures DocOk(d, decimal) && Canonical(d, decimal) && DocValue(d, decimal) == v
    decreases v, 1
  {
    match v {
      case Null => d := NullDoc;
      case Bool(b) => d := BoolDoc(b);
      case Number(u) =>
        var n := NumeralIs(u);
        d := NumeralDoc(n);
      case String(text) =>
        var units := UnitsFor(text);
        d := StringDoc(units);
      case Array(items) =>
        if items == [] {
          d := EmptyArray([]);
        } else {
          var docs := ItemsFor(v, items, decimal);
          d := ArrayDoc(docs);
        }
      case Object(members) =>
        if members == map[] {
          d := EmptyObject([]);
        } else {
          d := ObjectFor(v, decimal);
        }
    }
  }

  lemma {:induction false} ItemsFor(v: Value, items: seq<Value>, decimal: Decimal) returns (docs: Items)
    requires items != [] && forall i :: 0 <= i < |items| ==> items[i] < v && Good(items[i], decimal)
    ensures ItemsOk(docs, decimal) && CanonicalItems(docs, decimal) && ItemsValue(docs, decimal) == items
    decreases v, 0, |items|
  {
    var d := CanonicalExists(items[0], decimal);
    if |items| == 1 {
      docs := LastItem([], d, []);
    } else {
      var others := ItemsFor(v, items[1..], decimal);
      docs := Item([], d, [], others);
      assert items == [items[0]] + items[1..];
    }
  }

  lemma {:induction false} MembersFor(v: Value, keys: seq<Text>, out: map<Text, Value>, decimal: Decimal)
    returns (docs: Members)
    requires v.Object? && Good(v, decimal) && keys != [] && Ascending(keys)
    requires forall i :: 0 <= i < |keys| ==> keys[i] in v.members && keys[i] !in out
    ensures MembersOk(docs, out, decimal) && CanonicalMembers(docs, out, decimal)
    ensures KeysOf(docs, out, decimal) == keys
    ensures PairsOf(docs, out, decimal) == Pairs(v.members, keys)
    decreases v, 0, |keys|
  {
    var units := UnitsFor(keys[0]);
    var value := v.members[keys[0]];
    var d := CanonicalExists(value, decimal);
    if |keys| == 1 {
      docs := LastMember([], units, [], [], d, []);
      assert Pairs(v.members, keys) == [(keys[0], value)];
    } else {
      forall j | 1 <= j < |keys| ensures keys[j] !in out[keys[0] := value] {
        AscendingDiffers(keys, 0, j);
      }
      var others := MembersFor(v, keys[1..], out[keys[0] := value], decimal);
      docs := Member([], units, [], [], d, [], others);
      FirstPair(v.members, keys);
    }
  }

  lemma FirstPair(members: map<Text, Value>, keys: seq<Text>)
    requires keys != [] && forall k :: k in keys ==> k in members
    ensures keys == [keys[0]] + keys[1..]
    ensures Pairs(members, keys) == [(keys[0], members[keys[0]])] + Pairs(members, keys[1..])
  {}

  lemma ObjectFor(v: Value, decimal: Decimal) returns (d: Doc)
    requires v.Object? && Good(v, decimal) && v.members != map[]
    ensures DocOk(d, decimal) && Canonical(d, decimal) && DocValue(d, decimal) == v
    decreases v, 0
  {
    var keys := SortedKeys(v.members.Keys);
    EmptyExactly(keys, v.members.Keys);
    forall i | 0 <= i < |keys| ensures keys[i] in v.members {
      assert keys[i] in keys;
    }
    var docs := MembersFor(v, keys, map[], decimal);
    d := ObjectDoc(docs);
    PairsMakeTheMap(docs, map[], decimal);
    SortedPairsMakeTheMap(v.members, decimal);
  }

  lemma SortedPairsMakeTheMap(members: map<Text, Value>, decimal: Decimal)
    ensures PutAll(map[], Pairs(members, SortedKeys(members.Keys))) == members
  {
    var keys := SortedKeys(members.Keys);
    var pairs := Pairs(members, keys);
    forall i, j | 0 <= i < j < |pairs| ensures pairs[i].0 != pairs[j].0 {
      AscendingDiffers(keys, i, j);
    }
    PutAllHolds(map[], pairs);
    forall k | k in members ensures k in PutAll(map[], pairs) && PutAll(map[], pairs)[k] == members[k] {
      var i :| 0 <= i < |keys| && keys[i] == k;
      assert pairs[i].0 == k;
    }
  }

  /** The text written for a value is the text of a canonical document that means it, and of every such document. */
  lemma WriteExactly(v: Value, text: Text, decimal: Decimal)
    requires Good(v, decimal)
    ensures text == Write(v) <==>
            exists d :: DocOk(d, decimal) && Canonical(d, decimal) && DocValue(d, decimal) == v && DocText(d, []) == text
  {
    if d :| DocOk(d, decimal) && Canonical(d, decimal) && DocValue(d, decimal) == v && DocText(d, []) == text {
      CanonicalIsWritten(d, decimal);
      assert DocText(d, []) == Write(v) + [];
    }
    if text == Write(v) {
      var d := CanonicalExists(v, decimal);
      CanonicalIsWritten(d, decimal);
      assert DocText(d, []) == Write(v) + [];
    }
  }

  // ---------------------------------------------------------------- one line

  predicate OneLine(text: Text) {
    forall i :: 0 <= i < |text| ==> text[i] >= 0x20
  }

  lemma {:induction false} QuotedIsOneLine(text: Text)
    ensures OneLine(QuoteBody(text))
  {
    if text != [] {
      QuotedIsOneLine(text[1..]);
      DigitValues(text[0] % 16);
      if text[0] < 0x20 {
        DigitValues(text[0] / 16);
      }
    }
  }

  lemma {:induction false} JoinIsOneLine(texts: seq<Text>)
    requires forall i :: 0 <= i < |texts| ==> OneLine(texts[i])
    ensures OneLine(Join(texts))
  {
    if |texts| > 1 {
      JoinIsOneLine(texts[1..]);
    }
  }

  lemma DigitsAreOneLine(s: Text)
    requires AllDigits(s)
    ensures OneLine(s)
  {
    forall i | 0 <= i < |s| ensures s[i] >= 0x20 {
      assert IsDigit(s[i]);
    }
  }

  lemma ExponentIsOneLine(s: Text)
    requires ExponentOk(s)
    ensures OneLine(s)
  {
    if s != [] {
      var signed := s[1..];
      var run := Take(Take(signed, PLUS), MINUS);
      DigitsAreOneLine(run);
      assert |signed| - 2 <= |run| && run == signed[|signed| - |run|..];
      forall i | 0 <= i < |signed| ensures signed[i] >= 0x20 {
        if i >= |signed| - |run| {
          assert signed[i] == run[i - (|signed| - |run|)];
        }
      }
      forall i | 0 <= i < |s| ensures s[i] >= 0x20 {
        if i > 0 {
          assert s[i] == signed[i - 1];
        }
      }
    }
  }

  lemma FractionIsOneLine(s: Text)
    requires FractionOk(s)
    ensures OneLine(s)
  {
    if s != [] {
      DigitsAreOneLine(s[1..]);
      assert s == [s[0]] + s[1..];
    }
  }

  lemma LexemeIsOneLine(u: Text)
    requires IsLexeme(u)
    ensures OneLine(u)
  {
    var n := NumeralIs(u);
    assert OneLine(n.integer) by {
      DigitsAreOneLine(n.integer);
    }
    FractionIsOneLine(n.fraction);
    ExponentIsOneLine(n.exponent);
    NumeralIsOneLine(n);
  }

  lemma NumeralIsOneLine(n: Numeral)
    requires OneLine(n.integer) && OneLine(n.fraction) && OneLine(n.exponent)
    ensures OneLine(NumeralText(n, []))
  {
    var end := n.exponent + [];
    assert OneLine(end);
    assert OneLine(n.fraction + end);
    assert OneLine(n.integer + (n.fraction + end));
  }

  /** No written text has a control character in it, so none has a line break. */
  lemma {:induction false} WriteIsOneLine(v: Value, decimal: Decimal)
    requires Good(v, decimal)
    ensures OneLine(Write(v))
  {
    match v {
      case Number(u) => LexemeIsOneLine(u);
      case String(text) => QuotedIsOneLine(text);
      case Array(items) =>
        forall i | 0 <= i < |items| ensures OneLine(ItemTexts(items)[i]) {
          WriteIsOneLine(items[i], decimal);
        }
        JoinIsOneLine(ItemTexts(items));
      case Object(members) =>
        var keys := SortedKeys(members.Keys);
        forall i | 0 <= i < |keys| ensures OneLine(MemberTexts(v, keys)[i]) {
          WriteIsOneLine(members[keys[i]], decimal);
          QuotedIsOneLine(keys[i]);
        }
        JoinIsOneLine(MemberTexts(v, keys));
      case _ =>
    }
  }
}
