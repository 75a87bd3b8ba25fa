/** Reading back what was written, and what reading accepts. */
module JsonRoundTrip {
  import opened Wrappers
  import opened JsonText
  import opened JsonGrammar

  /** What may follow a value inside a document: nothing, a separator, or space. */
  predicate Ends(rest: Text) {
    rest == [] || rest[0] == COMMA || rest[0] == RBRACKET || rest[0] == RBRACE || IsSpace(rest[0])
  }

  /** The whole text is one number lexeme. */
  predicate IsLexeme(u: Text) {
    Scan(u) == Ok((), [])
  }

  /** Decimal texts are lexemes that construct the number they came from. */
  ghost predicate Good(v: Value, decimal: Decimal) {
    match v
    case Number(u) => IsLexeme(u) && decimal(u) == Some(u)
    case Array(items) => forall i :: 0 <= i < |items| ==> Good(items[i], decimal)
    case Object(members) => forall k :: k in members ==> Good(members[k], decimal)
    case _ => true
  }

  ghost predicate RoundTrips(v: Value, decimal: Decimal) {
    forall rest :: Ends(rest) ==> ValueAt(Write(v) + rest, decimal) == Ok(v, rest)
  }

  // ---------------------------------------------------------------- numbers

  /** Nothing that may follow a value continues a number. */
  lemma EndsStopNumbers(rest: Text)
    requires Ends(rest) && rest != []
    ensures !IsDigit(rest[0])
    ensures rest[0] !in {ZERO, MINUS, PLUS, DOT, LOWER_E, UPPER_E}
  {}

  lemma {:induction false} SkipDigitsExtends(s: Text, rest: Text)
    requires Ends(rest)
    ensures SkipDigits(s + rest) == SkipDigits(s) + rest
  {
    if s == [] {
      assert s + rest == rest;
      if rest != [] {
        EndsStopNumbers(rest);
      }
    } else {
      assert (s + rest)[1..] == s[1..] + rest;
      SkipDigitsExtends(s[1..], rest);
    }
  }

  lemma DigitsExtend(s: Text, rest: Text)
    requires Ends(rest) && Digits(s).Ok?
    ensures Digits(s + rest) == Ok((), Digits(s).rest + rest)
  {
    SkipDigitsExtends(s, rest);
    assert |SkipDigits(s)| < |s|;
  }

  lemma TakeExtends(s: Text, rest: Text, c: CodeUnit)
    requires Ends(rest) && (c == MINUS || c == PLUS)
    ensures Take(s + rest, c) == Take(s, c) + rest
  {
    if s == [] {
      assert s + rest == rest;
    } else {
      assert (s + rest)[1..] == s[1..] + rest;
    }
  }

  lemma StartsExtends(s: Text, rest: Text, c: CodeUnit)
    requires Ends(rest) && (c == ZERO || c == DOT || c == LOWER_E || c == UPPER_E)
    ensures Starts(s + rest, c) == Starts(s, c)
    ensures Starts(s, c) ==> (s + rest)[1..] == s[1..] + rest
  {
    if s == [] {
      assert s + rest == rest;
      if rest != [] {
        EndsStopNumbers(rest);
      }
    }
  }

  lemma IntegerPartExtends(s: Text, rest: Text)
    requires Ends(rest) && IntegerPart(s).Ok?
    ensures IntegerPart(s + rest) == Ok((), IntegerPart(s).rest + rest)
  {
    var unsigned := Take(s, MINUS);
    TakeExtends(s, rest, MINUS);
    StartsExtends(unsigned, rest, ZERO);
    if !Starts(unsigned, ZERO) {
      DigitsExtend(unsigned, rest);
    }
  }

  lemma FractionPartExtends(s: Text, rest: Text)
    requires Ends(rest) && FractionPart(s).Ok?
    ensures FractionPart(s + rest) == Ok((), FractionPart(s).rest + rest)
  {
    StartsExtends(s, rest, DOT);
    if Starts(s, DOT) {
      DigitsExtend(s[1..], rest);
    }
  }

  lemma ExponentPartExtends(s: Text, rest: Text)
    requires Ends(rest) && ExponentPart(s).Ok?
    ensures ExponentPart(s + rest) == Ok((), ExponentPart(s).rest + rest)
  {
    StartsExtends(s, rest, LOWER_E);
    StartsExtends(s, rest, UPPER_E);
    if Starts(s, LOWER_E) || Starts(s, UPPER_E) {
      TakeExtends(s[1..], rest, PLUS);
      TakeExtends(Take(s[1..], PLUS), rest, MINUS);
      DigitsExtend(Take(Take(s[1..], PLUS), MINUS), rest);
    }
  }

  /** Maximal munch stops where the lexeme ended. */
  lemma LexemeEndsThere(u: Text, rest: Text)
    requires IsLexeme(u) && Ends(rest)
    ensures Scan(u + rest) == Ok((), rest)
  {
    IntegerPartExtends(u, rest);
    var fraction := IntegerPart(u).rest;
    FractionPartExtends(fraction, rest);
    ExponentPartExtends(FractionPart(fraction).rest, rest);
    assert [] + rest == rest;
  }

  lemma LexemeStart(u: Text)
    requires IsLexeme(u)
    ensures u != [] && (u[0] == MINUS || IsDigit(u[0]))
  {
    if u != [] && u[0] != MINUS && u[0] != ZERO {
      assert SkipDigits(u) != u;
    }
  }

  lemma NumberReads(u: Text, rest: Text, decimal: Decimal)
    requires IsLexeme(u) && decimal(u) == Some(u) && Ends(rest)
    ensures NumberAt(u + rest, decimal) == Ok(Number(u), rest)
  {
    LexemeEndsThere(u, rest);
    assert (u + rest)[..|u + rest| - |rest|] == u;
  }

  lemma NumberStart(c: CodeUnit)
    requires c == MINUS || IsDigit(c)
    ensures !IsSpace(c) && c !in {LBRACE, LBRACKET, QUOTE, TRUE[0], FALSE[0], NULL[0]}
  {}

  /** A text that starts like a number is read as one. */
  lemma ReadAsNumber(s: Text, decimal: Decimal)
    requires s != [] && (s[0] == MINUS || IsDigit(s[0]))
    ensures ValueAt(s, decimal) == NumberAt(s, decimal)
  {
    NumberStart(s[0]);
    assert Space(s) == s;
  }

  lemma NumberRoundTrips(u: Text, decimal: Decimal)
    requires IsLexeme(u) && decimal(u) == Some(u)
    ensures RoundTrips(Number(u), decimal)
  {
    LexemeStart(u);
    forall rest | Ends(rest)
      ensures ValueAt(u + rest, decimal) == Ok(Number(u), rest)
    {
      assert (u + rest)[0] == u[0];
      NumberReads(u, rest, decimal);
      ReadAsNumber(u + rest, decimal);
    }
  }

  // ---------------------------------------------------------------- strings

  lemma ControlEscape(c: CodeUnit, tail: Text)
    requires c < 0x20
    ensures UnicodeAt([ZERO, ZERO, LowerHex(c / 16), LowerHex(c % 16)] + tail) == Ok(c, tail)
  {
    var high, low := LowerHex(c / 16), LowerHex(c % 16);
    var s := [ZERO, ZERO, high, low] + tail;
    assert s[1..] == [ZERO, high, low] + tail;
    assert s[1..][1..] == [high, low] + tail;
    assert s[1..][1..][1..] == [low] + tail;
    assert s[1..][1..][1..][1..] == tail;
    assert HexValue(high) == c / 16 && HexValue(low) == c % 16;
    assert HexDigits(s, 4, 0) == HexDigits(s[1..], 3, 0) == HexDigits(s[1..][1..], 2, 0);
    assert HexDigits(s[1..][1..], 2, 0) == HexDigits([low] + tail, 1, c / 16);
    assert HexDigits([low] + tail, 1, c / 16) == HexDigits(tail, 0, c / 16 * 16 + c % 16);
  }

  lemma UnitRoundTrips(c: CodeUnit, tail: Text, out: Text)
    ensures StringBody(Escape(c) + tail, out) == StringBody(tail, out + [c])
  {
    var s := Escape(c) + tail;
    if |Escape(c)| == 1 {
      assert s[1..] == tail;
    } else if |Escape(c)| == 2 {
      assert s[1..][1..] == tail;
      assert EscapeAt(s[1..]) == Ok(c, tail);
    } else {
      ControlEscape(c, tail);
      assert s[1..][1..] == [ZERO, ZERO, LowerHex(c / 16), LowerHex(c % 16)] + tail;
      assert EscapeAt(s[1..]) == Ok(c, tail);
    }
  }

  lemma {:induction false} QuotedRoundTrips(text: Text, rest: Text, out: Text)
    ensures StringBody(QuoteBody(text) + [QUOTE] + rest, out) == Ok(out + text, rest)
  {
    if text == [] {
      assert ([QUOTE] + rest)[1..] == rest;
      assert QuoteBody(text) + [QUOTE] + rest == [QUOTE] + rest;
      assert out + text == out;
    } else {
      var tail := QuoteBody(text[1..]) + [QUOTE] + rest;
      assert QuoteBody(text) + [QUOTE] + rest == Escape(text[0]) + tail;
      UnitRoundTrips(text[0], tail, out);
      QuotedRoundTrips(text[1..], rest, out + [text[0]]);
      assert out + [text[0]] + text[1..] == out + text;
    }
  }

  lemma StringRoundTrips(text: Text, rest: Text)
    ensures StringAt(Quote(text) + rest) == Ok(text, rest)
    ensures Starts(Quote(text) + rest, QUOTE)
  {
    var s := Quote(text) + rest;
    assert s[1..] == QuoteBody(text) + [QUOTE] + rest;
    QuotedRoundTrips(text, rest, []);
    assert [] + text == text;
  }

  // ---------------------------------------------------------------- arrays

  lemma WriteStart(v: Value, decimal: Decimal)
    requires Good(v, decimal)
    ensures Write(v) != []
    ensures !IsSpace(Write(v)[0]) && Write(v)[0] != RBRACKET
  {
    if v.Number? {
      LexemeStart(v.decimal);
    }
  }

  /** The items' text, read after `out`, gives the whole array back. */
  ghost predicate ReadsItems(items: seq<Value>, out: seq<Value>, rest: Text, decimal: Decimal) {
    ItemsAt(Join(ItemTexts(items)) + [RBRACKET] + rest, out, decimal) == Ok(Array(out + items), rest)
  }

  lemma {:induction false} ItemsRoundTrip(items: seq<Value>, out: seq<Value>, rest: Text, decimal: Decimal)
    requires items != [] && forall i :: 0 <= i < |items| ==> RoundTrips(items[i], decimal)
    ensures ReadsItems(items, out, rest, decimal)
  {
    assert RoundTrips(items[0], decimal);
    if |items| == 1 {
      LastItem(items, out, rest, decimal);
    } else {
      ItemsRoundTrip(items[1..], out + [items[0]], rest, decimal);
      ItemBeforeOthers(items, out, rest, decimal);
    }
  }

  lemma LastItem(items: seq<Value>, out: seq<Value>, rest: Text, decimal: Decimal)
    requires |items| == 1 && RoundTrips(items[0], decimal)
    ensures ReadsItems(items, out, rest, decimal)
  {
    JoinedItems(items, rest);
    var tail := [RBRACKET] + rest;
    FirstItem(items[0], tail, out, decimal);
    assert tail[1..] == rest;
    assert out + [items[0]] == out + items;
  }

  lemma ItemBeforeOthers(items: seq<Value>, out: seq<Value>, rest: Text, decimal: Decimal)
    requires |items| > 1 && RoundTrips(items[0], decimal)
    requires ReadsItems(items[1..], out + [items[0]], rest, decimal)
    ensures ReadsItems(items, out, rest, decimal)
  {
    JoinedItems(items, rest);
    var others := Join(ItemTexts(items[1..])) + [RBRACKET] + rest;
    var tail := [COMMA] + others;
    FirstItem(items[0], tail, out, decimal);
    assert tail[1..] == others;
    assert out + [items[0]] + items[1..] == out + items;
  }

  lemma JoinedItems(items: seq<Value>, rest: Text)
    requires items != []
    ensures Join(ItemTexts(items)) + [RBRACKET] + rest ==
            Write(items[0]) + (if items[1..] == [] then [RBRACKET] + rest
                               else [COMMA] + (Join(ItemTexts(items[1..])) + [RBRACKET] + rest))
  {
    var texts := ItemTexts(items);
    assert texts[1..] == ItemTexts(items[1..]);
    assert texts[0] == Write(items[0]);
  }

  /** The loop body on one written item followed by `tail`. */
  lemma FirstItem(item: Value, tail: Text, out: seq<Value>, decimal: Decimal)
    requires RoundTrips(item, decimal) && (Starts(tail, RBRACKET) || Starts(tail, COMMA))
    ensures ItemsAt(Write(item) + tail, out, decimal) ==
            if Starts(tail, RBRACKET) then Ok(Array(out + [item]), tail[1..])
            else ItemsAt(tail[1..], out + [item], decimal)
  {
    assert ValueAt(Write(item) + tail, decimal) == Ok(item, tail);
    assert Space(tail) == tail;
  }

  lemma ArrayRoundTrips(items: seq<Value>, decimal: Decimal)
    requires forall i :: 0 <= i < |items| ==> Good(items[i], decimal) && RoundTrips(items[i], decimal)
    ensures RoundTrips(Array(items), decimal)
  {
    forall rest | Ends(rest)
      ensures ValueAt(Write(Array(items)) + rest, decimal) == Ok(Array(items), rest)
    {
      if items == [] {
        EmptyArrayReads(rest, decimal);
      } else {
        ArrayTextReads(items, rest, decimal);
      }
    }
  }

  lemma EmptyArrayReads(rest: Text, decimal: Decimal)
    ensures ValueAt(Write(Array([])) + rest, decimal) == Ok(Array([]), rest)
  {
    var s := Write(Array([])) + rest;
    assert s == [LBRACKET, RBRACKET] + rest;
    assert Space(s) == s;
    assert s[1..] == [RBRACKET] + rest;
    assert s[1..][1..] == rest;
  }

  lemma ArrayTextReads(items: seq<Value>, rest: Text, decimal: Decimal)
    requires items != [] && Good(items[0], decimal) && forall i :: 0 <= i < |items| ==> RoundTrips(items[i], decimal)
    ensures ValueAt(Write(Array(items)) + rest, decimal) == Ok(Array(items), rest)
  {
    var s := Write(Array(items)) + rest;
    var inside := Join(ItemTexts(items)) + [RBRACKET] + rest;
    assert s == [LBRACKET] + inside;
    assert s[1..] == inside;
    assert Space(s) == s;
    assert Space(inside) == inside && !Starts(inside, RBRACKET) by {
      WriteStart(items[0], decimal);
      JoinStart(ItemTexts(items));
    }
    ItemsRoundTrip(items, [], rest, decimal);
    assert [] + items == items;
  }

  lemma JoinStart(texts: seq<Text>)
    requires texts != [] && texts[0] != []
    ensures Join(texts) != [] && Join(texts)[0] == texts[0][0]
  {}

  // ---------------------------------------------------------------- objects

  type Member = (Text, Value)

  ghost function PairTexts(pairs: seq<Member>): (texts: seq<Text>)
    ensures |texts| == |pairs|
  {
    seq(|pairs|, i requires 0 <= i < |pairs| => Quote(pairs[i].0) + [COLON] + Write(pairs[i].1))
  }

  /** Any list of members as an object's text, repeats included. */
  ghost function ObjectText(pairs: seq<Member>): Text {
    [LBRACE] + Join(PairTexts(pairs)) + [RBRACE]
  }

  function PutAll(out: map<Text, Value>, pairs: seq<Member>): map<Text, Value>
    decreases |pairs|
  {
    if pairs == [] then out else PutAll(out[pairs[0].0 := pairs[0].1], pairs[1..])
  }

  /** No put meets a non-null value. */
  predicate NoClash(out: map<Text, Value>, pairs: seq<Member>)
    decreases |pairs|
  {
    pairs == [] || (!Clashes(out, pairs[0].0) && NoClash(out[pairs[0].0 := pairs[0].1], pairs[1..]))
  }

  /** The members collected, or a duplicate-key failure. */
  ghost predicate ReadsMembers(p: Parsed<Value>, out: map<Text, Value>, pairs: seq<Member>, rest: Text) {
    if NoClash(out, pairs) then p == Ok(Object(PutAll(out, pairs)), rest) else p.Fail? && p.error.DuplicateKey?
  }

  lemma {:induction false} MembersRoundTrip(pairs: seq<Member>, out: map<Text, Value>, rest: Text, decimal: Decimal)
    requires pairs != [] && forall i :: 0 <= i < |pairs| ==> RoundTrips(pairs[i].1, decimal)
    ensures ReadsMembers(MembersAt(Join(PairTexts(pairs)) + [RBRACE] + rest, out, decimal), out, pairs, rest)
  {
    var texts := PairTexts(pairs);
    var (key, value) := pairs[0];
    var more := pairs[1..];
    assert RoundTrips(value, decimal);
    assert NoClash(out, pairs) <==> !Clashes(out, key) && NoClash(out[key := value], more);
    assert PutAll(out, pairs) == PutAll(out[key := value], more);
    if more == [] {
      var tail := [RBRACE] + rest;
      assert Join(texts) + [RBRACE] + rest == texts[0] + tail;
      FirstMember(key, value, tail, out, decimal);
      assert tail[1..] == rest;
    } else {
      assert texts[1..] == PairTexts(more);
      var tail := [COMMA] + (Join(texts[1..]) + [RBRACE] + rest);
      assert Join(texts) + [RBRACE] + rest == texts[0] + tail;
      FirstMember(key, value, tail, out, decimal);
      assert tail[1..] == Join(PairTexts(more)) + [RBRACE] + rest;
      MembersRoundTrip(more, out[key := value], rest, decimal);
    }
  }

  /** The key and the colon of one written member followed by `tail`. */
  lemma FirstKey(key: Text, value: Value, tail: Text)
    ensures ReadsKey(Quote(key) + [COLON] + Write(value) + tail, key, [COLON] + Write(value) + tail)
  {
    var colon := [COLON] + Write(value) + tail;
    assert Quote(key) + [COLON] + Write(value) + tail == Quote(key) + colon;
    StringRoundTrips(key, colon);
  }

  lemma TailOf(c: CodeUnit, s: Text, tail: Text)
    ensures ([c] + s + tail)[1..] == s + tail
  {}

  lemma FirstValue(value: Value, tail: Text, decimal: Decimal)
    requires RoundTrips(value, decimal) && Ends(tail)
    ensures ValueAt(([COLON] + Write(value) + tail)[1..], decimal) == Ok(value, tail)
  {
    TailOf(COLON, Write(value), tail);
  }

  /** The loop body on one written member followed by `tail`. */
  lemma FirstMember(key: Text, value: Value, tail: Text, out: map<Text, Value>, decimal: Decimal)
    requires RoundTrips(value, decimal) && (Starts(tail, RBRACE) || Starts(tail, COMMA))
    ensures var p := MembersAt(Quote(key) + [COLON] + Write(value) + tail, out, decimal);
            p == if Clashes(out, key) then Fail(DuplicateKey(key), tail)
                 else if Starts(tail, RBRACE) then Ok(Object(out[key := value]), tail[1..])
                 else MembersAt(tail[1..], out[key := value], decimal)
  {
    FirstKey(key, value, tail);
    FirstValue(value, tail, decimal);
    AfterKey(Quote(key) + [COLON] + Write(value) + tail, key, [COLON] + Write(value) + tail, value, tail, out, decimal);
  }

  predicate ReadsKey(s: Text, key: Text, colon: Text) {
    StringAt(Space(s)) == Ok(key, colon) && Starts(colon, COLON)
  }

  lemma AfterKey(s: Text, key: Text, colon: Text, value: Value, tail: Text, out: map<Text, Value>, decimal: Decimal)
    requires ReadsKey(s, key, colon) && ValueAt(colon[1..], decimal) == Ok(value, tail)
    requires Starts(tail, RBRACE) || Starts(tail, COMMA)
    ensures MembersAt(s, out, decimal) ==
            if Clashes(out, key) then Fail(DuplicateKey(key), tail)
            else if Starts(tail, RBRACE) then Ok(Object(out[key := value]), tail[1..])
            else MembersAt(tail[1..], out[key := value], decimal)
  {
    assert Space(colon) == colon;
    assert Space(tail) == tail;
  }

  lemma ObjectTextReads(pairs: seq<Member>, rest: Text, decimal: Decimal)
    requires forall i :: 0 <= i < |pairs| ==> RoundTrips(pairs[i].1, decimal)
    ensures ReadsMembers(ValueAt(ObjectText(pairs) + rest, decimal), map[], pairs, rest)
  {
    var s := ObjectText(pairs) + rest;
    var inside := Join(PairTexts(pairs)) + [RBRACE] + rest;
    assert s[1..] == inside;
    assert Space(s) == s;
    if pairs == [] {
      assert inside == [RBRACE] + rest;
      assert inside[1..] == rest;
    } else {
      JoinStart(PairTexts(pairs));
      assert inside[0] == QUOTE;
      MembersRoundTrip(pairs, map[], rest, decimal);
    }
  }

  /**
   * The duplicate test, exactly: any list of readable members is accepted unless a member with a value other
   * than null is followed by one with the same key; the last value of a key wins.
   */
  lemma DuplicatesExactly(pairs: seq<Member>, decimal: Decimal)
    requires forall i :: 0 <= i < |pairs| ==> RoundTrips(pairs[i].1, decimal)
    ensures var p := Parse(ObjectText(pairs), decimal);
            if exists i, j :: 0 <= i < j < |pairs| && pairs[i].0 == pairs[j].0 && pairs[i].1 != Null
            then p.Fail? && p.error.DuplicateKey?
            else p == Ok(Object(PutAll(map[], pairs)), [])
  {
    NoClashExactly(map[], pairs);
    ObjectTextReads(pairs, [], decimal);
    assert ObjectText(pairs) + [] == ObjectText(pairs);
  }

  lemma {:induction false} NoClashExactly(out: map<Text, Value>, pairs: seq<Member>)
    ensures NoClash(out, pairs) <==>
            && (forall j :: 0 <= j < |pairs| ==> !Clashes(out, pairs[j].0))
            && (forall i, j :: 0 <= i < j < |pairs| ==> pairs[i].0 != pairs[j].0 || pairs[i].1 == Null)
    decreases |pairs|
  {
    if pairs != [] {
      var (key, value) := pairs[0];
      var more := pairs[1..];
      NoClashExactly(out[key := value], more);
      assert forall j :: 0 <= j < |more| ==> more[j] == pairs[j + 1];
      assert forall j :: 1 <= j < |pairs| ==> pairs[j] == more[j - 1];
      if !Clashes(out, key) {
        forall j | 1 <= j < |pairs|
          ensures Clashes(out[key := value], pairs[j].0) <==>
                  (if pairs[j].0 == key then value != Null else Clashes(out, pairs[j].0))
        {}
      }
    }
  }

  // ---------------------------------------------------------------- the round trip

  ghost function Pairs(members: map<Text, Value>, keys: seq<Text>): (pairs: seq<Member>)
    requires forall k :: k in keys ==> k in members
    ensures |pairs| == |keys|
  {
    seq(|keys|, i requires 0 <= i < |keys| => (keys[i], members[keys[i]]))
  }

  lemma {:induction false} PutAllHolds(out: map<Text, Value>, pairs: seq<Member>)
    requires forall i, j :: 0 <= i < j < |pairs| ==> pairs[i].0 != pairs[j].0
    ensures forall k :: k in PutAll(out, pairs) <==> k in out || exists i :: 0 <= i < |pairs| && pairs[i].0 == k
    ensures forall i :: 0 <= i < |pairs| ==> pairs[i].0 in PutAll(out, pairs) && PutAll(out, pairs)[pairs[i].0] == pairs[i].1
    ensures forall k :: k in out && (forall i :: 0 <= i < |pairs| ==> pairs[i].0 != k) ==>
                          k in PutAll(out, pairs) && PutAll(out, pairs)[k] == out[k]
    decreases |pairs|
  {
    if pairs != [] {
      var more := pairs[1..];
      assert forall i :: 0 <= i < |more| ==> more[i] == pairs[i + 1];
      assert forall i :: 1 <= i < |pairs| ==> pairs[i] == more[i - 1];
      PutAllHolds(out[pairs[0].0 := pairs[0].1], more);
    }
  }

  lemma ObjectRoundTrips(members: map<Text, Value>, decimal: Decimal)
    requires forall k :: k in members ==> RoundTrips(members[k], decimal)
    ensures RoundTrips(Object(members), decimal)
  {
    var v := Object(members);
    var keys := SortedKeys(members.Keys);
    var pairs := Pairs(members, keys);
    assert MemberTexts(v, keys) == PairTexts(pairs);
    assert Write(v) == ObjectText(pairs);
    forall i, j | 0 <= i < j < |pairs|
      ensures pairs[i].0 != pairs[j].0
    {
      assert Less(keys[i], keys[j]);
      LessIrreflexive(keys[i]);
    }
    PutAllHolds(map[], pairs);
    NoClashExactly(map[], pairs);
    assert PutAll(map[], pairs) == members by {
      forall k
        ensures k in PutAll(map[], pairs) <==> k in members
        ensures k in members ==> PutAll(map[], pairs)[k] == members[k]
      {
        if k in members {
          var i :| 0 <= i < |keys| && keys[i] == k;
          assert pairs[i].0 == k;
        }
      }
    }
    forall rest | Ends(rest)
      ensures ValueAt(Write(v) + rest, decimal) == Ok(v, rest)
    {
      ObjectTextReads(pairs, rest, decimal);
    }
  }

  lemma {:induction false} ValueRoundTrips(v: Value, decimal: Decimal)
    requires Good(v, decimal)
    ensures RoundTrips(v, decimal)
  {
    match v {
      case Null => LiteralRoundTrips(v, decimal);
      case Bool(b) => LiteralRoundTrips(v, decimal);
      case Number(u) => NumberRoundTrips(u, decimal);
      case String(text) =>
        forall rest | Ends(rest)
          ensures ValueAt(Write(v) + rest, decimal) == Ok(v, rest)
        {
          StringRoundTrips(text, rest);
          assert Space(Write(v) + rest) == Write(v) + rest;
        }
      case Array(items) =>
        forall i | 0 <= i < |items|
          ensures RoundTrips(items[i], decimal)
        {
          ValueRoundTrips(items[i], decimal);
        }
        ArrayRoundTrips(items, decimal);
      case Object(members) =>
        forall k | k in members
          ensures RoundTrips(members[k], decimal)
        {
          ValueRoundTrips(members[k], decimal);
        }
        ObjectRoundTrips(members, decimal);
    }
  }

  lemma LiteralRoundTrips(v: Value, decimal: Decimal)
    requires v.Null? || v.Bool?
    ensures RoundTrips(v, decimal)
  {
    forall rest | Ends(rest)
      ensures ValueAt(Write(v) + rest, decimal) == Ok(v, rest)
    {
      var s := Write(v) + rest;
      assert Space(s) == s;
      assert s[|Write(v)|..] == rest;
      assert Write(v) <= s;
    }
  }

  /** Parsing what was written consumes all of it and gives the value back. */
  lemma ParseInvertsWrite(v: Value, decimal: Decimal)
    requires Good(v, decimal)
    ensures Parse(Write(v), decimal) == Ok(v, [])
  {
    ValueRoundTrips(v, decimal);
    assert Write(v) + [] == Write(v);
    assert ValueAt(Write(v) + [], decimal) == Ok(v, []);
  }

  // ---------------------------------------------------------------- what is accepted

  /** `BigDecimal.toString` gives a lexeme that constructs the same number. */
  ghost predicate Lawful(decimal: Decimal) {
    forall t :: decimal(t).Some? ==> IsLexeme(decimal(t).value) && decimal(decimal(t).value) == decimal(t)
  }

  ghost predicate GoodResult(p: Parsed<Value>, decimal: Decimal) {
    p.Ok? ==> Good(p.value, decimal)
  }

  lemma {:induction false} ValueIsGood(text: Text, decimal: Decimal)
    requires Lawful(decimal)
    ensures GoodResult(ValueAt(text, decimal), decimal)
    decreases |text|, 1
  {
    var s := Space(text);
    if s != [] && s[0] == LBRACE {
      var inside := Space(s[1..]);
      if !Starts(inside, RBRACE) {
        MembersAreGood(inside, map[], decimal);
      }
    } else if s != [] && s[0] == LBRACKET {
      var inside := Space(s[1..]);
      if !Starts(inside, RBRACKET) {
        ItemsAreGood(inside, [], decimal);
      }
    }
  }

  lemma {:induction false} ItemsAreGood(s: Text, out: seq<Value>, decimal: Decimal)
    requires Lawful(decimal) && forall i :: 0 <= i < |out| ==> Good(out[i], decimal)
    ensures GoodResult(ItemsAt(s, out, decimal), decimal)
    decreases |s|, 2
  {
    ValueIsGood(s, decimal);
    var item := ValueAt(s, decimal);
    if item.Ok? && Starts(Space(item.rest), COMMA) {
      ItemsAreGood(Space(item.rest)[1..], out + [item.value], decimal);
    }
  }

  lemma {:induction false} MembersAreGood(s: Text, out: map<Text, Value>, decimal: Decimal)
    requires Lawful(decimal) && forall k :: k in out ==> Good(out[k], decimal)
    ensures GoodResult(MembersAt(s, out, decimal), decimal)
    decreases |s|, 2
  {
    var key := StringAt(Space(s));
    if key.Ok? && Starts(Space(key.rest), COLON) {
      var after := Space(key.rest)[1..];
      ValueIsGood(after, decimal);
      var value := ValueAt(after, decimal);
      if value.Ok? && !Clashes(out, key.value) && Starts(Space(value.rest), COMMA) {
        MembersAreGood(Space(value.rest)[1..], out[key.value := value.value], decimal);
      }
    }
  }

  /** One pass normalizes: whatever was accepted, writing it gives a text that reads and writes as itself. */
  lemma WriteIsNormalForm(source: Text, decimal: Decimal)
    requires Lawful(decimal) && Parse(source, decimal).Ok?
    ensures var written := Write(Parse(source, decimal).value);
            Parse(written, decimal) == Ok(Parse(source, decimal).value, [])
            && Write(Parse(written, decimal).value) == written
  {
    ValueIsGood(source, decimal);
    ParseInvertsWrite(Parse(source, decimal).value, decimal);
  }
}
