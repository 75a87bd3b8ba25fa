/** The grammar is unambiguous: a text has one document. */
module JsonUnique {
  import opened JsonText
  import opened JsonGrammar
  import opened JsonRoundTrip
  import opened JsonSyntax

  // ---------------------------------------------------------------- one document per text

  /** Well formed, whatever the decimal constructor says and whichever keys repeat. */
  predicate Shaped(d: Doc)
    decreases d
  {
    match d
    case NumeralDoc(n) => NumeralOk(n)
    case StringDoc(units) => UnitsOk(units)
    case EmptyArray(space) => AllSpace(space)
    case ArrayDoc(items) => ItemsShaped(items)
    case EmptyObject(space) => AllSpace(space)
    case ObjectDoc(members) => MembersShaped(members)
    case _ => true
  }

  predicate ItemsShaped(items: Items)
    decreases items
  {
    AllSpace(items.before) && Shaped(items.doc) && AllSpace(items.after) && (items.Item? ==> ItemsShaped(items.others))
  }

  predicate MembersShaped(members: Members)
    decreases members
  {
    && AllSpace(members.beforeKey) && UnitsOk(members.key) && AllSpace(members.afterKey)
    && AllSpace(members.before) && Shaped(members.doc) && AllSpace(members.after)
    && (members.Member? ==> MembersShaped(members.others))
  }

  lemma {:induction false} OkIsShaped(d: Doc, decimal: Decimal)
    requires DocOk(d, decimal)
    ensures Shaped(d)
    decreases d
  {
    match d {
      case ArrayDoc(items) => ItemsOkShaped(items, decimal);
      case ObjectDoc(members) => MembersOkShaped(members, map[], decimal);
      case _ =>
    }
  }

  lemma {:induction false} ItemsOkShaped(items: Items, decimal: Decimal)
    requires ItemsOk(items, decimal)
    ensures ItemsShaped(items)
    decreases items
  {
    OkIsShaped(items.doc, decimal);
    if items.Item? {
      ItemsOkShaped(items.others, decimal);
    }
  }

  lemma {:induction false} MembersOkShaped(members: Members, out: map<Text, Value>, decimal: Decimal)
    requires MembersOk(members, out, decimal)
    ensures MembersShaped(members)
    decreases members
  {
    OkIsShaped(members.doc, decimal);
    if members.Member? {
      MembersOkShaped(members.others, out[UnitsValue(members.key) := DocValue(members.doc, decimal)], decimal);
    }
  }

  /** The unit a shaped document starts with tells its kind. */
  lemma ShapedStart(d: Doc, tail: Text)
    requires Shaped(d)
    ensures var s := DocText(d, tail);
            && s != [] && !IsSpace(s[0]) && s[0] != RBRACKET && s[0] != RBRACE
            && (d.NumeralDoc? <==> s[0] == MINUS || IsDigit(s[0]))
            && (d.NullDoc? <==> s[0] == NULL[0])
            && (d == BoolDoc(true) <==> s[0] == TRUE[0])
            && (d == BoolDoc(false) <==> s[0] == FALSE[0])
            && (d.StringDoc? <==> s[0] == QUOTE)
            && (d.EmptyArray? || d.ArrayDoc? <==> s[0] == LBRACKET)
            && (d.EmptyObject? || d.ObjectDoc? <==> s[0] == LBRACE)
  {
    if d.NumeralDoc? {
      NumeralStart(d.numeral, tail);
      NumberStart(DocText(d, tail)[0]);
    }
    NoDigits();
  }

  lemma NoDigits()
    ensures !IsDigit(QUOTE) && !IsDigit(LBRACE) && !IsDigit(LBRACKET) && !IsDigit(RBRACE) && !IsDigit(RBRACKET)
    ensures !IsDigit(NULL[0]) && !IsDigit(TRUE[0]) && !IsDigit(FALSE[0]) && !IsDigit(MINUS)
  {}

  lemma CutSame(a: Text, b: Text, s: Text, t: Text)
    requires a + s == b + t && |s| == |t|
    ensures a == b && s == t
  {
    assert a == (a + s)[..|a|] && b == (b + t)[..|b|];
    assert s == (a + s)[|a|..] && t == (b + t)[|b|..];
  }

  /** Space before text that starts with none is determined. */
  lemma SpaceSame(a: Text, b: Text, s: Text, t: Text)
    requires AllSpace(a) && AllSpace(b) && a + s == b + t
    requires s != [] && t != [] && !IsSpace(s[0]) && !IsSpace(t[0])
    ensures a == b && s == t
  {
    SpaceSkipped(a, s);
    SpaceSkipped(b, t);
    CutSame(a, b, s, t);
  }

  lemma SignSame(m: Numeral, n: Numeral, s: Text, t: Text)
    requires NumeralOk(m) && NumeralOk(n) && NumeralText(m, s) == NumeralText(n, t)
    ensures m.minus == n.minus
    ensures m.integer + (m.fraction + (m.exponent + s)) == n.integer + (n.fraction + (n.exponent + t))
  {
    MarksAreNoDigits();
    var u, v := m.integer + (m.fraction + (m.exponent + s)), n.integer + (n.fraction + (n.exponent + t));
    assert u[0] == m.integer[0] && v[0] == n.integer[0];
    assert NumeralText(m, s)[0] == if m.minus then MINUS else u[0];
    assert NumeralText(n, t)[0] == if n.minus then MINUS else v[0];
    if m.minus {
      CutSame([MINUS], [MINUS], u, v);
    } else {
      assert [] + u == u && [] + v == v;
    }
  }

  /** What follows the integer part of a numeral does not continue it; likewise the fraction. */
  lemma PartsEnd(n: Numeral, tail: Text)
    requires NumeralOk(n) && Ends(tail)
    ensures var afterFraction := n.exponent + tail;
            var afterInteger := n.fraction + afterFraction;
            && (afterInteger == [] || !IsDigit(afterInteger[0]))
            && (afterFraction == [] || (afterFraction[0] != DOT && !IsDigit(afterFraction[0])))
  {
    MarksAreNoDigits();
    if tail != [] {
      EndsStopNumbers(tail);
    }
    var afterFraction := n.exponent + tail;
    assert n.exponent != [] ==> afterFraction[0] == n.exponent[0];
    assert n.exponent == [] ==> afterFraction == tail;
    var afterInteger := n.fraction + afterFraction;
    assert n.fraction != [] ==> afterInteger[0] == n.fraction[0];
    assert n.fraction == [] ==> afterInteger == afterFraction;
  }

  lemma NumeralSame(m: Numeral, s: Text, n: Numeral, t: Text)
    requires NumeralOk(m) && NumeralOk(n) && Ends(s) && Ends(t) && NumeralText(m, s) == NumeralText(n, t)
    ensures m == n && s == t
  {
    ScanReads(m, s);
    ScanReads(n, t);
    SignSame(m, n, s, t);
    PartsEnd(m, s);
    PartsEnd(n, t);
    var sign := if m.minus then [MINUS] else [];
    var mf, nf := m.exponent + s, n.exponent + t;
    var mi, ni := m.fraction + mf, n.fraction + nf;
    IntegerReads(m.minus, m.integer, mi);
    IntegerReads(n.minus, n.integer, ni);
    CutSame(m.integer, n.integer, mi, ni);
    FractionReads(m.fraction, mf);
    FractionReads(n.fraction, nf);
    CutSame(m.fraction, n.fraction, mf, nf);
    CutSame(m.exponent, n.exponent, s, t);
  }

  lemma UnitSame(u: Unit, s: Text, v: Unit, t: Text)
    requires UnitOk(u) && UnitOk(v) && UnitText(u, s) == UnitText(v, t)
    ensures u == v && s == t
  {
    var a, b := UnitText(u, s), UnitText(v, t);
    assert a[0] == b[0];
    if u.Plain? {
      CutSame([a[0]], [b[0]], s, t);
    } else {
      assert a[1] == b[1];
      assert a[1..] == b[1..];
      match u {
        case Short(letter) =>
          assert a[1..] == [letter] + s && b[1..][0] == letter;
          assert b[1..] == [v.letter] + t;
          CutSame([letter], [v.letter], s, t);
        case Hex(digits) =>
          assert a[1..] == [LOWER_U] + (digits + s);
          assert b[1..] == [LOWER_U] + (v.digits + t);
          CutSame([LOWER_U], [LOWER_U], digits + s, v.digits + t);
          CutSame(digits, v.digits, s, t);
      }
    }
  }

  lemma UnitStart(u: Unit, tail: Text)
    requires UnitOk(u)
    ensures UnitText(u, tail) != [] && UnitText(u, tail)[0] != QUOTE
  {}

  lemma {:induction false} UnitsSame(a: seq<Unit>, s: Text, b: seq<Unit>, t: Text)
    requires UnitsOk(a) && UnitsOk(b) && UnitsText(a, [QUOTE] + s) == UnitsText(b, [QUOTE] + t)
    ensures a == b && s == t
  {
    if a == [] && b == [] {
      CutSame([QUOTE], [QUOTE], s, t);
    } else if a == [] {
      UnitStart(b[0], UnitsText(b[1..], [QUOTE] + t));
    } else if b == [] {
      UnitStart(a[0], UnitsText(a[1..], [QUOTE] + s));
    } else {
      UnitSame(a[0], UnitsText(a[1..], [QUOTE] + s), b[0], UnitsText(b[1..], [QUOTE] + t));
      UnitsSame(a[1..], s, b[1..], t);
      assert a == [a[0]] + a[1..] && b == [b[0]] + b[1..];
    }
  }

  lemma StringSame(a: seq<Unit>, s: Text, b: seq<Unit>, t: Text)
    requires UnitsOk(a) && UnitsOk(b) && StringText(a, s) == StringText(b, t)
    ensures a == b && s == t
  {
    CutSame([QUOTE], [QUOTE], UnitsText(a, [QUOTE] + s), UnitsText(b, [QUOTE] + t));
    UnitsSame(a, s, b, t);
  }

  /** The text after an item, from its separator on. */
  function ItemsEnd(items: Items, tail: Text): Text {
    if items.Item? then [COMMA] + ItemsText(items.others, tail) else [RBRACKET] + tail
  }

  function MembersEnd(members: Members, tail: Text): Text {
    if members.Member? then [COMMA] + MembersText(members.others, tail) else [RBRACE] + tail
  }

  lemma LiteralSame(d: Doc, s: Text, t: Text)
    requires (d.NullDoc? || d.BoolDoc?) && DocText(d, s) == DocText(d, t)
    ensures s == t
  {
    var literal := if d.NullDoc? then NULL else if d.b then TRUE else FALSE;
    CutSame(literal, literal, s, t);
  }

  /** A well-formed document and what follows it are determined by their text. */
  lemma {:induction false} DocSame(a: Doc, s: Text, b: Doc, t: Text)
    requires Shaped(a) && Shaped(b) && Ends(s) && Ends(t) && DocText(a, s) == DocText(b, t)
    ensures a == b && s == t
    decreases a
  {
    ShapedStart(a, s);
    ShapedStart(b, t);
    match a {
      case NullDoc => LiteralSame(a, s, t);
      case BoolDoc(_) => LiteralSame(a, s, t);
      case NumeralDoc(n) => NumeralSame(n, s, b.numeral, t);
      case StringDoc(units) => StringSame(units, s, b.units, t);
      case EmptyArray(space) => EmptySame(a, s, b, t);
      case EmptyObject(space) => EmptySame(a, s, b, t);
      case ArrayDoc(items) =>
        if b.EmptyArray? {
          EmptySame(b, t, a, s);
        } else {
          CutSame([LBRACKET], [LBRACKET], ItemsText(items, s), ItemsText(b.items, t));
          ItemsSame(items, s, b.items, t);
        }
      case ObjectDoc(members) =>
        if b.EmptyObject? {
          EmptySame(b, t, a, s);
        } else {
          CutSame([LBRACE], [LBRACE], MembersText(members, s), MembersText(b.members, t));
          MembersSame(members, s, b.members, t);
        }
    }
  }

  /** What stands inside the brackets, after the space. */
  lemma InsideStart(d: Doc, tail: Text)
    requires Shaped(d) && (d.EmptyArray? || d.ArrayDoc? || d.EmptyObject? || d.ObjectDoc?)
    ensures var inside := Space(DocText(d, tail)[1..]);
            inside != [] && (inside[0] == RBRACKET || inside[0] == RBRACE <==> d.EmptyArray? || d.EmptyObject?)
  {
    var s := DocText(d, tail);
    match d {
      case EmptyArray(space) =>
        assert s[1..] == space + ([RBRACKET] + tail);
        SpaceSkipped(space, [RBRACKET] + tail);
      case EmptyObject(space) =>
        assert s[1..] == space + ([RBRACE] + tail);
        SpaceSkipped(space, [RBRACE] + tail);
      case ArrayDoc(items) =>
        assert s[1..] == ItemsText(items, tail);
        ShapedStart(items.doc, items.after + ItemsEnd(items, tail));
        SpaceSkipped(items.before, DocText(items.doc, items.after + ItemsEnd(items, tail)));
      case ObjectDoc(members) =>
        assert s[1..] == MembersText(members, tail);
        var after := members.afterKey + ([COLON] + (members.before + DocText(members.doc, members.after + MembersEnd(members, tail))));
        SpaceSkipped(members.beforeKey, StringText(members.key, after));
    }
  }

  lemma EmptySame(a: Doc, s: Text, b: Doc, t: Text)
    requires Shaped(a) && Shaped(b) && (a.EmptyArray? || a.EmptyObject?) && DocText(a, s) == DocText(b, t)
    requires a.EmptyArray? ==> b.EmptyArray? || b.ArrayDoc?
    requires a.EmptyObject? ==> b.EmptyObject? || b.ObjectDoc?
    ensures a == b && s == t
  {
    InsideStart(a, s);
    InsideStart(b, t);
    var close := if a.EmptyArray? then RBRACKET else RBRACE;
    var open := if a.EmptyArray? then LBRACKET else LBRACE;
    CutSame([open], [open], a.space + ([close] + s), b.space + ([close] + t));
    SpaceSame(a.space, b.space, [close] + s, [close] + t);
    CutSame([close], [close], s, t);
  }

  lemma ItemsSplit(items: Items, tail: Text)
    requires ItemsShaped(items) && Ends(tail)
    ensures ItemsText(items, tail) == items.before + DocText(items.doc, items.after + ItemsEnd(items, tail))
    ensures Ends(items.after + ItemsEnd(items, tail))
    ensures ItemsEnd(items, tail) != [] && !IsSpace(ItemsEnd(items, tail)[0])
  {
    SpaceThenEnds(items.after, ItemsEnd(items, tail));
  }

  lemma {:induction false} ItemsSame(a: Items, s: Text, b: Items, t: Text)
    requires ItemsShaped(a) && ItemsShaped(b) && Ends(s) && Ends(t) && ItemsText(a, s) == ItemsText(b, t)
    ensures a == b && s == t
    decreases a
  {
    var sa, tb := ItemsEnd(a, s), ItemsEnd(b, t);
    ItemsSplit(a, s);
    ItemsSplit(b, t);
    ShapedStart(a.doc, a.after + sa);
    ShapedStart(b.doc, b.after + tb);
    SpaceSame(a.before, b.before, DocText(a.doc, a.after + sa), DocText(b.doc, b.after + tb));
    DocSame(a.doc, a.after + sa, b.doc, b.after + tb);
    SpaceSame(a.after, b.after, sa, tb);
    if a.Item? {
      CutSame([COMMA], [COMMA], ItemsText(a.others, s), ItemsText(b.others, t));
      ItemsSame(a.others, s, b.others, t);
    } else {
      CutSame([RBRACKET], [RBRACKET], s, t);
    }
  }

  lemma KeySame(a: Members, u: Text, b: Members, v: Text)
    requires AllSpace(a.beforeKey) && AllSpace(b.beforeKey) && AllSpace(a.afterKey) && AllSpace(b.afterKey)
    requires UnitsOk(a.key) && UnitsOk(b.key)
    requires a.beforeKey + StringText(a.key, a.afterKey + ([COLON] + u)) ==
             b.beforeKey + StringText(b.key, b.afterKey + ([COLON] + v))
    ensures a.beforeKey == b.beforeKey && a.key == b.key && a.afterKey == b.afterKey && u == v
  {
    SpaceSame(a.beforeKey, b.beforeKey, StringText(a.key, a.afterKey + ([COLON] + u)),
              StringText(b.key, b.afterKey + ([COLON] + v)));
    StringSame(a.key, a.afterKey + ([COLON] + u), b.key, b.afterKey + ([COLON] + v));
    SpaceSame(a.afterKey, b.afterKey, [COLON] + u, [COLON] + v);
    CutSame([COLON], [COLON], u, v);
  }

  lemma MembersSplit(members: Members, tail: Text)
    requires MembersShaped(members) && Ends(tail)
    ensures MembersText(members, tail) ==
            members.beforeKey + StringText(members.key, members.afterKey + ([COLON]
            + (members.before + DocText(members.doc, members.after + MembersEnd(members, tail)))))
    ensures Ends(members.after + MembersEnd(members, tail))
    ensures MembersEnd(members, tail) != [] && !IsSpace(MembersEnd(members, tail)[0])
  {
    SpaceThenEnds(members.after, MembersEnd(members, tail));
  }

  lemma {:induction false} MembersSame(a: Members, s: Text, b: Members, t: Text)
    requires MembersShaped(a) && MembersShaped(b) && Ends(s) && Ends(t) && MembersText(a, s) == MembersText(b, t)
    ensures a == b && s == t
    decreases a
  {
    var sa, tb := MembersEnd(a, s), MembersEnd(b, t);
    MembersSplit(a, s);
    MembersSplit(b, t);
    ShapedStart(a.doc, a.after + sa);
    ShapedStart(b.doc, b.after + tb);
    KeySame(a, a.before + DocText(a.doc, a.after + sa), b, b.before + DocText(b.doc, b.after + tb));
    SpaceSame(a.before, b.before, DocText(a.doc, a.after + sa), DocText(b.doc, b.after + tb));
    DocSame(a.doc, a.after + sa, b.doc, b.after + tb);
    SpaceSame(a.after, b.after, sa, tb);
    if a.Member? {
      CutSame([COMMA], [COMMA], MembersText(a.others, s), MembersText(b.others, t));
      MembersSame(a.others, s, b.others, t);
    } else {
      CutSame([RBRACE], [RBRACE], s, t);
    }
  }

  /** A text has one document, with one space before and after it. */
  lemma DocumentIsUnique(lead: Text, a: Doc, trail: Text, lead': Text, b: Doc, trail': Text)
    requires AllSpace(lead) && Shaped(a) && AllSpace(trail) && AllSpace(lead') && Shaped(b) && AllSpace(trail')
    requires lead + DocText(a, trail) == lead' + DocText(b, trail')
    ensures lead == lead' && a == b && trail == trail'
  {
    ShapedStart(a, trail);
    ShapedStart(b, trail');
    SpaceSame(lead, lead', DocText(a, trail), DocText(b, trail'));
    DocSame(a, trail, b, trail');
  }
}
