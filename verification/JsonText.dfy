/** JSON values and the UTF-16 text they are read from and written to. */
module JsonText {
  import opened Wrappers

  /** A Java `char`: one UTF-16 code unit, surrogates included. */
  type CodeUnit = c: int | 0 <= c < 0x1_0000

  type Text = seq<CodeUnit>

  /** A number is held as the decimal text `BigDecimal.toString` gives it. */
  datatype Value =
    | Null
    | Bool(b: bool)
    | Number(decimal: Text)
    | String(text: Text)
    | Array(items: seq<Value>)
    | Object(members: map<Text, Value>)

  /** The `BigDecimal` constructor followed by `toString`; None where the constructor throws. */
  type Decimal = Text -> Option<Text>

  const QUOTE: CodeUnit := 0x22
  const BACKSLASH: CodeUnit := 0x5C
  const COMMA: CodeUnit := 0x2C
  const COLON: CodeUnit := 0x3A
  const LBRACE: CodeUnit := 0x7B
  const RBRACE: CodeUnit := 0x7D
  const LBRACKET: CodeUnit := 0x5B
  const RBRACKET: CodeUnit := 0x5D
  const MINUS: CodeUnit := 0x2D
  const PLUS: CodeUnit := 0x2B
  const DOT: CodeUnit := 0x2E
  const ZERO: CodeUnit := 0x30
  const LOWER_E: CodeUnit := 0x65
  const UPPER_E: CodeUnit := 0x45
  const LOWER_U: CodeUnit := 0x75

  const TRUE: Text := [0x74, 0x72, 0x75, 0x65]
  const FALSE: Text := [0x66, 0x61, 0x6C, 0x73, 0x65]
  const NULL: Text := [0x6E, 0x75, 0x6C, 0x6C]

  predicate IsSpace(c: CodeUnit) {
    c == 0x20 || c == 0x0A || c == 0x0D || c == 0x09
  }

  /** The zeros of the decimal-digit blocks `Character.isDigit` accepts besides ASCII. */
  const FOREIGN_ZEROS: seq<CodeUnit> := [
    0x660, 0x6F0, 0x7C0, 0x966, 0x9E6, 0xA66, 0xAE6, 0xB66, 0xBE6, 0xC66, 0xCE6, 0xD66, 0xDE6, 0xE50, 0xED0, 0xF20,
    0x1040, 0x1090, 0x17E0, 0x1810, 0x1946, 0x19D0, 0x1A80, 0x1A90, 0x1B50, 0x1BB0, 0x1C40, 0x1C50, 0xA620, 0xA8D0,
    0xA900, 0xA9D0, 0xA9F0, 0xAA50, 0xABF0, 0xFF10]

  function ForeignDigit(c: CodeUnit, zeros: seq<CodeUnit>): int {
    if zeros == [] then -1
    else if 0 <= c - zeros[0] < 10 then c - zeros[0]
    else ForeignDigit(c, zeros[1..])
  }

  /** `Character.digit(c, 10)`. */
  function DigitValue(c: CodeUnit): int {
    if 0x30 <= c <= 0x39 then c - 0x30
    else if c < 0x660 then -1
    else ForeignDigit(c, FOREIGN_ZEROS)
  }

  predicate IsDigit(c: CodeUnit) {
    DigitValue(c) >= 0
  }

  /** `Character.digit(c, 16)`: decimal digits of any script, and Latin letters plain or fullwidth. */
  function HexValue(c: CodeUnit): int {
    if 0x61 <= c <= 0x66 then c - 0x61 + 10
    else if 0x41 <= c <= 0x46 then c - 0x41 + 10
    else if 0xFF41 <= c <= 0xFF46 then c - 0xFF41 + 10
    else if 0xFF21 <= c <= 0xFF26 then c - 0xFF21 + 10
    else DigitValue(c)
  }

  lemma {:induction false} ForeignDigitBelowTen(c: CodeUnit, zeros: seq<CodeUnit>)
    ensures -1 <= ForeignDigit(c, zeros) <= 9
  {
    if zeros != [] {
      ForeignDigitBelowTen(c, zeros[1..]);
    }
  }

  lemma HexValueBelowSixteen(c: CodeUnit)
    ensures -1 <= HexValue(c) <= 15
  {
    ForeignDigitBelowTen(c, FOREIGN_ZEROS);
  }

  // ---------------------------------------------------------------- the text of a value

  function LowerHex(digit: int): CodeUnit
    requires 0 <= digit < 16
  {
    if digit < 10 then 0x30 + digit else 0x61 + digit - 10
  }

  /** The sixteen digits the writer uses. */
  predicate IsLowerHex(c: CodeUnit) {
    0x30 <= c <= 0x39 || 0x61 <= c <= 0x66
  }

  /** One unit of a quoted string. */
  function Escape(c: CodeUnit): Text {
    if c == QUOTE then [BACKSLASH, QUOTE]
    else if c == BACKSLASH then [BACKSLASH, BACKSLASH]
    else if c == 0x08 then [BACKSLASH, 0x62]
    else if c == 0x0C then [BACKSLASH, 0x66]
    else if c == 0x0A then [BACKSLASH, 0x6E]
    else if c == 0x0D then [BACKSLASH, 0x72]
    else if c == 0x09 then [BACKSLASH, 0x74]
    else if c < 0x20 then [BACKSLASH, LOWER_U, ZERO, ZERO, LowerHex(c / 16), LowerHex(c % 16)]
    else [c]
  }

  function QuoteBody(text: Text): Text {
    if text == [] then [] else Escape(text[0]) + QuoteBody(text[1..])
  }

  function Quote(text: Text): Text {
    [QUOTE] + QuoteBody(text) + [QUOTE]
  }

  /** Texts separated by commas. */
  function Join(texts: seq<Text>): Text {
    if texts == [] then []
    else if |texts| == 1 then texts[0]
    else texts[0] + [COMMA] + Join(texts[1..])
  }

  ghost function Write(v: Value): Text
    decreases v, 1
  {
    match v
    case Null => NULL
    case Bool(b) => if b then TRUE else FALSE
    case Number(decimal) => decimal
    case String(text) => Quote(text)
    case Array(items) => [LBRACKET] + Join(ItemTexts(items)) + [RBRACKET]
    case Object(members) => [LBRACE] + Join(MemberTexts(v, SortedKeys(members.Keys))) + [RBRACE]
  }

  ghost function ItemTexts(items: seq<Value>): (texts: seq<Text>)
    ensures |texts| == |items|
  {
    seq(|items|, i requires 0 <= i < |items| => Write(items[i]))
  }

  ghost function MemberTexts(v: Value, keys: seq<Text>): (texts: seq<Text>)
    requires v.Object? && forall k :: k in keys ==> k in v.members
    ensures |texts| == |keys|
    decreases v, 0
  {
    seq(|keys|, i requires 0 <= i < |keys| => Quote(keys[i]) + [COLON] + Write(v.members[keys[i]]))
  }

  // ---------------------------------------------------------------- the order of the keys

  /** `String.compareTo(...) < 0`: the first differing unit decides, else the shorter text is less. */
  predicate Less(a: Text, b: Text) {
    if b == [] then false
    else if a == [] then true
    else a[0] < b[0] || (a[0] == b[0] && Less(a[1..], b[1..]))
  }

  predicate Ascending(keys: seq<Text>) {
    forall i, j {:trigger Less(keys[i], keys[j])} :: 0 <= i < j < |keys| ==> Less(keys[i], keys[j])
  }

  ghost predicate Lists(keys: seq<Text>, all: set<Text>) {
    Ascending(keys) && (forall k :: k in keys <==> k in all)
  }

  lemma {:induction false} LessIrreflexive(a: Text)
    ensures !Less(a, a)
  {
    if a != [] {
      LessIrreflexive(a[1..]);
    }
  }

  lemma {:induction false} LessTransitive(a: Text, b: Text, c: Text)
    requires Less(a, b) && Less(b, c)
    ensures Less(a, c)
  {
    if a != [] && a[0] == b[0] == c[0] {
      LessTransitive(a[1..], b[1..], c[1..]);
    }
  }

  lemma {:induction false} LessTotal(a: Text, b: Text)
    ensures a == b || Less(a, b) || Less(b, a)
  {
    if a != [] && b != [] && a[0] == b[0] {
      LessTotal(a[1..], b[1..]);
      assert a == [a[0]] + a[1..] && b == [b[0]] + b[1..];
    }
  }

  /** Insertion into an ascending list. */
  function Insert(key: Text, keys: seq<Text>): seq<Text> {
    if keys == [] then [key]
    else if Less(key, keys[0]) then [key] + keys
    else [keys[0]] + Insert(key, keys[1..])
  }

  lemma {:induction false} InsertKeepsAscending(key: Text, keys: seq<Text>)
    requires Ascending(keys) && key !in keys
    ensures Ascending(Insert(key, keys))
    ensures forall k :: k in Insert(key, keys) <==> k == key || k in keys
  {
    if keys == [] {
    } else if Less(key, keys[0]) {
      forall j | 0 < j < |keys|
        ensures Less(key, keys[j])
      {
        LessTransitive(key, keys[0], keys[j]);
      }
    } else {
      LessTotal(key, keys[0]);
      InsertKeepsAscending(key, keys[1..]);
      var rest := Insert(key, keys[1..]);
      forall j | 0 <= j < |rest|
        ensures Less(keys[0], rest[j])
      {
        assert rest[j] in rest;
        if rest[j] != key {
          var i :| 1 <= i < |keys| && keys[i] == rest[j];
        }
      }
    }
  }

  lemma {:induction false} SomeListExists(all: set<Text>)
    ensures exists keys :: Lists(keys, all)
  {
    if all == {} {
      assert Lists([], all);
    } else {
      var k :| k in all;
      SomeListExists(all - {k});
      var keys :| Lists(keys, all - {k});
      InsertKeepsAscending(k, keys);
      assert Lists(Insert(k, keys), all);
    }
  }

  lemma {:induction false} ListIsUnique(a: seq<Text>, b: seq<Text>, all: set<Text>)
    requires Lists(a, all) && Lists(b, all)
    ensures a == b
  {
    EmptyExactly(a, all);
    EmptyExactly(b, all);
    if a != [] {
      assert a[0] in b;
      assert b[0] in a;
      HeadsAgree(a, b);
      LessIrreflexive(a[0]);
      TailLists(a, all);
      TailLists(b, all);
      ListIsUnique(a[1..], b[1..], all - {a[0]});
      assert a == [a[0]] + a[1..] && b == [b[0]] + b[1..];
    }
  }

  lemma EmptyExactly(keys: seq<Text>, all: set<Text>)
    requires Lists(keys, all)
    ensures keys == [] <==> all == {}
  {
    if keys != [] {
      assert keys[0] in all;
    }
  }

  lemma HeadsAgree(a: seq<Text>, b: seq<Text>)
    requires Ascending(a) && Ascending(b) && a != [] && b != [] && a[0] in b && b[0] in a
    ensures a[0] == b[0]
  {
    if a[0] != b[0] {
      var i :| 0 < i < |b| && b[i] == a[0];
      var j :| 0 < j < |a| && a[j] == b[0];
      LessTransitive(a[0], b[0], a[0]);
      LessIrreflexive(a[0]);
      assert false;
    }
  }

  lemma TailLists(a: seq<Text>, all: set<Text>)
    requires Lists(a, all) && a != []
    ensures Lists(a[1..], all - {a[0]})
  {
    LessIrreflexive(a[0]);
    forall k
      ensures k in a[1..] <==> k in all && k != a[0]
    {
      if k in a[1..] {
        var i :| 1 <= i < |a| && a[i] == k;
        assert Less(a[0], a[i]);
        assert k in a;
      }
      if k in all && k != a[0] {
        assert k in a;
      }
    }
  }

  /** `Collections.sort` of a map's keys. */
  ghost function SortedKeys(all: set<Text>): (keys: seq<Text>)
    ensures Lists(keys, all)
  {
    SomeListExists(all);
    var keys :| Lists(keys, all);
    keys
  }
}
