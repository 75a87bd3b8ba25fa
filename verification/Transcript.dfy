/** The labelled transcript a quote signs, and when it pins down the envelope. */
module Transcript {
  import opened Substrings

  datatype Envelope = Envelope(corpus: string, transaction: string, capsule: string, measurement: string,
                               issued: string, expires: string, challenge: string)

  const DOMAIN := "tyche.state.qual.v1"
  const FIRST_LABEL := "|corpus="

  /** The label between field i and field i + 1. */
  const LABELS: seq<string> := [TRANSACTION, CAPSULE, MEASUREMENT, ISSUED, EXPIRES, CHALLENGE]

  const TRANSACTION := "|transaction="
  const CAPSULE := "|capsule="
  const MEASUREMENT := "|measurement="
  const ISSUED := "|issued="
  const EXPIRES := "|expires="
  const CHALLENGE := "|challenge="

  function Text(e: Envelope): string {
    DOMAIN
    + FIRST_LABEL + (e.corpus
    + TRANSACTION + (e.transaction
    + CAPSULE + (e.capsule
    + MEASUREMENT + (e.measurement
    + ISSUED + (e.issued
    + EXPIRES + (e.expires
    + CHALLENGE + e.challenge))))))
  }

  // ---------------------------------------------------------------- fields separated by labels

  /** A label opens with its only pipe and closes with its only equals sign. */
  ghost predicate IsLabel(mark: string) {
    && |mark| >= 2 && mark[0] == '|' && mark[|mark| - 1] == '='
    && (forall i :: 1 <= i < |mark| ==> mark[i] != '|')
    && (forall i :: 0 <= i < |mark| - 1 ==> mark[i] != '=')
  }

  ghost predicate AreLabels(labels: seq<string>) {
    && (forall i :: 0 <= i < |labels| ==> IsLabel(labels[i]))
    && (forall i, j :: 0 <= i < j < |labels| ==> labels[i] != labels[j])
  }

  function Joined(fields: seq<string>, labels: seq<string>): string
    requires |fields| == |labels| + 1
  {
    if labels == [] then fields[0] else fields[0] + labels[0] + Joined(fields[1..], labels[1..])
  }

  ghost predicate Occurs(part: string, s: string) {
    exists i: nat :: At(part, s, i)
  }

  /** Some field contains the label before it or the label after it. */
  ghost predicate Ambiguous(fields: seq<string>, labels: seq<string>)
    requires |fields| == |labels| + 1
  {
    exists i :: 0 <= i < |labels| && Stray(fields, labels, i)
  }

  ghost predicate Stray(fields: seq<string>, labels: seq<string>, i: nat)
    requires |fields| == |labels| + 1 && i < |labels|
  {
    Occurs(labels[i], fields[i]) || Occurs(labels[i], fields[i + 1])
  }

  lemma AmbiguousTail(fields: seq<string>, labels: seq<string>)
    requires |fields| == |labels| + 1 && labels != [] && Ambiguous(fields[1..], labels[1..])
    ensures Ambiguous(fields, labels)
  {
    var i :| 0 <= i < |labels[1..]| && Stray(fields[1..], labels[1..], i);
    assert Stray(fields, labels, i + 1);
  }

  /** An occurrence of a label that starts inside a field ends inside it, as no pipe follows its first. */
  lemma OccurrenceFits(field: string, rest: string, mark: string, p: nat)
    requires IsLabel(mark) && p < |field| && At(mark, field + rest, p)
    requires rest == [] || rest[0] == '|'
    ensures Occurs(mark, field)
  {
    var s := field + rest;
    forall k | p < k < p + |mark|
      ensures s[k] != '|'
    {
      assert s[k] == s[p..p + |mark|][k - p] == mark[k - p];
    }
    assert rest != [] ==> s[|field|] == '|';
    assert At(mark, field, p);
  }

  function FirstEquals(s: string): nat {
    if s == [] || s[0] == '=' then 0 else 1 + FirstEquals(s[1..])
  }

  lemma {:induction false} FirstEqualsIs(s: string, n: nat)
    requires n < |s| && s[n] == '=' && forall i :: 0 <= i < n ==> s[i] != '='
    ensures FirstEquals(s) == n
  {
    if n > 0 {
      FirstEqualsIs(s[1..], n - 1);
    }
  }

  /** Two labels at the same place are the same label. */
  lemma LabelsAtOnePlace(s: string, a: string, b: string)
    requires IsLabel(a) && IsLabel(b) && a <= s && b <= s
    ensures a == b
  {
    FirstEqualsIs(s, |a| - 1);
    FirstEqualsIs(s, |b| - 1);
    assert a == s[..|a|] && b == s[..|b|];
  }

  /** A later separator with the same label lies past the whole of the earlier one. */
  lemma CutAtSeparator(a: string, mark: string, tail: string, b: string, otherTail: string)
    requires IsLabel(mark) && |a| < |b| && a + mark + tail == b + mark + otherTail
    ensures |a| + |mark| <= |b|
    ensures tail == b[|a| + |mark|..] + mark + otherTail
  {
    var s := a + mark + tail;
    assert s[|b|] == (b + mark + otherTail)[|b|] == '|';
    forall k | |a| < k < |a| + |mark|
      ensures s[k] != '|'
    {
      assert s[k] == mark[k - |a|];
    }
    assert tail == s[|a| + |mark|..];
    assert b + mark + otherTail == b[..|a| + |mark|] + (b[|a| + |mark|..] + mark + otherTail);
  }

  ghost predicate SameShape(fields: seq<string>, labels: seq<string>, others: seq<string>) {
    |fields| == |others| == |labels| + 1
  }

  /**
   * The text of the fields also reads as `before`, then the label that opens the first field, then other
   * fields: then some field is ambiguous, or the first contains its own label.
   */
  lemma {:induction false} ShiftedRight(fields: seq<string>, labels: seq<string>, own: string, before: string,
                                        others: seq<string>)
    requires SameShape(fields, labels, others) && AreLabels(labels) && IsLabel(own) && own !in labels
    requires Joined(fields, labels) == before + own + Joined(others, labels)
    ensures Occurs(own, fields[0]) || Ambiguous(fields, labels)
    decreases |labels|, 0
  {
    var s := Joined(fields, labels);
    var p := |before|;
    assert At(own, s, p);
    if labels == [] {
      assert s == fields[0];
    } else {
      var rest := labels[0] + Joined(fields[1..], labels[1..]);
      assert s == fields[0] + rest;
      assert IsLabel(labels[0]) && own != labels[0];
      if p < |fields[0]| {
        OccurrenceFits(fields[0], rest, own, p);
      } else if p == |fields[0]| {
        assert rest == s[p..] == own + Joined(others, labels);
        LabelsAtOnePlace(rest, own, labels[0]);
      } else {
        var skipped := before + own + others[0];
        assert s == skipped + labels[0] + Joined(others[1..], labels[1..]);
        SeparatorPassed(fields, labels, skipped, others);
      }
    }
  }

  /** The first separator of another reading comes later than our own. */
  lemma {:induction false} SeparatorPassed(fields: seq<string>, labels: seq<string>, skipped: string, others: seq<string>)
    requires SameShape(fields, labels, others) && labels != [] && AreLabels(labels)
    requires Joined(fields, labels) == skipped + labels[0] + Joined(others[1..], labels[1..])
    requires |skipped| > |fields[0]|
    ensures Ambiguous(fields, labels)
    decreases |labels| - 1, 1
  {
    var mark := labels[0];
    TailLabels(labels);
    var tail, otherTail := Joined(fields[1..], labels[1..]), Joined(others[1..], labels[1..]);
    CutAtSeparator(fields[0], mark, tail, skipped, otherTail);
    var shifted := skipped[|fields[0]| + |mark|..];
    ShiftedRight(fields[1..], labels[1..], mark, shifted, others[1..]);
    if Occurs(mark, fields[1..][0]) {
      assert Stray(fields, labels, 0);
    } else {
      AmbiguousTail(fields, labels);
    }
  }

  lemma TailLabels(labels: seq<string>)
    requires labels != [] && AreLabels(labels)
    ensures AreLabels(labels[1..]) && IsLabel(labels[0]) && labels[0] !in labels[1..]
  {
    var rest := labels[1..];
    assert forall i :: 0 <= i < |rest| ==> rest[i] == labels[i + 1];
  }

  /** Different fields with one text: the text's own fields are ambiguous. */
  lemma {:induction false} TwinsAreAmbiguous(fields: seq<string>, labels: seq<string>, others: seq<string>)
    requires SameShape(fields, labels, others) && AreLabels(labels)
    requires Joined(fields, labels) == Joined(others, labels)
    ensures fields == others || Ambiguous(fields, labels)
    decreases |labels|
  {
    if labels == [] {
      assert fields == [fields[0]] && others == [others[0]];
    } else {
      TailLabels(labels);
      var tail, otherTail := Joined(fields[1..], labels[1..]), Joined(others[1..], labels[1..]);
      var s := Joined(fields, labels);
      if |others[0]| < |fields[0]| {
        assert s == fields[0] + (labels[0] + tail) == others[0] + labels[0] + otherTail;
        assert At(labels[0], s, |others[0]|);
        OccurrenceFits(fields[0], labels[0] + tail, labels[0], |others[0]|);
        assert Stray(fields, labels, 0);
      } else if |others[0]| == |fields[0]| {
        SameHead(fields, labels, others);
        TwinsAreAmbiguous(fields[1..], labels[1..], others[1..]);
        if fields[1..] != others[1..] {
          AmbiguousTail(fields, labels);
        }
      } else {
        SeparatorPassed(fields, labels, others[0], others);
      }
    }
  }

  lemma SameHead(fields: seq<string>, labels: seq<string>, others: seq<string>)
    requires SameShape(fields, labels, others) && labels != [] && |others[0]| == |fields[0]|
    requires Joined(fields, labels) == Joined(others, labels)
    ensures Joined(fields[1..], labels[1..]) == Joined(others[1..], labels[1..])
    ensures fields[1..] == others[1..] <==> fields == others
  {
    var s := Joined(fields, labels);
    var cut := |fields[0]| + |labels[0]|;
    assert fields[0] == s[..|fields[0]|] == others[0];
    assert Joined(fields[1..], labels[1..]) == s[cut..] == Joined(others[1..], labels[1..]);
    assert fields == [fields[0]] + fields[1..] && others == [others[0]] + others[1..];
  }

  /** Moving a label occurrence to the separator gives different fields with the same text. */
  lemma {:induction false} AmbiguousHasTwin(fields: seq<string>, labels: seq<string>, i: nat) returns (others: seq<string>)
    requires |fields| == |labels| + 1 && AreLabels(labels) && i < |labels| && Stray(fields, labels, i)
    ensures |others| == |fields| && others != fields && Joined(others, labels) == Joined(fields, labels)
    decreases i
  {
    TailLabels(labels);
    if i > 0 {
      assert Stray(fields[1..], labels[1..], i - 1);
      var rest := AmbiguousHasTwin(fields[1..], labels[1..], i - 1);
      others := [fields[0]] + rest;
      assert others[1..] == rest;
      assert fields == [fields[0]] + fields[1..];
    } else {
      var x, y := Resplit(fields[0], labels[0], fields[1]);
      others := [x, y] + fields[2..];
      SecondFieldJoins(fields, labels);
      SecondFieldJoins(others, labels);
      assert others[2..] == fields[2..];
      assert others[0] != fields[0];
    }
  }

  lemma SplitAt(mark: string, field: string, k: nat)
    requires At(mark, field, k)
    ensures field == field[..k] + mark + field[k + |mark|..]
  {}

  lemma ResplitFirst(first: string, mark: string, second: string) returns (x: string, y: string)
    requires |mark| > 0 && Occurs(mark, first)
    ensures x != first && x + mark + y == first + mark + second
  {
    var k: nat :| At(mark, first, k);
    SplitAt(mark, first, k);
    x, y := first[..k], first[k + |mark|..] + mark + second;
    assert x + mark + y == (x + mark + first[k + |mark|..]) + mark + second;
  }

  lemma ResplitSecond(first: string, mark: string, second: string) returns (x: string, y: string)
    requires |mark| > 0 && Occurs(mark, second)
    ensures x != first && x + mark + y == first + mark + second
  {
    var k: nat :| At(mark, second, k);
    SplitAt(mark, second, k);
    x, y := first + mark + second[..k], second[k + |mark|..];
    assert x + mark + y == first + mark + (second[..k] + mark + y);
  }

  /** Two fields around a label that one of them contains, split at the other occurrence. */
  lemma Resplit(first: string, mark: string, second: string) returns (x: string, y: string)
    requires IsLabel(mark) && (Occurs(mark, first) || Occurs(mark, second))
    ensures x != first && x + mark + y == first + mark + second
  {
    if Occurs(mark, first) {
      x, y := ResplitFirst(first, mark, second);
    } else {
      x, y := ResplitSecond(first, mark, second);
    }
  }

  /** The text with the first two fields singled out. */
  function AfterSecond(fields: seq<string>, labels: seq<string>): string
    requires |fields| == |labels| + 1 && labels != []
  {
    if |labels| == 1 then [] else labels[1] + Joined(fields[2..], labels[2..])
  }

  lemma SecondFieldJoins(fields: seq<string>, labels: seq<string>)
    requires |fields| == |labels| + 1 && labels != []
    ensures Joined(fields, labels) == fields[0] + labels[0] + fields[1] + AfterSecond(fields, labels)
  {
    if |labels| > 1 {
      assert fields[1..][1..] == fields[2..] && labels[1..][1..] == labels[2..];
    }
  }

  // ---------------------------------------------------------------- envelopes

  function Fields(e: Envelope): seq<string> {
    [e.corpus, e.transaction, e.capsule, e.measurement, e.issued, e.expires, e.challenge]
  }

  lemma JoinedFrom(fields: seq<string>, labels: seq<string>, i: nat)
    requires |fields| == |labels| + 1 && i < |labels|
    ensures Joined(fields[i..], labels[i..]) == fields[i] + labels[i] + Joined(fields[i + 1..], labels[i + 1..])
  {
    assert fields[i..][1..] == fields[i + 1..] && labels[i..][1..] == labels[i + 1..];
  }

  lemma SevenJoined(f: seq<string>, m: seq<string>)
    requires |f| == 7 && |m| == 6
    ensures Joined(f, m) ==
            f[0] + m[0] + (f[1] + m[1] + (f[2] + m[2] + (f[3] + m[3] + (f[4] + m[4] + (f[5] + m[5] + f[6])))))
  {
    JoinedFrom(f, m, 5);
    JoinedFrom(f, m, 4);
    JoinedFrom(f, m, 3);
    JoinedFrom(f, m, 2);
    JoinedFrom(f, m, 1);
    JoinedFrom(f, m, 0);
    assert f[0..] == f && m[0..] == m;
  }

  lemma TextIsJoined(e: Envelope)
    ensures Text(e) == DOMAIN + FIRST_LABEL + Joined(Fields(e), LABELS)
  {
    SevenJoined(Fields(e), LABELS);
  }

  lemma LabelsAreLabels()
    ensures AreLabels(LABELS)
  {
    assert IsLabel(TRANSACTION);
    assert IsLabel(CAPSULE);
    assert IsLabel(MEASUREMENT);
    assert IsLabel(ISSUED);
    assert IsLabel(EXPIRES);
    assert IsLabel(CHALLENGE);
  }

  /** An envelope one of whose fields contains the label before it or the label after it. */
  ghost predicate HasStrayLabel(e: Envelope) {
    Ambiguous(Fields(e), LABELS)
  }

  lemma SharedTextIsStray(e: Envelope, other: Envelope)
    requires other != e && Text(other) == Text(e)
    ensures HasStrayLabel(e)
  {
    LabelsAreLabels();
    TextIsJoined(e);
    TextIsJoined(other);
    var prefix := DOMAIN + FIRST_LABEL;
    assert Joined(Fields(e), LABELS) == Text(e)[|prefix|..] == Joined(Fields(other), LABELS);
    FieldsDetermine(e, other);
    TwinsAreAmbiguous(Fields(e), LABELS, Fields(other));
  }

  lemma StrayTextIsShared(e: Envelope) returns (other: Envelope)
    requires HasStrayLabel(e)
    ensures other != e && Text(other) == Text(e)
  {
    LabelsAreLabels();
    var i :| 0 <= i < |LABELS| && Stray(Fields(e), LABELS, i);
    var g := AmbiguousHasTwin(Fields(e), LABELS, i);
    other := Envelope(g[0], g[1], g[2], g[3], g[4], g[5], g[6]);
    assert Fields(other) == g;
    TextIsJoined(e);
    TextIsJoined(other);
  }

  /** Exactly when a transcript pins down its envelope: no other has it unless a stray label occurs. */
  lemma TranscriptPinsExactly(e: Envelope)
    ensures (exists other :: other != e && Text(other) == Text(e)) <==> HasStrayLabel(e)
  {
    if other :| other != e && Text(other) == Text(e) {
      SharedTextIsStray(e, other);
    }
    if HasStrayLabel(e) {
      var other := StrayTextIsShared(e);
    }
  }

  lemma FieldsDetermine(a: Envelope, b: Envelope)
    ensures Fields(a) == Fields(b) <==> a == b
  {
    if Fields(a) == Fields(b) {
      var f, g := Fields(a), Fields(b);
      assert f[0] == g[0] && f[1] == g[1] && f[2] == g[2] && f[3] == g[3] && f[4] == g[4] && f[5] == g[5] && f[6] == g[6];
    }
  }

  predicate PipeFreeEnvelope(e: Envelope) {
    && PipeFree(e.corpus) && PipeFree(e.transaction) && PipeFree(e.capsule) && PipeFree(e.measurement)
    && PipeFree(e.issued) && PipeFree(e.expires) && PipeFree(e.challenge)
  }

  /** In particular it is injective on fields without a pipe: the form every field has in practice. */
  lemma PipeFreeIsPinned(e: Envelope, other: Envelope)
    requires PipeFreeEnvelope(e) && Text(e) == Text(other)
    ensures e == other
  {
    LabelsAreLabels();
    var f := Fields(e);
    forall i | 0 <= i < |LABELS|
      ensures !Stray(f, LABELS, i)
    {
      LabelBringsPipe(f[i], LABELS[i]);
      LabelBringsPipe(f[i + 1], LABELS[i]);
    }
    TranscriptPinsExactly(e);
  }

  lemma LabelBringsPipe(field: string, mark: string)
    requires IsLabel(mark)
    ensures Occurs(mark, field) ==> !PipeFree(field)
  {
    if Occurs(mark, field) {
      var k: nat :| At(mark, field, k);
      assert field[k] == field[k..k + |mark|][0];
    }
  }

  /** A transaction that holds the next label, and the envelope that shares its transcript. */
  lemma LabelInFieldHasTwin()
    ensures var a := Envelope("c", "t|capsule=k", "k", "m", "i", "e", "n");
            var b := Envelope("c", "t", "k|capsule=k", "m", "i", "e", "n");
            a != b && Text(a) == Text(b)
  {
    var rest := MEASUREMENT + ("m" + ISSUED + ("i" + EXPIRES + ("e" + CHALLENGE + "n")));
    assert "t|capsule=k" + CAPSULE + ("k" + rest) == "t" + CAPSULE + ("k|capsule=k" + rest);
    var a := Envelope("c", "t|capsule=k", "k", "m", "i", "e", "n");
    var b := Envelope("c", "t", "k|capsule=k", "m", "i", "e", "n");
    assert "k" + MEASUREMENT + ("m" + ISSUED + ("i" + EXPIRES + ("e" + CHALLENGE + "n"))) == "k" + rest;
    assert "k|capsule=k" + MEASUREMENT + ("m" + ISSUED + ("i" + EXPIRES + ("e" + CHALLENGE + "n"))) == "k|capsule=k" + rest;
    assert Text(a) == DOMAIN + FIRST_LABEL + ("c" + TRANSACTION + ("t|capsule=k" + CAPSULE + ("k" + rest)));
    assert Text(b) == DOMAIN + FIRST_LABEL + ("c" + TRANSACTION + ("t" + CAPSULE + ("k|capsule=k" + rest)));
  }

  // ---------------------------------------------------------------- the text, part by part

  function Piped(parts: seq<string>): string
    requires parts != []
  {
    if |parts| == 1 then parts[0] else parts[0] + "|" + Piped(parts[1..])
  }

  /** A field after the name it is labelled with. */
  function Named(names: seq<string>, fields: seq<string>): (parts: seq<string>)
    requires |names| == |fields|
    ensures |parts| == |fields|
  {
    seq(|fields|, i requires 0 <= i < |fields| => names[i] + fields[i])
  }

  lemma NamedMore(names: seq<string>, fields: seq<string>)
    requires |names| == |fields| > 0
    ensures Named(names, fields) == [names[0] + fields[0]] + Named(names[1..], fields[1..])
  {}

  lemma Regrouped(name: string, field: string, mark: string, next: string, rest: string)
    requires mark == "|" + next
    ensures name + (field + mark + rest) == name + field + "|" + (next + rest)
  {}

  /** Labels are names behind a pipe, so separating by labels is joining named parts by pipes. */
  lemma {:induction false} JoinedIsPiped(names: seq<string>, fields: seq<string>, labels: seq<string>)
    requires |names| == |fields| == |labels| + 1
    requires forall i :: 0 <= i < |labels| ==> labels[i] == "|" + names[i + 1]
    ensures names[0] + Joined(fields, labels) == Piped(Named(names, fields))
  {
    NamedMore(names, fields);
    if labels != [] {
      JoinedIsPiped(names[1..], fields[1..], labels[1..]);
      Regrouped(names[0], fields[0], labels[0], names[1], Joined(fields[1..], labels[1..]));
      assert Named(names, fields)[1..] == Named(names[1..], fields[1..]);
    }
  }

  const NAMES: seq<string> :=
    ["corpus=", "transaction=", "capsule=", "measurement=", "issued=", "expires=", "challenge="]

  lemma LabelsAreNames()
    ensures |NAMES| == |LABELS| + 1 && FIRST_LABEL == "|" + NAMES[0]
    ensures forall i :: 0 <= i < |LABELS| ==> LABELS[i] == "|" + NAMES[i + 1]
  {
    assert LABELS[0] == "|" + NAMES[1] && LABELS[1] == "|" + NAMES[2] && LABELS[2] == "|" + NAMES[3];
    assert LABELS[3] == "|" + NAMES[4] && LABELS[4] == "|" + NAMES[5] && LABELS[5] == "|" + NAMES[6];
  }

  /** The transcript is the domain and the seven named fields, in this order, with pipes between. */
  lemma TextIsPiped(e: Envelope)
    ensures Text(e) == Piped(["tyche.state.qual.v1"]
                             + Named(["corpus=", "transaction=", "capsule=", "measurement=", "issued=", "expires=",
                                      "challenge="],
                                     [e.corpus, e.transaction, e.capsule, e.measurement, e.issued, e.expires, e.challenge]))
  {
    TextIsJoined(e);
    LabelsAreNames();
    JoinedIsPiped(NAMES, Fields(e), LABELS);
    var parts := Named(NAMES, Fields(e));
    assert (["tyche.state.qual.v1"] + parts)[1..] == parts;
    Regrouped(DOMAIN, "", FIRST_LABEL, NAMES[0], Joined(Fields(e), LABELS));
    assert "" + FIRST_LABEL == FIRST_LABEL && DOMAIN + "" == DOMAIN;
  }
}
