/** Fixed-width UTC timestamps: their text order, their order in time, and the two window tests. */
module Timestamps {
  import opened Wrappers
  import opened Lexicographic

  datatype Timestamp = Timestamp(year: nat, month: nat, day: nat, hour: nat, minute: nat, second: nat)

  predicate Leap(year: nat) {
    year % 4 == 0 && (year % 100 != 0 || year % 400 == 0)
  }

  function DaysIn(year: nat, month: nat): nat {
    if month == 2 then (if Leap(year) then 29 else 28)
    else if month in {4, 6, 9, 11} then 30
    else 31
  }

  /** A date and a time of day that exist, with seconds below 60. */
  predicate Exists(t: Timestamp) {
    && 1 <= t.month <= 12 && 1 <= t.day <= DaysIn(t.year, t.month)
    && t.hour < 24 && t.minute < 60 && t.second < 60
  }

  /** The timestamps that fit the fixed width. */
  predicate Valid(t: Timestamp) {
    Exists(t) && t.year < 10000
  }

  // ---------------------------------------------------------------- order in time

  function DaysBeforeMonth(year: nat, month: nat): nat {
    if month <= 1 then 0 else DaysBeforeMonth(year, month - 1) + DaysIn(year, month - 1)
  }

  function DaysBeforeYear(year: nat): nat {
    if year == 0 then 0 else DaysBeforeYear(year - 1) + DaysBeforeMonth(year - 1, 13)
  }

  function DayNumber(t: Timestamp): nat {
    DaysBeforeYear(t.year) + DaysBeforeMonth(t.year, t.month) + t.day
  }

  function SecondOfDay(t: Timestamp): nat {
    t.hour * 3600 + t.minute * 60 + t.second
  }

  /** Seconds since the first second of year 0. */
  function Instant(t: Timestamp): nat {
    DayNumber(t) * 86400 + SecondOfDay(t)
  }

  /** One second later on the wall calendar. */
  function Next(t: Timestamp): Timestamp {
    if t.second < 59 then t.(second := t.second + 1)
    else if t.minute < 59 then t.(minute := t.minute + 1, second := 0)
    else if t.hour < 23 then t.(hour := t.hour + 1, minute := 0, second := 0)
    else if t.day < DaysIn(t.year, t.month) then Timestamp(t.year, t.month, t.day + 1, 0, 0, 0)
    else if t.month < 12 then Timestamp(t.year, t.month + 1, 1, 0, 0, 0)
    else Timestamp(t.year + 1, 1, 1, 0, 0, 0)
  }

  lemma LastSecond(t: Timestamp)
    requires Exists(t) && SecondOfDay(t) == 86399
    ensures t.hour == 23 && t.minute == 59 && t.second == 59
  {}

  lemma NextMonth(t: Timestamp)
    requires Exists(t) && t.day == DaysIn(t.year, t.month) && t.month < 12
    ensures DayNumber(Timestamp(t.year, t.month + 1, 1, 0, 0, 0)) == DayNumber(t) + 1
  {
    assert DaysBeforeMonth(t.year, t.month + 1) == DaysBeforeMonth(t.year, t.month) + DaysIn(t.year, t.month);
  }

  lemma NextYear(t: Timestamp)
    requires Exists(t) && t.day == DaysIn(t.year, t.month) && t.month == 12
    ensures DayNumber(Timestamp(t.year + 1, 1, 1, 0, 0, 0)) == DayNumber(t) + 1
  {
    assert DaysBeforeMonth(t.year, 13) == DaysBeforeMonth(t.year, 12) + DaysIn(t.year, 12);
    assert DaysBeforeYear(t.year + 1) == DaysBeforeYear(t.year) + DaysBeforeMonth(t.year, 13);
  }

  lemma NextDay(t: Timestamp)
    requires Exists(t) && SecondOfDay(t) == 86399
    ensures Exists(Next(t)) && SecondOfDay(Next(t)) == 0 && DayNumber(Next(t)) == DayNumber(t) + 1
  {
    LastSecond(t);
    if t.day < DaysIn(t.year, t.month) {
      assert Next(t).month == t.month && Next(t).year == t.year;
    } else if t.month < 12 {
      NextMonth(t);
    } else {
      NextYear(t);
    }
  }

  lemma SameDay(t: Timestamp)
    requires Exists(t) && SecondOfDay(t) < 86399
    ensures Exists(Next(t)) && SecondOfDay(Next(t)) == SecondOfDay(t) + 1 && SameDate(t, Next(t))
  {}

  /** The calendar's next second exists, and it is one second later. */
  lemma NextIsOneSecondLater(t: Timestamp)
    requires Exists(t)
    ensures Exists(Next(t)) && Instant(Next(t)) == Instant(t) + 1
  {
    if SecondOfDay(t) == 86399 {
      NextDay(t);
    } else {
      SameDay(t);
    }
  }

  lemma {:induction false} LaterMonth(year: nat, m: nat, n: nat)
    requires 1 <= m < n
    ensures DaysBeforeMonth(year, m) + DaysIn(year, m) <= DaysBeforeMonth(year, n)
  {
    if m < n - 1 {
      LaterMonth(year, m, n - 1);
    }
  }

  lemma {:induction false} LaterYear(y: nat, z: nat)
    requires y < z
    ensures DaysBeforeYear(y) + DaysBeforeMonth(y, 13) <= DaysBeforeYear(z)
  {
    if y < z - 1 {
      LaterYear(y, z - 1);
    }
  }

  /** The fields of one timestamp come before those of the other, most significant first. */
  predicate DateBefore(t: Timestamp, u: Timestamp) {
    t.year < u.year || (t.year == u.year && (t.month < u.month || (t.month == u.month && t.day < u.day)))
  }

  predicate TimeBefore(t: Timestamp, u: Timestamp) {
    t.hour < u.hour || (t.hour == u.hour && (t.minute < u.minute || (t.minute == u.minute && t.second < u.second)))
  }

  predicate SameDate(t: Timestamp, u: Timestamp) {
    t.year == u.year && t.month == u.month && t.day == u.day
  }

  predicate Before(t: Timestamp, u: Timestamp) {
    DateBefore(t, u) || (SameDate(t, u) && TimeBefore(t, u))
  }

  lemma EarlierDate(t: Timestamp, u: Timestamp)
    requires Exists(t) && Exists(u) && DateBefore(t, u)
    ensures DayNumber(t) < DayNumber(u)
  {
    if t.year < u.year {
      LaterYear(t.year, u.year);
      LaterMonth(t.year, t.month, 13);
    } else if t.month < u.month {
      LaterMonth(t.year, t.month, u.month);
    }
  }

  lemma EarlierInstant(t: Timestamp, u: Timestamp)
    requires Exists(t) && Exists(u) && Before(t, u)
    ensures Instant(t) < Instant(u)
  {
    if DateBefore(t, u) {
      EarlierDate(t, u);
    }
  }

  // ---------------------------------------------------------------- order of the texts

  /** `width` decimal digits, leading zeros kept. */
  function Padded(width: nat, n: nat): string {
    if width == 0 then "" else Padded(width - 1, n / 10) + [Digit(n % 10)]
  }

  function Power(width: nat): nat {
    if width == 0 then 1 else 10 * Power(width - 1)
  }

  /** YYYY-MM-DDTHH:MM:SSZ */
  function Format(t: Timestamp): string {
    Padded(4, t.year) + ("-" + (Padded(2, t.month) + ("-" + (Padded(2, t.day) + ("T" + TimeText(t))))))
  }

  function TimeText(t: Timestamp): string {
    Padded(2, t.hour) + (":" + (Padded(2, t.minute) + (":" + (Padded(2, t.second) + "Z"))))
  }

  lemma {:induction false} LeConcat(a: string, b: string, s: string, t: string)
    requires |a| == |b|
    ensures Le(a + s, b + t) <==> if a == b then Le(s, t) else Le(a, b)
  {
    if a == [] {
      assert a + s == s && b + t == t;
    } else {
      assert (a + s)[1..] == a[1..] + s && (b + t)[1..] == b[1..] + t;
      assert a == b <==> a[0] == b[0] && a[1..] == b[1..] by {
        assert a == [a[0]] + a[1..] && b == [b[0]] + b[1..];
      }
      LeConcat(a[1..], b[1..], s, t);
    }
  }

  lemma {:induction false} PaddedLength(width: nat, n: nat)
    ensures |Padded(width, n)| == width
  {
    if width > 0 {
      PaddedLength(width - 1, n / 10);
    }
  }

  /** Padded numbers compare as numbers. */
  lemma {:induction false} PaddedOrder(width: nat, m: nat, n: nat)
    requires m < Power(width) && n < Power(width)
    ensures Le(Padded(width, m), Padded(width, n)) <==> m <= n
    ensures Padded(width, m) == Padded(width, n) <==> m == n
  {
    if width > 0 {
      PaddedOrder(width - 1, m / 10, n / 10);
      PaddedLength(width - 1, m / 10);
      PaddedLength(width - 1, n / 10);
      var s, t := [Digit(m % 10)], [Digit(n % 10)];
      LeConcat(Padded(width - 1, m / 10), Padded(width - 1, n / 10), s, t);
      LastDigit(Padded(width - 1, m / 10), Padded(width - 1, n / 10), s, t);
      assert Le(s, t) <==> m % 10 <= n % 10;
    }
  }

  lemma LastDigit(a: string, b: string, s: string, t: string)
    requires |a| == |b|
    ensures a + s == b + t <==> a == b && s == t
  {
    if a + s == b + t {
      assert (a + s)[..|a|] == (b + t)[..|a|];
      assert (a + s)[|a|..] == (b + t)[|a|..];
    }
  }

  /** A field decides unless it is equal; then the rest decides. */
  lemma FieldDecides(width: nat, m: nat, n: nat, s: string, t: string)
    requires m < Power(width) && n < Power(width)
    ensures Le(Padded(width, m) + s, Padded(width, n) + t) <==> m < n || (m == n && Le(s, t))
  {
    PaddedLength(width, m);
    PaddedLength(width, n);
    PaddedOrder(width, m, n);
    LeConcat(Padded(width, m), Padded(width, n), s, t);
  }

  lemma SeparatorIsSkipped(c: char, s: string, t: string)
    ensures Le([c] + s, [c] + t) <==> Le(s, t)
  {
    LeConcat([c], [c], s, t);
  }

  lemma TimeTextOrder(t: Timestamp, u: Timestamp)
    requires Valid(t) && Valid(u)
    ensures Le(TimeText(t), TimeText(u)) <==> !TimeBefore(u, t)
  {
    Widths();
    var s1, s2 := Padded(2, t.second) + "Z", Padded(2, u.second) + "Z";
    var m1, m2 := Padded(2, t.minute) + (":" + s1), Padded(2, u.minute) + (":" + s2);
    LeReflexive("Z");
    FieldDecides(2, t.second, u.second, "Z", "Z");
    SeparatorIsSkipped(':', s1, s2);
    FieldDecides(2, t.minute, u.minute, ":" + s1, ":" + s2);
    SeparatorIsSkipped(':', m1, m2);
    FieldDecides(2, t.hour, u.hour, ":" + m1, ":" + m2);
  }

  lemma Widths()
    ensures Power(2) == 100 && Power(4) == 10000
  {
    assert Power(3) == 1000;
  }

  lemma FormatOrder(t: Timestamp, u: Timestamp)
    requires Valid(t) && Valid(u)
    ensures Le(Format(t), Format(u)) <==> !Before(u, t)
  {
    Widths();
    TimeTextOrder(t, u);
    var d1, d2 := Padded(2, t.day) + ("T" + TimeText(t)), Padded(2, u.day) + ("T" + TimeText(u));
    var m1, m2 := Padded(2, t.month) + ("-" + d1), Padded(2, u.month) + ("-" + d2);
    SeparatorIsSkipped('T', TimeText(t), TimeText(u));
    FieldDecides(2, t.day, u.day, "T" + TimeText(t), "T" + TimeText(u));
    SeparatorIsSkipped('-', d1, d2);
    FieldDecides(2, t.month, u.month, "-" + d1, "-" + d2);
    SeparatorIsSkipped('-', m1, m2);
    FieldDecides(4, t.year, u.year, "-" + m1, "-" + m2);
  }

  /** Text order is order in time, for every pair of dates and times that exist. */
  lemma TextOrderIsTimeOrder(t: Timestamp, u: Timestamp)
    requires Valid(t) && Valid(u)
    ensures Le(Format(t), Format(u)) <==> Instant(t) <= Instant(u)
  {
    FormatOrder(t, u);
    if Before(u, t) {
      EarlierInstant(u, t);
    } else if Before(t, u) {
      EarlierInstant(t, u);
    } else {
      assert t == u;
    }
  }

  // ---------------------------------------------------------------- the two window tests

  /** The Java test: a text the parser rejects is outside every window. */
  predicate InstantWindow(parse: string -> Option<int>, issued: string, decision: string, expires: string) {
    match (parse(issued), parse(decision), parse(expires))
    case (Some(start), Some(point), Some(end)) => !(point < start) && !(point > end)
    case _ => false
  }

  /** The parser reads every fixed-width timestamp as its instant, counted from some epoch. */
  ghost predicate ReadsTimestamps(parse: string -> Option<int>, epoch: int) {
    forall t :: Valid(t) ==> parse(Format(t)) == Some(Instant(t) - epoch)
  }

  /** The two tests give the same answer on fixed-width timestamps. */
  lemma WindowsAgree(parse: string -> Option<int>, epoch: int, issued: Timestamp, decision: Timestamp, expires: Timestamp)
    requires ReadsTimestamps(parse, epoch) && Valid(issued) && Valid(decision) && Valid(expires)
    ensures Within(Format(issued), Format(decision), Format(expires)) <==>
            InstantWindow(parse, Format(issued), Format(decision), Format(expires))
  {
    TextOrderIsTimeOrder(issued, decision);
    TextOrderIsTimeOrder(decision, expires);
  }

  /**
   * A missing issue time, read as the empty text, opens the Python window exactly until expiry, and the Java
   * window never.
   */
  lemma MissingIssueTimeDiverges(parse: string -> Option<int>, epoch: int, decision: Timestamp, expires: Timestamp)
    requires ReadsTimestamps(parse, epoch) && Valid(decision) && Valid(expires) && parse("") == None
    ensures Within("", Format(decision), Format(expires)) <==> Instant(decision) <= Instant(expires)
    ensures !InstantWindow(parse, "", Format(decision), Format(expires))
  {
    TextOrderIsTimeOrder(decision, expires);
  }

  lemma OneDigit(a: nat)
    requires a < 10
    ensures Padded(1, a) == [Digit(a)]
  {
    assert Padded(0, a / 10) == "";
  }

  lemma TwoDigits(a: nat, b: nat)
    requires a < 10 && b < 10
    ensures Padded(2, 10 * a + b) == [Digit(a), Digit(b)]
  {
    OneDigit(a);
    Quotient(a, b);
  }

  lemma Quotient(a: nat, b: nat)
    requires b < 10
    ensures (10 * a + b) / 10 == a && (10 * a + b) % 10 == b
  {}

  lemma TimeWrittenOut()
    ensures TimeText(Timestamp(2026, 7, 5, 9, 8, 3)) == "09:08:03Z"
  {
    TwoDigits(0, 9);
    TwoDigits(0, 8);
    TwoDigits(0, 3);
    assert Padded(2, 3) + "Z" == "03Z";
    assert Padded(2, 8) + (":" + "03Z") == "08:03Z";
    assert Padded(2, 9) + (":" + "08:03Z") == "09:08:03Z";
  }

  lemma YearWrittenOut()
    ensures Padded(4, 2026) == "2026"
  {
    TwoDigits(2, 0);
    assert Padded(3, 202) == Padded(2, 20) + ['2'];
    assert Padded(4, 2026) == Padded(3, 202) + ['6'];
  }

  lemma MonthWrittenOut(time: string)
    ensures Padded(2, 7) + ("-" + (Padded(2, 5) + ("T" + time))) == "07-05T" + time
  {
    TwoDigits(0, 7);
    TwoDigits(0, 5);
    assert "07" + ("-" + ("05" + ("T" + time))) == "07-05T" + time;
  }

  /** One timestamp, written out. */
  lemma WrittenOut()
    ensures Format(Timestamp(2026, 7, 5, 9, 8, 3)) == "2026-" + ("07-05T" + "09:08:03Z")
  {
    TimeWrittenOut();
    YearWrittenOut();
    MonthWrittenOut("09:08:03Z");
    assert "2026" + ("-" + ("07-05T" + "09:08:03Z")) == "2026-" + ("07-05T" + "09:08:03Z");
  }

  /** The end of February in a leap year, in a year that is none, and in the two kinds of century. */
  lemma EndOfFebruary()
    ensures Next(Timestamp(2024, 2, 28, 23, 59, 59)) == Timestamp(2024, 2, 29, 0, 0, 0)
    ensures Next(Timestamp(2023, 2, 28, 23, 59, 59)) == Timestamp(2023, 3, 1, 0, 0, 0)
    ensures Next(Timestamp(2100, 2, 28, 23, 59, 59)) == Timestamp(2100, 3, 1, 0, 0, 0)
    ensures Next(Timestamp(2000, 2, 28, 23, 59, 59)) == Timestamp(2000, 2, 29, 0, 0, 0)
  {}
}
