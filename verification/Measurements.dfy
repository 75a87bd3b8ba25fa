/** Measurement texts and quoted PCR values, as each of the two appraisers reads them. */
module Measurements {
  import opened Wrappers

  type Octet = n: int | 0 <= n < 256

  type Octets = seq<Octet>

  /** The value of an ASCII hexadecimal digit, or -1. */
  function HexDigit(c: char): int {
    if '0' <= c <= '9' then c as int - '0' as int
    else if 'a' <= c <= 'f' then c as int - 'a' as int + 10
    else if 'A' <= c <= 'F' then c as int - 'A' as int + 10
    else -1
  }

  predicate IsLower(c: char) {
    '0' <= c <= '9' || 'a' <= c <= 'f'
  }

  /** ASCII white space: tab, line feed, vertical tab, form feed, carriage return, blank. */
  predicate IsBlank(c: char) {
    c == ' ' || '\U{0009}' <= c <= '\U{000D}'
  }

  /** `bytes.fromhex`: pairs of digits of either case, blanks between pairs passed over. */
  function FromHex(s: string): Option<Octets> {
    if s == "" then Some([])
    else if IsBlank(s[0]) then FromHex(s[1..])
    else if |s| == 1 || HexDigit(s[0]) < 0 || HexDigit(s[1]) < 0 then None
    else
      match FromHex(s[2..])
      case None => None
      case Some(rest) => Some([HexDigit(s[0]) * 16 + HexDigit(s[1])] + rest)
  }

  /** The six blanks, and that they are passed over in front of a pair. */
  lemma BlanksPassed(c: char, s: string)
    ensures IsBlank(c) <==> c in [' ', '\t', '\n', '\U{000B}', '\U{000C}', '\r']
    ensures IsBlank(c) ==> FromHex([c] + s) == FromHex(s)
  {
    assert ([c] + s)[1..] == s;
  }

  const PREFIX := "sha256:"

  predicate HasForm(measurement: string) {
    |measurement| == |PREFIX| + 64 && measurement[..|PREFIX|] == PREFIX
  }

  /** The digest in a measurement; None is the ValueError for a wrong prefix, a wrong length or a text `fromhex` refuses. */
  function PythonDigest(measurement: string): Option<Octets> {
    if HasForm(measurement) then FromHex(measurement[|PREFIX|..]) else None
  }

  predicate AllLower(s: string) {
    forall i :: 0 <= i < |s| ==> IsLower(s[i])
  }

  /** The measurement pattern of the other appraiser: lower-case digits and nothing else. */
  predicate Matches(measurement: string) {
    HasForm(measurement) && AllLower(measurement[|PREFIX|..])
  }

  /** Pairs of digits, as bytes. */
  function Paired(s: string): Octets
    requires |s| % 2 == 0 && AllLower(s)
  {
    if s == "" then [] else [HexDigit(s[0]) * 16 + HexDigit(s[1])] + Paired(s[2..])
  }

  function JavaDigest(measurement: string): Option<Octets> {
    if Matches(measurement) then Some(Paired(measurement[|PREFIX|..])) else None
  }

  lemma {:induction false} LowerReads(s: string)
    requires |s| % 2 == 0 && AllLower(s)
    ensures FromHex(s) == Some(Paired(s))
  {
    if s != "" {
      LowerReads(s[2..]);
    }
  }

  /** The value of each ASCII digit, and of no other character. */
  lemma HexDigitExactly(c: char, n: int)
    requires 0 <= n < 16
    ensures HexDigit(c) == n <==> c == "0123456789abcdef"[n] || c == "0123456789ABCDEF"[n]
  {}

  /** Byte i of a digest is digit 2i times sixteen plus digit 2i + 1. */
  lemma {:induction false} PairedAt(s: string, i: nat)
    requires |s| % 2 == 0 && AllLower(s) && i < |s| / 2
    ensures |Paired(s)| == |s| / 2 && Paired(s)[i] == HexDigit(s[2 * i]) * 16 + HexDigit(s[2 * i + 1])
  {
    if i > 0 {
      PairedAt(s[2..], i - 1);
    } else if |s| > 2 {
      PairedAt(s[2..], 0);
    }
  }

  /** Both find the same digest unless Python reads one in a measurement that is not all lower case. */
  lemma DigestsAgreeExactly(measurement: string)
    ensures PythonDigest(measurement) == JavaDigest(measurement) <==>
            PythonDigest(measurement) == None || Matches(measurement)
    ensures Matches(measurement) ==> PythonDigest(measurement) == JavaDigest(measurement)
  {
    if Matches(measurement) {
      LowerReads(measurement[|PREFIX|..]);
    }
  }

  // ---------------------------------------------------------------- the quoted value in the tool's output

  /** ASCII lower case. */
  function Folded(c: char): char {
    if 'A' <= c <= 'Z' then (c as int + 32) as char else c
  }

  predicate SameFolded(a: string, b: string) {
    |a| == |b| && forall i :: 0 <= i < |a| ==> Folded(a[i]) == Folded(b[i])
  }

  predicate FoundAt(output: string, pcr: string, i: nat) {
    i + |pcr| <= |output| && SameFolded(output[i..i + |pcr|], pcr)
  }

  /** The Python search: the value anywhere in the output, in either case. */
  predicate PythonFinds(output: string, pcr: string) {
    exists i: nat :: i <= |output| && FoundAt(output, pcr, i)
  }

  predicate IsTerminator(c: char) {
    c == '\n' || c == '\r' || c == '\U{0085}' || c == '\U{2028}' || c == '\U{2029}'
  }

  /** `^` of a multi-line pattern. */
  predicate LineStarts(s: string, i: nat) {
    i == 0 || (i < |s| && IsTerminator(s[i - 1]) && !(s[i - 1] == '\r' && s[i] == '\n'))
  }

  /** `$` of a multi-line pattern. */
  predicate LineEnds(s: string, i: nat)
    requires i <= |s|
  {
    i == |s| || (IsTerminator(s[i]) && !(i > 0 && s[i - 1] == '\r' && s[i] == '\n'))
  }

  predicate AllBlank(s: string) {
    forall i :: 0 <= i < |s| ==> IsBlank(s[i])
  }

  predicate AllHex(s: string) {
    forall i :: 0 <= i < |s| ==> HexDigit(s[i]) >= 0
  }

  /** A line for PCR 16: blanks from `start`, "16:" at `name`, "0x" at `mark`, 64 digits, blanks up to `end`. */
  predicate PcrLine(s: string, start: nat, name: nat, mark: nat, end: nat) {
    && start <= name && name + 3 <= mark && mark + 66 <= end <= |s|
    && LineStarts(s, start) && AllBlank(s[start..name]) && s[name..name + 3] == "16:"
    && AllBlank(s[name + 3..mark]) && SameFolded(s[mark..mark + 2], "0x")
    && AllHex(s[mark + 2..mark + 66]) && AllBlank(s[mark + 66..end]) && LineEnds(s, end)
  }

  /** The Java search: the value on a line of its PCR. */
  predicate JavaFinds(output: string, pcr: string) {
    exists start: nat, name: nat, mark: nat, end: nat ::
      start <= |output| && name <= |output| && mark <= |output| && end <= |output|
      && PcrLine(output, start, name, mark, end) && SameFolded(output[mark + 2..mark + 66], pcr)
  }

  /** What Java finds, Python finds. */
  lemma JavaFindsLess(output: string, pcr: string)
    requires JavaFinds(output, pcr)
    ensures PythonFinds(output, pcr)
  {
    var start: nat, name: nat, mark: nat, end: nat :|
      start <= |output| && name <= |output| && mark <= |output| && end <= |output|
      && PcrLine(output, start, name, mark, end) && SameFolded(output[mark + 2..mark + 66], pcr);
    assert mark + 66 <= |output|;
    assert |pcr| == 64 && output[mark + 2..mark + 66] == output[mark + 2..mark + 2 + |pcr|];
    assert FoundAt(output, pcr, mark + 2);
  }

  lemma LineNames(s: string, start: nat, name: nat, mark: nat, end: nat)
    requires PcrLine(s, start, name, mark, end)
    ensures name + 69 <= |s| && s[name] == '1' && s[name + 1] == '6'
  {
    assert s[name..name + 3][0] == '1' && s[name..name + 3][1] == '6';
  }

  /** But not the other way round: the value on the line of another PCR. */
  lemma OtherLineFoundByPythonOnly(pcr: string)
    requires |pcr| == 64
    ensures PythonFinds("17: 0x" + pcr, pcr) && !JavaFinds("17: 0x" + pcr, pcr)
  {
    var output := "17: 0x" + pcr;
    assert output[6..70] == pcr && output[1] == '7';
    assert FoundAt(output, pcr, 6);
    if start: nat, name: nat, mark: nat, end: nat :| PcrLine(output, start, name, mark, end) {
      LineNames(output, start, name, mark, end);
    }
  }

  lemma SameIsFolded(s: string)
    ensures SameFolded(s, s)
  {}

  /** The value on the line of its own PCR is found by both, wherever that line stands and however it ends. */
  lemma OwnLineFoundByBoth(before: string, pcr: string, after: string)
    requires |pcr| == 64 && AllHex(pcr) && (before == "" || before[|before| - 1] == '\n')
    requires after == "" || after[0] == '\n'
    ensures JavaFinds(before + "16: 0x" + pcr + after, pcr) && PythonFinds(before + "16: 0x" + pcr + after, pcr)
  {
    var output, n := before + "16: 0x" + pcr + after, |before|;
    assert output[n..n + 3] == "16:" && output[n + 3..n + 4] == " " && output[n + 4..n + 6] == "0x";
    assert output[n + 6..n + 70] == pcr && output[n..n] == "" && output[n + 70..n + 70] == "";
    assert output[n] == '1' && (n > 0 ==> output[n - 1] == '\n');
    assert n + 70 < |output| ==> output[n + 70] == after[0] && output[n + 69] == pcr[63];
    assert HexDigit(pcr[63]) >= 0;
    SameIsFolded("0x");
    SameIsFolded(pcr);
    assert AllBlank(output[n + 3..n + 4]);
    assert PcrLine(output, n, n, n + 4, n + 70);
    JavaFindsLess(output, pcr);
  }
}
