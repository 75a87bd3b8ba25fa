/** The second, separately written appraiser, and when it gives the first one's answer. */
module IndependentAppraisal {
  import opened Wrappers
  import opened Lexicographic
  import opened Measurements
  import opened Timestamps
  import opened Transcript
  import opened StateAppraisal

  /** What this appraiser checks and the first one does not: four facts about the evidence and its root. */
  datatype Pins = Pins(profile: bool, pcrIndex: bool, rootKey: bool, rootAlgorithm: bool)

  datatype Failure = ProfileBinding | PcrIndexBinding | RootKeyBinding | RootAlgorithmBinding | MalformedMeasurement
                   | Other(reason: Reason)

  /** An absent string reads as the empty one. */
  function OrEmpty(value: Option<string>): string {
    match value
    case None => ""
    case Some(s) => s
  }

  function Unless(holds: bool, failure: Failure): seq<Failure> {
    if holds then [] else [failure]
  }

  function SubjectFailures(e: Envelope, policy: Policy): seq<Failure> {
    Unless(e.corpus == policy.corpus, Other(SourceCorpusBinding))
    + Unless(OrEmpty(Lookup(policy.challenges, e.transaction)) == e.challenge, Other(ChallengeBinding))
    + Unless(OrEmpty(Lookup(policy.capsules, e.transaction)) == e.capsule, Other(SubjectBinding))
  }

  /** Before the attestation key is decoded. */
  function EarlyFailures(e: Envelope, pins: Pins, policy: Policy): seq<Failure> {
    Unless(pins.profile, ProfileBinding) + Unless(pins.pcrIndex, PcrIndexBinding) + SubjectFailures(e, policy)
  }

  function RootFailures(e: Envelope, pins: Pins): seq<Failure> {
    Unless(pins.rootKey, RootKeyBinding) + Unless(pins.rootAlgorithm, RootAlgorithmBinding)
    + Unless(Matches(e.measurement), MalformedMeasurement)
  }

  /** The value is on its PCR's line; a malformed measurement has no value. */
  predicate LineFound(output: string, measurement: string, n: Natives) {
    match JavaDigest(measurement)
    case None => false
    case Some(digest) => JavaFinds(output, n.pcr(digest))
  }

  function QuoteFailures(evidence: Evidence, n: Natives, decode: Decoder): seq<Failure> {
    match Decoded(evidence.blobs, decode)
    case None => [Other(Malformed)]
    case Some(raw) =>
      var run := n.run(raw, n.qualify(Text(evidence.envelope)));
      Unless(run.code == 0, Other(NativeQuote))
      + Unless(LineFound(run.output, evidence.envelope.measurement, n), Other(PcrBinding))
  }

  function Failures(evidence: Evidence, pins: Pins, policy: Policy, n: Natives, decode: Decoder): seq<Failure> {
    EarlyFailures(evidence.envelope, pins, policy) + RootFailures(evidence.envelope, pins)
    + QuoteFailures(evidence, n, decode)
  }

  function Ladder(failures: seq<Failure>, e: Envelope, policy: Policy, parse: string -> Option<int>): Result {
    if failures != [] then CryptographicFailure
    else if e.measurement in policy.denied then Contraindicated
    else if !InstantWindow(parse, e.issued, policy.decisionTime, e.expires) then Stale
    else if e.measurement != OrEmpty(Lookup(policy.references, e.transaction)) then ReferenceMismatch
    else Pass
  }

  /** The verdict of this appraiser. */
  function Verdict(evidence: Evidence, pins: Pins, policy: Policy, n: Natives, decode: Decoder,
                   parse: string -> Option<int>): Result {
    if decode(evidence.blobs.akPub).None? then BadKey
    else Ladder(Failures(evidence, pins, policy, n, decode), evidence.envelope, policy, parse)
  }

  method CheckBindings(envelope: Envelope, pins: Pins, policy: Policy) returns (failures: seq<Failure>)
    ensures failures == EarlyFailures(envelope, pins, policy)
  {
    failures := [];
    if !pins.profile {
      failures := failures + [ProfileBinding];
    }
    if !pins.pcrIndex {
      failures := failures + [PcrIndexBinding];
    }
    failures := AppendSubjects(envelope, policy, failures);
  }

  method AppendSubjects(envelope: Envelope, policy: Policy, before: seq<Failure>) returns (failures: seq<Failure>)
    ensures failures == before + SubjectFailures(envelope, policy)
  {
    failures := before;
    if envelope.corpus != policy.corpus {
      failures := failures + [Other(SourceCorpusBinding)];
    }
    if OrEmpty(Lookup(policy.challenges, envelope.transaction)) != envelope.challenge {
      failures := failures + [Other(ChallengeBinding)];
    }
    if OrEmpty(Lookup(policy.capsules, envelope.transaction)) != envelope.capsule {
      failures := failures + [Other(SubjectBinding)];
    }
  }

  method AppendRoot(envelope: Envelope, pins: Pins, before: seq<Failure>) returns (failures: seq<Failure>)
    ensures failures == before + RootFailures(envelope, pins)
  {
    failures := before;
    if !pins.rootKey {
      failures := failures + [RootKeyBinding];
    }
    if !pins.rootAlgorithm {
      failures := failures + [RootAlgorithmBinding];
    }
    if JavaDigest(envelope.measurement).None? {
      failures := failures + [MalformedMeasurement];
    }
  }

  method AppendQuote(evidence: Evidence, n: Natives, decode: Decoder, before: seq<Failure>)
    returns (failures: seq<Failure>)
    ensures failures == before + QuoteFailures(evidence, n, decode)
  {
    failures := before;
    var raw := Decoded(evidence.blobs, decode);
    if raw.None? {
      failures := failures + [Other(Malformed)];
    } else {
      var run := n.run(raw.value, n.qualify(Text(evidence.envelope)));
      if run.code != 0 {
        failures := failures + [Other(NativeQuote)];
      }
      if !LineFound(run.output, evidence.envelope.measurement, n) {
        failures := failures + [Other(PcrBinding)];
      }
    }
  }

  method Appraise(evidence: Evidence, pins: Pins, policy: Policy, n: Natives, decode: Decoder,
                  parse: string -> Option<int>) returns (result: Result, failures: seq<Failure>)
    ensures result == Verdict(evidence, pins, policy, n, decode, parse)
    ensures result != BadKey ==> failures == Failures(evidence, pins, policy, n, decode)
  {
    failures := CheckBindings(evidence.envelope, pins, policy);
    if decode(evidence.blobs.akPub).None? {
      return BadKey, failures;
    }
    failures := AppendRoot(evidence.envelope, pins, failures);
    failures := AppendQuote(evidence, n, decode, failures);
    result := Ladder(failures, evidence.envelope, policy, parse);
  }

  // ---------------------------------------------------------------- which failures are given

  /** The order in which failures are gathered. */
  function FailureRank(failure: Failure): nat {
    match failure
    case ProfileBinding => 0
    case PcrIndexBinding => 1
    case RootKeyBinding => 5
    case RootAlgorithmBinding => 6
    case MalformedMeasurement => 7
    case Other(reason) => if reason in [SourceCorpusBinding, ChallengeBinding, SubjectBinding]
                          then 2 + ReasonRank(reason) else 5 + ReasonRank(reason)
  }

  /** The policy's entry for the transaction, or the empty text, differs. */
  predicate Differs(m: map<string, string>, key: string, value: string) {
    if key in m then m[key] != value else value != ""
  }

  /** What each failure says of the evidence. */
  ghost predicate Fails(failure: Failure, evidence: Evidence, pins: Pins, policy: Policy, n: Natives, decode: Decoder) {
    match failure
    case ProfileBinding => !pins.profile
    case PcrIndexBinding => !pins.pcrIndex
    case RootKeyBinding => !pins.rootKey
    case RootAlgorithmBinding => !pins.rootAlgorithm
    case MalformedMeasurement => JavaDigest(evidence.envelope.measurement) == None
    case Other(SourceCorpusBinding) => evidence.envelope.corpus != policy.corpus
    case Other(ChallengeBinding) => Differs(policy.challenges, evidence.envelope.transaction, evidence.envelope.challenge)
    case Other(SubjectBinding) => Differs(policy.capsules, evidence.envelope.transaction, evidence.envelope.capsule)
    case Other(NativeQuote) => RunOf(evidence, n, decode).Some? && RunOf(evidence, n, decode).value.code != 0
    case Other(PcrBinding) =>
      RunOf(evidence, n, decode).Some?
      && !LineFound(RunOf(evidence, n, decode).value.output, evidence.envelope.measurement, n)
    case Other(Malformed) => RunOf(evidence, n, decode) == None
  }

  predicate InOrder(failures: seq<Failure>) {
    forall i, j :: 0 <= i < j < |failures| ==> FailureRank(failures[i]) < FailureRank(failures[j])
  }

  predicate RankedIn(failures: seq<Failure>, low: nat, high: nat) {
    InOrder(failures) && forall f :: f in failures ==> low <= FailureRank(f) < high
  }

  lemma InOrderConcat(a: seq<Failure>, b: seq<Failure>, low: nat, middle: nat, high: nat)
    requires RankedIn(a, low, middle) && RankedIn(b, middle, high) && low <= middle <= high
    ensures RankedIn(a + b, low, high)
  {
    assert forall i :: 0 <= i < |a| ==> a[i] in a;
    assert forall i :: 0 <= i < |b| ==> b[i] in b;
  }

  lemma UnlessRanked(holds: bool, failure: Failure)
    ensures RankedIn(Unless(holds, failure), FailureRank(failure), FailureRank(failure) + 1)
    ensures forall f :: f in Unless(holds, failure) <==> f == failure && !holds
  {}

  lemma InThree(a: seq<Failure>, b: seq<Failure>, c: seq<Failure>, failure: Failure)
    ensures failure in a + b + c <==> failure in a || failure in b || failure in c
  {}

  lemma ThreeInOrder(p: bool, q: bool, r: bool)
    ensures RankedIn(Unless(p, Other(SourceCorpusBinding)) + Unless(q, Other(ChallengeBinding))
                     + Unless(r, Other(SubjectBinding)), 2, 5)
  {
    var a, b := Unless(p, Other(SourceCorpusBinding)), Unless(q, Other(ChallengeBinding));
    UnlessRanked(p, Other(SourceCorpusBinding));
    UnlessRanked(q, Other(ChallengeBinding));
    UnlessRanked(r, Other(SubjectBinding));
    InOrderConcat(a, b, 2, 3, 4);
    InOrderConcat(a + b, Unless(r, Other(SubjectBinding)), 2, 4, 5);
  }

  lemma SubjectExactly(e: Envelope, policy: Policy, failure: Failure)
    ensures failure in SubjectFailures(e, policy) <==>
            || (failure == Other(SourceCorpusBinding) && e.corpus != policy.corpus)
            || (failure == Other(ChallengeBinding) && Differs(policy.challenges, e.transaction, e.challenge))
            || (failure == Other(SubjectBinding) && Differs(policy.capsules, e.transaction, e.capsule))
    ensures RankedIn(SubjectFailures(e, policy), 2, 5)
  {
    var p, q := e.corpus == policy.corpus, OrEmpty(Lookup(policy.challenges, e.transaction)) == e.challenge;
    var r := OrEmpty(Lookup(policy.capsules, e.transaction)) == e.capsule;
    ThreeInOrder(p, q, r);
    UnlessRanked(p, Other(SourceCorpusBinding));
    UnlessRanked(q, Other(ChallengeBinding));
    UnlessRanked(r, Other(SubjectBinding));
    InThree(Unless(p, Other(SourceCorpusBinding)), Unless(q, Other(ChallengeBinding)), Unless(r, Other(SubjectBinding)),
            failure);
  }

  lemma EarlyExactly(evidence: Evidence, pins: Pins, policy: Policy, n: Natives, decode: Decoder, failure: Failure)
    ensures failure in EarlyFailures(evidence.envelope, pins, policy) <==>
            FailureRank(failure) < 5 && Fails(failure, evidence, pins, policy, n, decode)
    ensures RankedIn(EarlyFailures(evidence.envelope, pins, policy), 0, 5)
  {
    var profile, index := Unless(pins.profile, ProfileBinding), Unless(pins.pcrIndex, PcrIndexBinding);
    var subjects := SubjectFailures(evidence.envelope, policy);
    UnlessRanked(pins.profile, ProfileBinding);
    UnlessRanked(pins.pcrIndex, PcrIndexBinding);
    SubjectExactly(evidence.envelope, policy, failure);
    InOrderConcat(profile, index, 0, 1, 2);
    InOrderConcat(profile + index, subjects, 0, 2, 5);
    InThree(profile, index, subjects, failure);
  }

  lemma RootExactly(evidence: Evidence, pins: Pins, policy: Policy, n: Natives, decode: Decoder, failure: Failure)
    ensures failure in RootFailures(evidence.envelope, pins) <==>
            5 <= FailureRank(failure) < 8 && Fails(failure, evidence, pins, policy, n, decode)
    ensures RankedIn(RootFailures(evidence.envelope, pins), 5, 8)
  {}

  lemma RunExactly(run: Run, measurement: string, n: Natives, failure: Failure)
    ensures var failures := Unless(run.code == 0, Other(NativeQuote))
                            + Unless(LineFound(run.output, measurement, n), Other(PcrBinding));
            && RankedIn(failures, 8, 11)
            && (failure in failures <==>
                || (failure == Other(NativeQuote) && run.code != 0)
                || (failure == Other(PcrBinding) && !LineFound(run.output, measurement, n)))
  {
    var refused, missing := Unless(run.code == 0, Other(NativeQuote)),
                            Unless(LineFound(run.output, measurement, n), Other(PcrBinding));
    UnlessRanked(run.code == 0, Other(NativeQuote));
    UnlessRanked(LineFound(run.output, measurement, n), Other(PcrBinding));
    InOrderConcat(refused, missing, 8, 9, 11);
    assert failure in refused + missing <==> failure in refused || failure in missing;
  }

  lemma QuoteExactly(evidence: Evidence, pins: Pins, policy: Policy, n: Natives, decode: Decoder, failure: Failure)
    ensures failure in QuoteFailures(evidence, n, decode) <==>
            8 <= FailureRank(failure) && Fails(failure, evidence, pins, policy, n, decode)
    ensures RankedIn(QuoteFailures(evidence, n, decode), 8, 11)
  {
    if RunOf(evidence, n, decode).Some? {
      RunExactly(RunOf(evidence, n, decode).value, evidence.envelope.measurement, n, failure);
    }
  }

  /** The failures given are exactly those that hold, each once and in their order. */
  lemma FailuresExactly(evidence: Evidence, pins: Pins, policy: Policy, n: Natives, decode: Decoder, failure: Failure)
    ensures failure in Failures(evidence, pins, policy, n, decode) <==>
            Fails(failure, evidence, pins, policy, n, decode)
    ensures InOrder(Failures(evidence, pins, policy, n, decode))
  {
    var early, root := EarlyFailures(evidence.envelope, pins, policy), RootFailures(evidence.envelope, pins);
    var quote := QuoteFailures(evidence, n, decode);
    EarlyExactly(evidence, pins, policy, n, decode, failure);
    RootExactly(evidence, pins, policy, n, decode, failure);
    QuoteExactly(evidence, pins, policy, n, decode, failure);
    InOrderConcat(early, root, 0, 5, 8);
    InOrderConcat(early + root, quote, 0, 8, 11);
    InThree(early, root, quote, failure);
  }

  // ---------------------------------------------------------------- when nothing is held against the evidence

  predicate Pinned(pins: Pins) {
    pins.profile && pins.pcrIndex && pins.rootKey && pins.rootAlgorithm
  }

  predicate PythonBound(e: Envelope, policy: Policy) {
    && e.corpus == policy.corpus
    && Lookup(policy.challenges, e.transaction) == Some(e.challenge)
    && Lookup(policy.capsules, e.transaction) == Some(e.capsule)
  }

  predicate JavaBound(e: Envelope, policy: Policy) {
    && e.corpus == policy.corpus
    && OrEmpty(Lookup(policy.challenges, e.transaction)) == e.challenge
    && OrEmpty(Lookup(policy.capsules, e.transaction)) == e.capsule
  }

  /** The blobs decode, the measurement has a digest, the quote checks and its value is in the output. */
  predicate PythonQuoted(evidence: Evidence, n: Natives, decode: Decoder) {
    match (Decoded(evidence.blobs, decode), PythonDigest(evidence.envelope.measurement))
    case (Some(raw), Some(digest)) =>
      var run := n.run(raw, n.qualify(Text(evidence.envelope)));
      run.code == 0 && PythonFinds(run.output, n.pcr(digest))
    case _ => false
  }

  /** The same with this appraiser's decoder, its pattern, and the value on its own line. */
  predicate JavaQuoted(evidence: Evidence, n: Natives, decode: Decoder) {
    match Decoded(evidence.blobs, decode)
    case None => false
    case Some(raw) =>
      var run := n.run(raw, n.qualify(Text(evidence.envelope)));
      run.code == 0 && LineFound(run.output, evidence.envelope.measurement, n)
  }

  lemma PythonCleanExactly(evidence: Evidence, policy: Policy, n: Natives, decode: Decoder)
    ensures Reasons(evidence, policy, n, decode) == [] <==>
            PythonBound(evidence.envelope, policy) && PythonQuoted(evidence, n, decode)
  {
    var b, r := BindingReasons(evidence.envelope, policy), NativeReasons(evidence, n, decode);
    assert |b + r| == |b| + |r|;
  }

  lemma EarlyCleanExactly(e: Envelope, pins: Pins, policy: Policy)
    ensures EarlyFailures(e, pins, policy) == [] <==> pins.profile && pins.pcrIndex && JavaBound(e, policy)
  {}

  lemma JavaCleanExactly(evidence: Evidence, pins: Pins, policy: Policy, n: Natives, decode: Decoder)
    ensures Failures(evidence, pins, policy, n, decode) == [] <==>
            Pinned(pins) && JavaBound(evidence.envelope, policy) && JavaQuoted(evidence, n, decode)
  {
    var a, b, c := EarlyFailures(evidence.envelope, pins, policy), RootFailures(evidence.envelope, pins),
                   QuoteFailures(evidence, n, decode);
    EarlyCleanExactly(evidence.envelope, pins, policy);
    assert |a + b + c| == |a| + |b| + |c|;
  }

  /** The rungs after the failures give the same answer. */
  predicate SameRungs(e: Envelope, policy: Policy, parse: string -> Option<int>) {
    var within := Within(e.issued, policy.decisionTime, e.expires);
    e.measurement in policy.denied
    || ((within <==> InstantWindow(parse, e.issued, policy.decisionTime, e.expires))
        && (within ==> e.transaction in policy.references))
  }

  lemma RungsExactly(e: Envelope, policy: Policy, parse: string -> Option<int>)
    ensures Decide([], e, policy) == Ladder([], e, policy, parse) <==> SameRungs(e, policy, parse)
    ensures Decide([], e, policy) != CryptographicFailure && Ladder([], e, policy, parse) != CryptographicFailure
  {}

  /**
   * When the two appraisers agree, on their inputs alone. Evidence the first one holds nothing against must be
   * pinned, quoted in this one's stricter sense, and meet rungs of one answer; evidence the first one fails must
   * fail here too; and the attestation key must decode.
   */
  lemma AppraisersAgreeExactly(evidence: Evidence, pins: Pins, policy: Policy, n: Natives, python: Decoder,
                               java: Decoder, parse: string -> Option<int>)
    ensures Verdict(evidence, pins, policy, n, java, parse) == Appraised(evidence, policy, n, python) <==>
            java(evidence.blobs.akPub).Some?
            && if PythonBound(evidence.envelope, policy) && PythonQuoted(evidence, n, python)
               then Pinned(pins) && JavaQuoted(evidence, n, java) && SameRungs(evidence.envelope, policy, parse)
               else !(Pinned(pins) && JavaBound(evidence.envelope, policy) && JavaQuoted(evidence, n, java))
  {
    PythonCleanExactly(evidence, policy, n, python);
    JavaCleanExactly(evidence, pins, policy, n, java);
    RungsExactly(evidence.envelope, policy, parse);
  }

  // ---------------------------------------------------------------- evidence whose blobs both decode alike

  /** No blank field meets a missing answer: that is the empty text to one appraiser and nothing to the other. */
  predicate Covers(policy: Policy, e: Envelope) {
    && (e.challenge == "" ==> e.transaction in policy.challenges)
    && (e.capsule == "" ==> e.transaction in policy.capsules)
  }

  lemma BoundExactly(e: Envelope, policy: Policy)
    ensures PythonBound(e, policy) <==> JavaBound(e, policy) && Covers(policy, e)
  {}

  /** On the same bytes this appraiser is the stricter: it wants lower case and the value on its own line. */
  lemma QuotedExactly(evidence: Evidence, n: Natives, python: Decoder, java: Decoder)
    requires Decoded(evidence.blobs, python) == Decoded(evidence.blobs, java)
    requires forall digest :: |n.pcr(digest)| == 64
    ensures JavaQuoted(evidence, n, java) ==> PythonQuoted(evidence, n, python)
    ensures PythonQuoted(evidence, n, python) ==>
              var output := n.run(Decoded(evidence.blobs, python).value, n.qualify(Text(evidence.envelope))).output;
              (JavaQuoted(evidence, n, java) <==>
               Matches(evidence.envelope.measurement) && LineFound(output, evidence.envelope.measurement, n))
  {
    DigestsAgreeExactly(evidence.envelope.measurement);
    if JavaQuoted(evidence, n, java) {
      var run := n.run(Decoded(evidence.blobs, java).value, n.qualify(Text(evidence.envelope)));
      JavaFindsLess(run.output, n.pcr(JavaDigest(evidence.envelope.measurement).value));
    }
  }

  /** The text is a fixed-width timestamp. */
  ghost predicate IsTimestamp(s: string) {
    exists t :: Valid(t) && Format(t) == s
  }

  lemma SameWindow(parse: string -> Option<int>, epoch: int, issued: string, decision: string, expires: string)
    requires ReadsTimestamps(parse, epoch) && IsTimestamp(issued) && IsTimestamp(decision) && IsTimestamp(expires)
    ensures InstantWindow(parse, issued, decision, expires) <==> Within(issued, decision, expires)
  {
    var t :| Valid(t) && Format(t) == issued;
    var u :| Valid(u) && Format(u) == decision;
    var v :| Valid(v) && Format(v) == expires;
    WindowsAgree(parse, epoch, t, u, v);
  }

  /**
   * On blobs both decode alike and fixed-width timestamps the appraisers differ exactly where, the first one
   * holding nothing against the evidence, a pin fails, the measurement is not lower case, its value is not on its
   * own line, or both reach a reference the policy lacks; or where only a blank field without an answer kept the
   * first one from accepting.
   */
  lemma SameBytesAgreeExactly(evidence: Evidence, pins: Pins, policy: Policy, n: Natives, python: Decoder,
                              java: Decoder, parse: string -> Option<int>, epoch: int)
    requires Decoded(evidence.blobs, python) == Decoded(evidence.blobs, java)
    requires Decoded(evidence.blobs, python).Some? && forall digest :: |n.pcr(digest)| == 64
    requires ReadsTimestamps(parse, epoch) && IsTimestamp(evidence.envelope.issued)
    requires IsTimestamp(policy.decisionTime) && IsTimestamp(evidence.envelope.expires)
    ensures var e := evidence.envelope;
            var output := n.run(Decoded(evidence.blobs, python).value, n.qualify(Text(e))).output;
            Verdict(evidence, pins, policy, n, java, parse) == Appraised(evidence, policy, n, python) <==>
            if PythonBound(e, policy) && PythonQuoted(evidence, n, python)
            then Pinned(pins) && Matches(e.measurement) && LineFound(output, e.measurement, n)
                 && (e.measurement in policy.denied || !Within(e.issued, policy.decisionTime, e.expires)
                     || e.transaction in policy.references)
            else Covers(policy, e) || !(Pinned(pins) && JavaBound(e, policy) && JavaQuoted(evidence, n, java))
  {
    var e := evidence.envelope;
    AppraisersAgreeExactly(evidence, pins, policy, n, python, java, parse);
    BoundExactly(e, policy);
    QuotedExactly(evidence, n, python, java);
    SameWindow(parse, epoch, e.issued, policy.decisionTime, e.expires);
  }

  // ---------------------------------------------------------------- two inputs on which they differ

  const NOON := "2026-07-25T12:00:00Z"

  /** An output with the value on its line, and nothing else. */
  function LineOf(pcr: string): string {
    "16: 0x" + pcr
  }

  /** A digest whose PCR value is sixty-four zeros, quoted for every option. */
  function Quoting(pcr: string): Natives {
    Natives(s => s, (raw, q) => Run(0, LineOf(pcr)), digest => pcr)
  }

  function EvidenceFor(measurement: string, quote: string): Evidence {
    Evidence(Envelope("c", "t", "k", measurement, NOON, NOON, "n"), Blobs("", quote, "", ""))
  }

  function PolicyFor(measurement: string): Policy {
    Policy("c", map["t" := "n"], map["t" := "k"], [], NOON, map["t" := measurement])
  }

  lemma {:induction false} CapitalsRead(n: nat)
    ensures FromHex(seq(2 * n, _ => 'A')).Some?
  {
    if n > 0 {
      var s := seq(2 * n, _ => 'A');
      assert s[2..] == seq(2 * (n - 1), _ => 'A');
      CapitalsRead(n - 1);
    }
  }

  lemma LineIsFound(pcr: string)
    requires |pcr| == 64 && AllHex(pcr)
    ensures JavaFinds(LineOf(pcr), pcr) && PythonFinds(LineOf(pcr), pcr)
  {
    var output := LineOf(pcr);
    assert output[6..70] == pcr;
    assert output[0..3] == "16:" && output[3..4] == " " && output[4..6] == "0x";
    assert PcrLine(output, 0, 0, 4, 70);
    JavaFindsLess(output, pcr);
  }

  /** A measurement in capitals: PASS to the first appraiser, a cryptographic failure to this one. */
  lemma CapitalsDiverge(parse: string -> Option<int>)
    ensures var (m, pcr, decode) := (PREFIX + seq(64, _ => 'A'), seq(64, _ => '0'), (s: string) => Some([]));
            var (evidence, policy) := (EvidenceFor(m, ""), PolicyFor(m));
            && Appraised(evidence, policy, Quoting(pcr), decode) == Pass
            && Verdict(evidence, Pins(true, true, true, true), policy, Quoting(pcr), decode, parse) == CryptographicFailure
  {
    var m, pcr: string, decode: Decoder := PREFIX + seq(64, _ => 'A'), seq(64, _ => '0'), (s: string) => Some([]);
    var evidence, policy, pins := EvidenceFor(m, ""), PolicyFor(m), Pins(true, true, true, true);
    CapitalsRead(32);
    assert m[..|PREFIX|] == PREFIX && m[|PREFIX|..] == seq(64, _ => 'A');
    assert !IsLower(m[|PREFIX|..][0]);
    LineIsFound(pcr);
    LeReflexive(NOON);
    PythonCleanExactly(evidence, policy, Quoting(pcr), decode);
    JavaCleanExactly(evidence, pins, policy, Quoting(pcr), decode);
  }

  lemma UndecodableFails(evidence: Evidence, policy: Policy, n: Natives, decode: Decoder)
    requires Decoded(evidence.blobs, decode).None?
    ensures Appraised(evidence, policy, n, decode) == CryptographicFailure
  {
    PythonCleanExactly(evidence, policy, n, decode);
  }

  lemma LowerCaseQuoted(m: string, quote: string, decode: Decoder)
    requires Matches(m) && Decoded(EvidenceFor(m, quote).blobs, decode).Some?
    ensures JavaQuoted(EvidenceFor(m, quote), Quoting(seq(64, _ => '0')), decode)
  {
    LineIsFound(seq(64, _ => '0'));
  }

  /** Clean evidence inside its window that equals its reference passes. */
  lemma CleanPasses(evidence: Evidence, policy: Policy, n: Natives, decode: Decoder, parse: string -> Option<int>)
    requires JavaBound(evidence.envelope, policy) && JavaQuoted(evidence, n, decode)
    requires evidence.envelope.measurement !in policy.denied
    requires InstantWindow(parse, evidence.envelope.issued, policy.decisionTime, evidence.envelope.expires)
    requires Lookup(policy.references, evidence.envelope.transaction) == Some(evidence.envelope.measurement)
    ensures Verdict(evidence, Pins(true, true, true, true), policy, n, decode, parse) == Pass
  {
    JavaCleanExactly(evidence, Pins(true, true, true, true), policy, n, decode);
  }

  /** A quote without its base64 padding, to decoders that differ on that alone: the other way round. */
  lemma PaddingDiverges()
    ensures var (m, pcr) := (PREFIX + seq(64, _ => '0'), seq(64, _ => '0'));
            var (strict, lax) := ((s: string) => if |s| % 4 == 0 then Some([]) else None, (s: string) => Some([]));
            var (evidence, policy) := (EvidenceFor(m, "AA"), PolicyFor(m));
            && Appraised(evidence, policy, Quoting(pcr), strict) == CryptographicFailure
            && Verdict(evidence, Pins(true, true, true, true), policy, Quoting(pcr), lax, (s: string) => Some(0)) == Pass
  {
    var m, pcr: string := PREFIX + seq(64, _ => '0'), seq(64, _ => '0');
    var strict: Decoder, lax: Decoder := (s: string) => if |s| % 4 == 0 then Some([]) else None, (s: string) => Some([]);
    assert m[..|PREFIX|] == PREFIX && m[|PREFIX|..] == pcr;
    assert Matches(m);
    UndecodableFails(EvidenceFor(m, "AA"), PolicyFor(m), Quoting(pcr), strict);
    LowerCaseQuoted(m, "AA", lax);
    CleanPasses(EvidenceFor(m, "AA"), PolicyFor(m), Quoting(pcr), lax, (s: string) => Some(0));
  }
}
