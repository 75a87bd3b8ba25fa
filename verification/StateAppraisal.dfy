/** Appraisal of a quoted state envelope, with the quote checker and the digests taken as given. */
module StateAppraisal {
  import opened Wrappers
  import opened Lexicographic
  import opened Measurements
  import opened Transcript

  /** The four base64 blobs of a piece of evidence. */
  datatype Blobs = Blobs(akPub: string, quoteMsg: string, quoteSig: string, pcrBin: string)

  datatype Evidence = Evidence(envelope: Envelope, blobs: Blobs)

  datatype Policy = Policy(corpus: string, challenges: map<string, string>, capsules: map<string, string>,
                           denied: seq<string>, decisionTime: string, references: map<string, string>)

  /** The blobs as bytes. */
  datatype Raw = Raw(akPub: Octets, quoteMsg: Octets, quoteSig: Octets, pcrBin: Octets)

  /** One run of the quote checker. */
  datatype Run = Run(code: int, output: string)

  /** A base64 decoder; None where it throws. */
  type Decoder = string -> Option<Octets>

  /**
   * What both appraisers take from outside: the hexadecimal option derived from a transcript's digest, the quote
   * checker, and the PCR value derived from a measured digest.
   */
  datatype Natives = Natives(qualify: string -> string, run: (Raw, string) -> Run, pcr: Octets -> string)

  datatype Reason = SourceCorpusBinding | ChallengeBinding | SubjectBinding | NativeQuote | PcrBinding | Malformed

  /**
   * `NoReference` is the KeyError of a policy without a reference measurement for the transaction, `BadKey` the
   * exception of the other appraiser on an attestation key it cannot decode.
   */
  datatype Result =
    CryptographicFailure | Contraindicated | Stale | ReferenceMismatch | Pass | NoReference | BadKey

  function Lookup(m: map<string, string>, key: string): Option<string> {
    if key in m then Some(m[key]) else None
  }

  function BindingReasons(e: Envelope, policy: Policy): seq<Reason> {
    (if e.corpus != policy.corpus then [SourceCorpusBinding] else [])
    + (if Lookup(policy.challenges, e.transaction) != Some(e.challenge) then [ChallengeBinding] else [])
    + (if Lookup(policy.capsules, e.transaction) != Some(e.capsule) then [SubjectBinding] else [])
  }

  function Decoded(b: Blobs, decode: Decoder): Option<Raw> {
    match (decode(b.akPub), decode(b.quoteMsg), decode(b.quoteSig), decode(b.pcrBin))
    case (Some(k), Some(m), Some(s), Some(p)) => Some(Raw(k, m, s, p))
    case _ => None
  }

  function RunReasons(run: Run, pcr: string): seq<Reason> {
    (if run.code != 0 then [NativeQuote] else [])
    + (if !PythonFinds(run.output, pcr) then [PcrBinding] else [])
  }

  /** A blob that is not base64, or a measurement without a digest, ends the native part. */
  function NativeReasons(evidence: Evidence, n: Natives, decode: Decoder): seq<Reason> {
    match (Decoded(evidence.blobs, decode), PythonDigest(evidence.envelope.measurement))
    case (Some(raw), Some(digest)) => RunReasons(n.run(raw, n.qualify(Text(evidence.envelope))), n.pcr(digest))
    case _ => [Malformed]
  }

  function Reasons(evidence: Evidence, policy: Policy, n: Natives, decode: Decoder): seq<Reason> {
    BindingReasons(evidence.envelope, policy) + NativeReasons(evidence, n, decode)
  }

  function Decide(reasons: seq<Reason>, e: Envelope, policy: Policy): Result {
    if reasons != [] then CryptographicFailure
    else if e.measurement in policy.denied then Contraindicated
    else if !Within(e.issued, policy.decisionTime, e.expires) then Stale
    else
      match Lookup(policy.references, e.transaction)
      case None => NoReference
      case Some(reference) => if e.measurement != reference then ReferenceMismatch else Pass
  }

  function Appraised(evidence: Evidence, policy: Policy, n: Natives, decode: Decoder): Result {
    Decide(Reasons(evidence, policy, n, decode), evidence.envelope, policy)
  }

  method Appraise(evidence: Evidence, policy: Policy, n: Natives, decode: Decoder)
    returns (result: Result, reasons: seq<Reason>)
    ensures result == Appraised(evidence, policy, n, decode)
    ensures reasons == Reasons(evidence, policy, n, decode)
    ensures result == CryptographicFailure <==> reasons != []
  {
    var envelope := evidence.envelope;
    reasons := [];
    if envelope.corpus != policy.corpus {
      reasons := reasons + [SourceCorpusBinding];
    }
    if Lookup(policy.challenges, envelope.transaction) != Some(envelope.challenge) {
      reasons := reasons + [ChallengeBinding];
    }
    if Lookup(policy.capsules, envelope.transaction) != Some(envelope.capsule) {
      reasons := reasons + [SubjectBinding];
    }
    assert reasons == BindingReasons(envelope, policy);
    var raw := Decoded(evidence.blobs, decode);
    var digest := PythonDigest(envelope.measurement);
    if raw.Some? && digest.Some? {
      var run := n.run(raw.value, n.qualify(Text(envelope)));
      if run.code != 0 {
        reasons := reasons + [NativeQuote];
      }
      if !PythonFinds(run.output, n.pcr(digest.value)) {
        reasons := reasons + [PcrBinding];
      }
    } else {
      reasons := reasons + [Malformed];
    }
    assert reasons == BindingReasons(envelope, policy) + NativeReasons(evidence, n, decode);
    result := Decide(reasons, envelope, policy);
  }

  // ---------------------------------------------------------------- which reasons are given

  /** The blobs decode exactly when each of the four does, each to its own part. */
  lemma DecodedExactly(b: Blobs, decode: Decoder, raw: Raw)
    ensures Decoded(b, decode) == Some(raw) <==>
            && decode(b.akPub) == Some(raw.akPub) && decode(b.quoteMsg) == Some(raw.quoteMsg)
            && decode(b.quoteSig) == Some(raw.quoteSig) && decode(b.pcrBin) == Some(raw.pcrBin)
    ensures Decoded(b, decode) == None <==> None in [decode(b.akPub), decode(b.quoteMsg), decode(b.quoteSig),
                                                      decode(b.pcrBin)]
  {}

  /** The order in which reasons are gathered. */
  function ReasonRank(reason: Reason): nat {
    match reason
    case SourceCorpusBinding => 0
    case ChallengeBinding => 1
    case SubjectBinding => 2
    case NativeQuote => 3
    case PcrBinding => 4
    case Malformed => 5
  }

  /** The run of the quote checker, when there is something to check. */
  function RunOf(evidence: Evidence, n: Natives, decode: Decoder): Option<Run> {
    match Decoded(evidence.blobs, decode)
    case None => None
    case Some(raw) => Some(n.run(raw, n.qualify(Text(evidence.envelope))))
  }

  predicate Mismatch(m: map<string, string>, key: string, value: string) {
    key !in m || m[key] != value
  }

  /** What each reason says of the evidence. */
  ghost predicate Holds(reason: Reason, evidence: Evidence, policy: Policy, n: Natives, decode: Decoder) {
    match reason
    case SourceCorpusBinding => evidence.envelope.corpus != policy.corpus
    case ChallengeBinding => Mismatch(policy.challenges, evidence.envelope.transaction, evidence.envelope.challenge)
    case SubjectBinding => Mismatch(policy.capsules, evidence.envelope.transaction, evidence.envelope.capsule)
    case NativeQuote => QuoteRefused(RunOf(evidence, n, decode), PythonDigest(evidence.envelope.measurement))
    case PcrBinding => ValueMissing(RunOf(evidence, n, decode), PythonDigest(evidence.envelope.measurement), n)
    case Malformed => RunOf(evidence, n, decode) == None || PythonDigest(evidence.envelope.measurement) == None
  }

  predicate QuoteRefused(run: Option<Run>, digest: Option<Octets>) {
    run.Some? && digest.Some? && run.value.code != 0
  }

  ghost predicate ValueMissing(run: Option<Run>, digest: Option<Octets>, n: Natives) {
    run.Some? && digest.Some? && !PythonFinds(run.value.output, n.pcr(digest.value))
  }

  predicate Ranked(reasons: seq<Reason>) {
    forall i, j :: 0 <= i < j < |reasons| ==> ReasonRank(reasons[i]) < ReasonRank(reasons[j])
  }

  lemma BindingReasonsExactly(evidence: Evidence, policy: Policy, n: Natives, decode: Decoder, reason: Reason)
    ensures reason in BindingReasons(evidence.envelope, policy) <==>
            ReasonRank(reason) < 3 && Holds(reason, evidence, policy, n, decode)
    ensures Ranked(BindingReasons(evidence.envelope, policy))
  {}

  lemma NativeReasonsExactly(evidence: Evidence, policy: Policy, n: Natives, decode: Decoder, reason: Reason)
    ensures reason in NativeReasons(evidence, n, decode) <==>
            ReasonRank(reason) >= 3 && Holds(reason, evidence, policy, n, decode)
    ensures Ranked(NativeReasons(evidence, n, decode))
  {}

  lemma RankedConcat(a: seq<Reason>, b: seq<Reason>)
    requires Ranked(a) && Ranked(b)
    requires (forall r :: r in a ==> ReasonRank(r) < 3) && (forall r :: r in b ==> ReasonRank(r) >= 3)
    ensures Ranked(a + b)
  {
    assert forall i :: 0 <= i < |a| ==> a[i] in a;
    assert forall i :: 0 <= i < |b| ==> b[i] in b;
  }

  /** The reasons given are exactly those that hold, each once and in their order. */
  lemma ReasonsExactly(evidence: Evidence, policy: Policy, n: Natives, decode: Decoder)
    ensures forall reason :: reason in Reasons(evidence, policy, n, decode) <==>
                             Holds(reason, evidence, policy, n, decode)
    ensures Ranked(Reasons(evidence, policy, n, decode))
  {
    var b, r := BindingReasons(evidence.envelope, policy), NativeReasons(evidence, n, decode);
    forall reason
      ensures reason in b <==> ReasonRank(reason) < 3 && Holds(reason, evidence, policy, n, decode)
      ensures reason in r <==> ReasonRank(reason) >= 3 && Holds(reason, evidence, policy, n, decode)
      ensures Ranked(b) && Ranked(r)
    {
      BindingReasonsExactly(evidence, policy, n, decode, reason);
      NativeReasonsExactly(evidence, policy, n, decode, reason);
    }
    BindingReasonsExactly(evidence, policy, n, decode, NativeQuote);
    NativeReasonsExactly(evidence, policy, n, decode, NativeQuote);
    RankedConcat(b, r);
  }

  // ---------------------------------------------------------------- substituted fields

  datatype Mutation = ChallengeReplay | TransactionSubstitution | CorpusHashSubstitution | MeasurementSubstitution
                    | WindowSubstitution

  function Zeros(n: nat): (zeros: string)
    ensures |zeros| == n && forall i :: 0 <= i < n ==> zeros[i] == '0'
  {
    seq(n, _ => '0')
  }

  /** The five mutations that substitute a field and leave the blobs alone. */
  function Mutated(e: Envelope, mutation: Mutation, alternate: Envelope): Envelope {
    match mutation
    case ChallengeReplay => e.(challenge := alternate.challenge)
    case TransactionSubstitution => e.(transaction := alternate.transaction)
    case CorpusHashSubstitution => e.(corpus := Zeros(64))
    case MeasurementSubstitution => e.(measurement := alternate.measurement)
    case WindowSubstitution => e.(expires := "2099-01-01T00:00:00Z")
  }

  /** Each mutation writes the field it is named after and no other. */
  lemma MutationWritesOneField(e: Envelope, mutation: Mutation, alternate: Envelope)
    ensures var m := Mutated(e, mutation, alternate);
            && m.challenge == (if mutation == ChallengeReplay then alternate.challenge else e.challenge)
            && m.transaction == (if mutation == TransactionSubstitution then alternate.transaction else e.transaction)
            && m.corpus == (if mutation == CorpusHashSubstitution then Zeros(64) else e.corpus)
            && m.measurement == (if mutation == MeasurementSubstitution then alternate.measurement else e.measurement)
            && m.expires == (if mutation == WindowSubstitution then "2099-01-01T00:00:00Z" else e.expires)
            && m.issued == e.issued && m.capsule == e.capsule
  {}

  /** Two transcripts share no qualifying value, and no quote checks for both of their values, unless they are equal. */
  ghost predicate Binds(n: Natives, s: string, t: string) {
    && (n.qualify(s) == n.qualify(t) ==> s == t)
    && (forall raw :: n.run(raw, n.qualify(s)).code == 0 && n.run(raw, n.qualify(t)).code == 0 ==>
                        n.qualify(s) == n.qualify(t))
  }

  /** Evidence that was no cryptographic failure came with a quote that checks. */
  lemma QuoteChecked(evidence: Evidence, policy: Policy, n: Natives, decode: Decoder)
    requires Appraised(evidence, policy, n, decode) != CryptographicFailure
    ensures Decoded(evidence.blobs, decode).Some?
    ensures n.run(Decoded(evidence.blobs, decode).value, n.qualify(Text(evidence.envelope))).code == 0
  {
    var b, r := BindingReasons(evidence.envelope, policy), NativeReasons(evidence, n, decode);
    assert |b + r| == |b| + |r|;
    assert r == [];
  }

  /** Behind the same blobs, only the quoted envelope escapes a cryptographic failure. */
  lemma QuotePinsEnvelope(evidence: Evidence, other: Envelope, policy: Policy, otherPolicy: Policy, n: Natives,
                          decode: Decoder)
    requires Binds(n, Text(evidence.envelope), Text(other)) && !HasStrayLabel(evidence.envelope)
    requires Appraised(evidence, policy, n, decode) != CryptographicFailure
    requires Appraised(evidence.(envelope := other), otherPolicy, n, decode) != CryptographicFailure
    ensures other == evidence.envelope
  {
    QuoteChecked(evidence, policy, n, decode);
    QuoteChecked(evidence.(envelope := other), otherPolicy, n, decode);
    assert n.qualify(Text(evidence.envelope)) == n.qualify(Text(other));
    TranscriptPinsExactly(evidence.envelope);
  }

  /** Evidence that was not a cryptographic failure becomes one exactly when a mutation changes its envelope. */
  lemma MutationFailsExactly(evidence: Evidence, mutation: Mutation, alternate: Envelope, policy: Policy, n: Natives,
                             decode: Decoder)
    requires Binds(n, Text(evidence.envelope), Text(Mutated(evidence.envelope, mutation, alternate)))
    requires !HasStrayLabel(evidence.envelope)
    requires Appraised(evidence, policy, n, decode) != CryptographicFailure
    ensures var mutated := Mutated(evidence.envelope, mutation, alternate);
            Appraised(evidence.(envelope := mutated), policy, n, decode) == CryptographicFailure <==>
            mutated != evidence.envelope
  {
    var mutated := Mutated(evidence.envelope, mutation, alternate);
    if Appraised(evidence.(envelope := mutated), policy, n, decode) != CryptographicFailure {
      QuotePinsEnvelope(evidence, mutated, policy, policy, n, decode);
    }
  }
}
