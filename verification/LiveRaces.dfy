/** The race on the live lab's in-memory state. */
module LiveRaces {
  import opened Wrappers
  import opened RevocationTables
  import opened LiveState
  import opened RaceLaw

  function SeenIn(answer: Answer): Option<Seen> {
    match answer
    case Logged(e) => Some(Seen(e.status, e.committed))
    case _ => None
  }

  function AnswerTo(s: State, request: Request): (State, Option<Seen>) {
    var (s', answer) := Answered(s, request);
    (s', SeenIn(answer))
  }

  function Handled(s: State, requests: seq<Request>): State {
    if requests == [] then s else Answered(Handled(s, requests[..|requests| - 1]), requests[|requests| - 1]).0
  }

  function CommitRequest(c: CredentialId, guarded: bool): Request {
    if guarded then GuardedCommit(c) else UnguardedCommit(c)
  }

  function LiveLab(c: CredentialId, guarded: bool): Lab<State, seq<Request>> {
    Lab((s, requests) => Handled(s, requests),
        s => AnswerTo(s, Read(c)),
        s => AnswerTo(s, CommitRequest(c, guarded)),
        true)
  }

  // ---------------------------------------------------------------- the case, step by step

  method Serve(state: RevocationState, request: Request) returns (answer: Answer)
    modifies state
    ensures (state.Snapshot(), answer) == Answered(old(state.Snapshot()), request)
  {
    match request {
      case Enroll(c) =>
        state.Initialize(c);
        answer := Done;
      case Read(c) => answer := state.ReadStatus(c);
      case Withdraw(c) => answer := state.Revoke(c);
      case GuardedCommit(c) => answer := state.Commit(c, true);
      case UnguardedCommit(c) => answer := state.Commit(c, false);
    }
  }

  method ServeAll(state: RevocationState, requests: seq<Request>)
    modifies state
    ensures state.Snapshot() == Handled(old(state.Snapshot()), requests)
  {
    for i := 0 to |requests|
      invariant state.Snapshot() == Handled(old(state.Snapshot()), requests[..i])
    {
      var _ := Serve(state, requests[i]);
      assert requests[..i + 1][..i] == requests[..i];
    }
    assert requests[..|requests|] == requests;
  }

  method ExecuteCase(state: RevocationState, c: CredentialId, guarded: bool, rounds: seq<seq<Request>>,
                     others: seq<Request>) returns (result: Option<Result>)
    modifies state
    ensures (state.Snapshot(), result) == Execute(LiveLab(c, guarded), old(state.Snapshot()), rounds, others)
  {
    ghost var lab, start := LiveLab(c, guarded), state.Snapshot();
    var trace: seq<Seen> := [];
    for i := 0 to |rounds|
      invariant Reads(lab, start, rounds[..i]) == Phase(state.Snapshot(), trace, Going)
    {
      assert rounds[..i + 1][..i] == rounds[..i];
      ServeAll(state, rounds[i]);
      var appraisal := Serve(state, Read(c));
      var seen := SeenIn(appraisal);
      if seen == None {
        StaysStopped(lab, start, rounds, i + 1);
        return None;
      }
      trace := trace + [seen.value];
      if seen.value.status == Revoked {
        StaysStopped(lab, start, rounds, i + 1);
        return Some(Finalize(trace, None));
      }
    }
    assert rounds[..|rounds|] == rounds;
    ServeAll(state, others);
    var reply := Serve(state, CommitRequest(c, guarded));
    var effect := SeenIn(reply);
    result := if effect.Some? then Some(Finalize(trace + [effect.value], effect)) else None;
  }

  // ---------------------------------------------------------------- the laws of the state

  predicate Withdraws(requests: seq<Request>, c: CredentialId) {
    exists i :: 0 <= i < |requests| && requests[i] == Withdraw(c)
  }

  predicate Known(s: State, c: CredentialId) {
    c in s.credentials
  }

  /** An initialization with no revocation after it leaves the credential active whatever it was. */
  ghost function LiveFacts(c: CredentialId, guarded: bool): Facts<State, seq<Request>> {
    Facts(s => Known(s, c), (s: State) => Live(s.credentials, c), _ => true, requests => Withdraws(requests, c),
          requests => EnrolledSinceWithdrawn(requests, c), guarded, false)
  }

  lemma RequestMovesStatus(s: State, c: CredentialId, request: Request)
    requires Known(s, c)
    ensures var s' := Answered(s, request).0;
            Known(s', c) && (Live(s'.credentials, c) <==>
                             request == Enroll(c) || (Live(s.credentials, c) && request != Withdraw(c)))
  {}

  lemma WithdrawsSplit(requests: seq<Request>, c: CredentialId)
    requires requests != []
    ensures var n := |requests| - 1;
            Withdraws(requests, c) <==> Withdraws(requests[..n], c) || requests[n] == Withdraw(c)
  {
    var n := |requests| - 1;
    if Withdraws(requests[..n], c) {
      var i :| 0 <= i < n && requests[..n][i] == Withdraw(c);
      assert requests[i] == Withdraw(c);
    }
    assert forall i :: 0 <= i < n ==> requests[..n][i] == requests[i];
  }

  /** After any requests a credential is live iff it was initialized and not revoked since, or was live and nobody revoked it. */
  lemma {:induction false} RequestsMoveStatus(s: State, c: CredentialId, requests: seq<Request>)
    requires Known(s, c)
    ensures Known(Handled(s, requests), c)
    ensures Live(Handled(s, requests).credentials, c) <==>
            EnrolledSinceWithdrawn(requests, c) || (Live(s.credentials, c) && !Withdraws(requests, c))
  {
    if requests != [] {
      var n := |requests| - 1;
      RequestsMoveStatus(s, c, requests[..n]);
      WithdrawsSplit(requests, c);
      SinceWithdrawnSplit(requests, c);
      RequestMovesStatus(Handled(s, requests[..n]), c, requests[n]);
    }
  }

  lemma StateIsLawful(c: CredentialId, guarded: bool)
    ensures Lawful(LiveLab(c, guarded), LiveFacts(c, guarded))
  {
    var lab, f := LiveLab(c, guarded), LiveFacts(c, guarded);
    forall s, requests | f.ready(s) && f.fair(requests)
      ensures f.ready(lab.others(s, requests))
      ensures f.live(lab.others(s, requests)) <==> Survives(f, f.live(s), requests)
    {
      RequestsMoveStatus(s, c, requests);
    }
    forall s | f.ready(s) ensures ReadsWell(lab, f, s) && CommitsWell(lab, f, s) {
      RequestMovesStatus(s, c, Read(c));
    }
  }

  /**
   * The race on the in-memory state, initializations included: a false allow needs a live credential at every read and
   * a revoked one at the unguarded commit.
   */
  lemma RaceExact(s: State, c: CredentialId, guarded: bool, rounds: seq<seq<Request>>, others: seq<Request>)
    requires Known(s, c)
    ensures var f := LiveFacts(c, guarded);
            EndsAs(Execute(LiveLab(c, guarded), s, rounds, others).1, LiveThroughout(f, s, rounds),
                   LiveAfter(f, s, rounds + [others]), guarded, false)
  {
    StateIsLawful(c, guarded);
    RaceLaw.RaceExact(LiveLab(c, guarded), LiveFacts(c, guarded), s, rounds, others);
  }

  // ---------------------------------------------------------------- what the case leaves behind

  lemma {:induction false} HandledConcat(s: State, requests: seq<Request>, more: seq<Request>)
    ensures Handled(s, requests + more) == Handled(Handled(s, requests), more)
  {
    if more == [] {
      assert requests + more == requests;
    } else {
      var n := |more| - 1;
      assert (requests + more)[..|requests| + n] == requests + more[..n];
      HandledConcat(s, requests, more[..n]);
    }
  }

  lemma OneRequest(s: State, request: Request)
    ensures Handled(s, [request]) == Answered(s, request).0
  {
    assert [request][..0] == [];
    assert Handled(s, []) == s;
  }

  lemma LabRuns(c: CredentialId, guarded: bool)
    ensures Runs(LiveLab(c, guarded), Read(c))
  {
    var lab := LiveLab(c, guarded);
    forall s, a, b ensures lab.others(lab.others(s, a), b) == lab.others(s, a + b) {
      HandledConcat(s, a, b);
    }
    forall s ensures lab.read(s).0 == lab.others(s, [Read(c)]) {
      OneRequest(s, Read(c));
    }
  }

  /** The first m rounds with their reads are all that happened, and the m-th read was the first to find it revoked. */
  ghost predicate StopsAfter(s: State, c: CredentialId, guarded: bool, rounds: seq<seq<Request>>, end: State, m: nat) {
    StopsAt(LiveLab(c, guarded), LiveFacts(c, guarded), s, rounds, Read(c), end, m)
  }

  /** The state after the case is the one after its requests: the others' with one read a round, then the one commit. */
  lemma CaseIsRun(s: State, c: CredentialId, guarded: bool, rounds: seq<seq<Request>>, others: seq<Request>)
    requires Known(s, c)
    ensures var end := Execute(LiveLab(c, guarded), s, rounds, others).0;
            if LiveThroughout(LiveFacts(c, guarded), s, rounds)
            then end == Handled(s, WithReads(rounds, Read(c)) + others + [CommitRequest(c, guarded)])
            else exists m: nat :: StopsAfter(s, c, guarded, rounds, end, m)
  {
    var lab, f := LiveLab(c, guarded), LiveFacts(c, guarded);
    StateIsLawful(c, guarded);
    LabRuns(c, guarded);
    RaceLaw.CaseIsRun(lab, f, s, rounds, others, Read(c));
    var before := WithReads(rounds, Read(c)) + others;
    HandledConcat(s, before, [CommitRequest(c, guarded)]);
    OneRequest(Handled(s, before), CommitRequest(c, guarded));
    if m: nat :| StopsAt(lab, f, s, rounds, Read(c), Execute(lab, s, rounds, others).0, m) {
      assert StopsAfter(s, c, guarded, rounds, Execute(lab, s, rounds, others).0, m);
    }
  }

  predicate IsCommitOf(e: LiveEvent, c: CredentialId) {
    (e.operation == GuardedCommitOp || e.operation == UnguardedCommitOp) && e.credential == c
  }

  ghost predicate HasCommitOf(s: State, c: CredentialId) {
    exists i :: 0 <= i < |s.events| && IsCommitOf(s.events[i], c)
  }

  predicate NeverCommits(requests: seq<Request>, c: CredentialId) {
    forall i :: 0 <= i < |requests| ==> requests[i] != GuardedCommit(c) && requests[i] != UnguardedCommit(c)
  }

  lemma {:induction false} NoCommitLogged(s: State, c: CredentialId, requests: seq<Request>)
    requires NeverCommits(requests, c) && !HasCommitOf(s, c)
    ensures !HasCommitOf(Handled(s, requests), c)
  {
    if requests != [] {
      var n := |requests| - 1;
      NoCommitLogged(s, c, requests[..n]);
      var before, after := Handled(s, requests[..n]), Answered(Handled(s, requests[..n]), requests[n]).0;
      if i :| 0 <= i < |after.events| && IsCommitOf(after.events[i], c) {
        assert i < |before.events| ==> after.events[i] == before.events[i];
      }
    }
  }

  lemma NeverCommitsConcat(requests: seq<Request>, more: seq<Request>, c: CredentialId)
    requires NeverCommits(requests, c) && NeverCommits(more, c)
    ensures NeverCommits(requests + more, c)
  {}

  lemma {:induction false} ReadsAreNoCommits(c: CredentialId, rounds: seq<seq<Request>>)
    requires forall i :: 0 <= i < |rounds| ==> NeverCommits(rounds[i], c)
    ensures NeverCommits(WithReads(rounds, Read(c)), c)
  {
    if rounds != [] {
      var n := |rounds| - 1;
      ReadsAreNoCommits(c, rounds[..n]);
      NeverCommitsConcat(WithReads(rounds[..n], Read(c)), rounds[n], c);
      NeverCommitsConcat(WithReads(rounds[..n], Read(c)) + rounds[n], [Read(c)], c);
    }
  }

  /** Where nobody else commits on the credential, a commit event of it is logged exactly when the client reaches its commit. */
  lemma CommitLoggedExactly(s: State, c: CredentialId, guarded: bool, rounds: seq<seq<Request>>, others: seq<Request>)
    requires Known(s, c) && !HasCommitOf(s, c)
    requires (forall i :: 0 <= i < |rounds| ==> NeverCommits(rounds[i], c)) && NeverCommits(others, c)
    ensures HasCommitOf(Execute(LiveLab(c, guarded), s, rounds, others).0, c) <==>
            LiveThroughout(LiveFacts(c, guarded), s, rounds)
  {
    var end := Execute(LiveLab(c, guarded), s, rounds, others).0;
    CaseIsRun(s, c, guarded, rounds, others);
    if LiveThroughout(LiveFacts(c, guarded), s, rounds) {
      var before := WithReads(rounds, Read(c)) + others;
      RequestsMoveStatus(s, c, before);
      HandledConcat(s, before, [CommitRequest(c, guarded)]);
      OneRequest(Handled(s, before), CommitRequest(c, guarded));
      assert IsCommitOf(end.events[|end.events| - 1], c);
    } else {
      var m: nat :| StopsAfter(s, c, guarded, rounds, end, m);
      ReadsAreNoCommits(c, rounds[..m]);
      NoCommitLogged(s, c, WithReads(rounds[..m], Read(c)));
    }
  }

  function Withdrawal(c: CredentialId): seq<Request> {
    [Withdraw(c)]
  }

  /** Doing nothing leaves a live credential live, and one revocation does not. */
  lemma NothingAndRevocation(c: CredentialId)
    ensures var f := LiveFacts(c, false);
            && f.fair([]) && Survives(f, true, []) && f.fair(Withdrawal(c)) && !Survives(f, true, Withdrawal(c))
  {
    assert Withdrawal(c)[0] == Withdraw(c);
  }

  /** However many reads an unguarded client makes, some schedule still fools it. */
  lemma EveryReadCountIsFooled(s: State, c: CredentialId, count: nat)
    requires Live(s.credentials, c)
    ensures FooledAfter(LiveLab(c, false), s, count)
  {
    NothingAndRevocation(c);
    StateIsLawful(c, false);
    RaceLaw.EveryReadCountIsFooled(LiveLab(c, false), LiveFacts(c, false), s, [],
                                   Withdrawal(c), count);
  }
}
