/** The live lab's in-memory state: no idempotency keys, and initialization that reactivates. */
module LiveState {
  import opened Wrappers
  import opened RevocationTables
  import opened ContainerStore

  datatype LiveEvent = LiveEvent(index: nat, operation: Operation, credential: CredentialId, status: Status,
                                 sequence: nat, committed: Option<bool>)

  datatype State = State(credentials: map<CredentialId, Credential>, index: nat, events: seq<LiveEvent>)

  const START := State(map[], 0, [])

  datatype Request =
    | Enroll(credential: CredentialId)
    | Read(credential: CredentialId)
    | Withdraw(credential: CredentialId)
    | GuardedCommit(credential: CredentialId)
    | UnguardedCommit(credential: CredentialId)

  /** `Done` is the silent return of `initialize`; `Missing` is the KeyError of an unknown credential. */
  datatype Answer = Done | Logged(event: LiveEvent) | Missing

  /** The index advances before the credential is looked up, so a failed look-up leaves a gap. */
  function Log(s: State, operation: Operation, c: CredentialId, committed: Option<bool>): (State, Answer) {
    var index := s.index + 1;
    if c !in s.credentials then (s.(index := index), Missing)
    else
      var e := LiveEvent(index, operation, c, s.credentials[c].status, s.credentials[c].sequence, committed);
      (s.(index := index, events := s.events + [e]), Logged(e))
  }

  function Answered(s: State, request: Request): (State, Answer) {
    var c := request.credential;
    match request
    case Enroll(_) => (s.(credentials := s.credentials[c := Credential(Active, 1)]), Done)
    case Read(_) => Log(s, StatusReadOp, c, None)
    case Withdraw(_) =>
      if c !in s.credentials then (s, Missing)
      else Log(s.(credentials := s.credentials[c := RevokedCredential(s.credentials[c])]), RevokeOp, c, None)
    case GuardedCommit(_) =>
      if c !in s.credentials then (s, Missing)
      else Log(s, GuardedCommitOp, c, Some(s.credentials[c].status == Active))
    case UnguardedCommit(_) => Log(s, UnguardedCommitOp, c, Some(true))
  }

  class RevocationState {
    var credentials: map<CredentialId, Credential>
    var index: nat
    var events: seq<LiveEvent>

    function Snapshot(): State
      reads this
    {
      State(credentials, index, events)
    }

    constructor ()
      ensures Snapshot() == START
    {
      credentials, index, events := map[], 0, [];
    }

    method Initialize(credentialId: CredentialId)
      modifies this
      ensures (Snapshot(), Done) == Answered(old(Snapshot()), Enroll(credentialId))
    {
      credentials := credentials[credentialId := Credential(Active, 1)];
    }

    method RecordEvent(operation: Operation, credentialId: CredentialId, committed: Option<bool>) returns (answer: Answer)
      modifies this`index, this`events
      ensures (Snapshot(), answer) == Log(old(Snapshot()), operation, credentialId, committed)
    {
      index := index + 1;
      if credentialId !in credentials {
        return Missing;
      }
      var item := credentials[credentialId];
      var row := LiveEvent(index, operation, credentialId, item.status, item.sequence, committed);
      events := events + [row];
      answer := Logged(row);
    }

    method ReadStatus(credentialId: CredentialId) returns (answer: Answer)
      modifies this
      ensures (Snapshot(), answer) == Answered(old(Snapshot()), Read(credentialId))
    {
      answer := RecordEvent(StatusReadOp, credentialId, None);
    }

    method Revoke(credentialId: CredentialId) returns (answer: Answer)
      modifies this
      ensures (Snapshot(), answer) == Answered(old(Snapshot()), Withdraw(credentialId))
    {
      if credentialId !in credentials {
        return Missing;
      }
      var item := credentials[credentialId];
      if item.status != Revoked {
        item := Credential(Revoked, item.sequence + 1);
      }
      credentials := credentials[credentialId := item];
      answer := RecordEvent(RevokeOp, credentialId, None);
    }

    method Commit(credentialId: CredentialId, guarded: bool) returns (answer: Answer)
      modifies this
      ensures (Snapshot(), answer) ==
              Answered(old(Snapshot()), if guarded then GuardedCommit(credentialId) else UnguardedCommit(credentialId))
    {
      if !guarded {
        answer := RecordEvent(UnguardedCommitOp, credentialId, Some(true));
      } else if credentialId !in credentials {
        answer := Missing;
      } else {
        var allowed := credentials[credentialId].status == Active;
        answer := RecordEvent(GuardedCommitOp, credentialId, Some(allowed));
      }
    }
  }

  // ---------------------------------------------------------------- runs

  function After(requests: seq<Request>): State {
    if requests == [] then START
    else Answered(After(requests[..|requests| - 1]), requests[|requests| - 1]).0
  }

  ghost predicate Enrolled(requests: seq<Request>, c: CredentialId) {
    exists i :: 0 <= i < |requests| && requests[i] == Enroll(c)
  }

  /** Some initialization of the credential has no revocation after it. */
  ghost predicate EnrolledSinceWithdrawn(requests: seq<Request>, c: CredentialId) {
    exists i :: 0 <= i < |requests| && requests[i] == Enroll(c) && NotWithdrawn(requests, i + 1, c)
  }

  ghost predicate NotWithdrawn(requests: seq<Request>, start: nat, c: CredentialId) {
    forall j :: start <= j < |requests| ==> requests[j] != Withdraw(c)
  }

  lemma EnrolledSplit(requests: seq<Request>, c: CredentialId)
    requires requests != []
    ensures var n := |requests| - 1;
            Enrolled(requests, c) <==> Enrolled(requests[..n], c) || requests[n] == Enroll(c)
  {
    var n := |requests| - 1;
    if Enrolled(requests[..n], c) {
      var i :| 0 <= i < n && requests[..n][i] == Enroll(c);
      assert requests[i] == Enroll(c);
    }
    assert forall i :: 0 <= i < n ==> requests[..n][i] == requests[i];
  }

  lemma SinceWithdrawnSplit(requests: seq<Request>, c: CredentialId)
    requires requests != []
    ensures var n := |requests| - 1;
            EnrolledSinceWithdrawn(requests, c) <==>
            requests[n] == Enroll(c) || (EnrolledSinceWithdrawn(requests[..n], c) && requests[n] != Withdraw(c))
  {
    var n := |requests| - 1;
    assert forall i :: 0 <= i < n ==> requests[..n][i] == requests[i];
    assert NotWithdrawn(requests, n + 1, c);
    if i :| 0 <= i < |requests| && requests[i] == Enroll(c) && NotWithdrawn(requests, i + 1, c) {
      if i < n {
        assert requests[..n][i] == Enroll(c) && NotWithdrawn(requests[..n], i + 1, c);
      }
    }
    if i :| 0 <= i < n && requests[..n][i] == Enroll(c) && NotWithdrawn(requests[..n], i + 1, c) {
      if requests[n] != Withdraw(c) {
        assert requests[i] == Enroll(c) && NotWithdrawn(requests, i + 1, c);
      }
    }
  }

  /** A credential is active exactly when some initialization has no revocation after it: initializing again reactivates. */
  lemma {:induction false} RecordExactly(requests: seq<Request>, c: CredentialId)
    ensures c in After(requests).credentials <==> Enrolled(requests, c)
    ensures c in After(requests).credentials ==>
              After(requests).credentials[c] ==
              (if EnrolledSinceWithdrawn(requests, c) then Credential(Active, 1) else Credential(Revoked, 2))
  {
    if requests != [] {
      RecordExactly(requests[..|requests| - 1], c);
      EnrolledSplit(requests, c);
      SinceWithdrawnSplit(requests, c);
    }
  }

  /** A guarded commit succeeds exactly when the credential was initialized and not revoked since. */
  lemma GuardFollowsLastChange(requests: seq<Request>, c: CredentialId)
    ensures var answer := Answered(After(requests), GuardedCommit(c)).1;
            && (answer == Missing <==> !Enrolled(requests, c))
            && (answer.Logged? ==> answer.event.committed == Some(EnrolledSinceWithdrawn(requests, c)))
  {
    RecordExactly(requests, c);
  }

  /** Requests whose failed look-up still takes an index. */
  function Gaps(requests: seq<Request>): nat {
    if requests == [] then 0
    else
      var n := |requests| - 1;
      var last := requests[n];
      Gaps(requests[..n])
      + (if (last.Read? || last.UnguardedCommit?) && last.credential !in After(requests[..n]).credentials then 1 else 0)
  }

  ghost predicate Increasing(events: seq<LiveEvent>, bound: nat) {
    && (forall i, j :: 0 <= i < j < |events| ==> events[i].index < events[j].index)
    && (forall i :: 0 <= i < |events| ==> 0 < events[i].index <= bound)
  }

  /** What an answered event says of its request. */
  predicate Tells(e: LiveEvent, request: Request) {
    && e.credential == request.credential
    && (match request
        case Enroll(_) => false
        case Read(_) => e.operation == StatusReadOp && e.committed == None
        case Withdraw(_) => e.operation == RevokeOp && e.committed == None
        case GuardedCommit(_) => e.operation == GuardedCommitOp && e.committed == Some(e.status == Active)
        case UnguardedCommit(_) => e.operation == UnguardedCommitOp && e.committed == Some(true))
  }

  /** The event in an answer is the one just logged, under the next index; any other answer logs nothing. */
  lemma AnswerExactly(s: State, request: Request)
    ensures var (s', answer) := Answered(s, request);
            var known, c := request.credential in s.credentials, request.credential;
            if request.Enroll? then answer == Done && s' == s.(credentials := s.credentials[c := Credential(Active, 1)])
            else if !known then answer == Missing && s'.events == s.events && s'.credentials == s.credentials
            else
              && answer.Logged? && Tells(answer.event, request) && answer.event.index == s'.index == s.index + 1
              && s'.events == s.events + [answer.event]
              && s'.credentials[c] == Credential(answer.event.status, answer.event.sequence)
  {}

  lemma OneMoreIndex(s: State, request: Request)
    requires Increasing(s.events, s.index)
    ensures var (s', answer) := Answered(s, request);
            && Increasing(s'.events, s'.index)
            && s'.index - |s'.events| == s.index - |s.events|
               + (if (request.Read? || request.UnguardedCommit?) && request.credential !in s.credentials then 1 else 0)
  {
    var s' := Answered(s, request).0;
    if s'.events != s.events {
      assert s'.events[..|s.events|] == s.events && s'.events[|s.events|].index == s.index + 1 == s'.index;
      assert forall i :: 0 <= i < |s.events| ==> s'.events[i] == s.events[i];
    }
  }

  /** Linearization indices only grow, and they skip one number for each failed read or unguarded commit. */
  lemma {:induction false} IndexExactly(requests: seq<Request>)
    ensures Increasing(After(requests).events, After(requests).index)
    ensures After(requests).index == |After(requests).events| + Gaps(requests)
  {
    if requests != [] {
      var n := |requests| - 1;
      IndexExactly(requests[..n]);
      OneMoreIndex(After(requests[..n]), requests[n]);
    }
  }

  // ---------------------------------------------------------------- against the durable store

  /** The durable call for a request; a commit gets a key of its own. */
  function Counterpart(request: Request, key: Key): Call {
    match request
    case Enroll(c) => Call.Initialize(c)
    case Read(c) => Call.ReadStatus(c)
    case Withdraw(c) => Call.Revoke(c)
    case GuardedCommit(c) => Call.Commit(c, key, true)
    case UnguardedCommit(c) => Call.Commit(c, key, false)
  }

  /** The two answers tell the client the same. */
  predicate SameNews(answer: Answer, reply: Reply) {
    match answer
    case Missing => reply == Unknown
    case Done => reply.Recorded?
    case Logged(e) =>
      && (reply.Recorded? || (reply.Decided? && !reply.replay))
      && e.operation == reply.event.operation && e.credential == reply.event.credential
      && e.status == reply.event.status && e.sequence == reply.event.sequence && e.committed == reply.event.committed
  }

  /** Initializing again a credential that is no longer as initialization leaves it. */
  predicate Reactivates(s: State, request: Request) {
    request.Enroll? && request.credential in s.credentials && s.credentials[request.credential] != Credential(Active, 1)
  }

  /** One step from equal credentials: the credentials stay equal exactly unless the step reactivates one. */
  lemma LiveStepExact(s: State, t: Tables, request: Request, instance: string, key: Key)
    requires Inv(t) && s.credentials == t.credentials && key !in t.decisions
    ensures var (s', answer), (t', reply) := Answered(s, request), Apply(t, instance, Counterpart(request, key));
            && (s'.credentials == t'.credentials <==> !Reactivates(s, request))
            && (SameNews(answer, reply) <==> !(request.Enroll? && request.credential in s.credentials))
            && t'.decisions.Keys <= t.decisions.Keys + {key}
  {
    var c := request.credential;
    PriorIsDecision(t, key);
    assert key !in t.effects;
    if request.Enroll? && c in s.credentials {
      assert Answered(s, request).0.credentials[c] == Credential(Active, 1);
      assert Apply(t, instance, Counterpart(request, key)).0 == t;
      if s.credentials[c] == Credential(Active, 1) {
        assert s.credentials[c := Credential(Active, 1)] == s.credentials;
      }
    }
  }

  /** A request with the key and instance of its durable counterpart. */
  datatype Keyed = Keyed(request: Request, instance: string, key: Key)

  function Requests(run: seq<Keyed>): seq<Request> {
    seq(|run|, i requires 0 <= i < |run| => run[i].request)
  }

  function DurableCalls(run: seq<Keyed>): seq<Served<string>> {
    seq(|run|, i requires 0 <= i < |run| => Served(run[i].instance, Counterpart(run[i].request, run[i].key)))
  }

  ghost predicate FreshKeys(run: seq<Keyed>) {
    forall i, j :: 0 <= i < j < |run| ==> run[i].key != run[j].key
  }

  ghost predicate NeverReenrolls(run: seq<Keyed>) {
    forall i :: 0 <= i < |run| && run[i].request.Enroll? ==> !Enrolled(Requests(run[..i]), run[i].request.credential)
  }

  ghost predicate KeysFrom(t: Tables, run: seq<Keyed>) {
    forall k :: k in t.decisions ==> exists i :: 0 <= i < |run| && run[i].key == k
  }

  lemma RunSplit(run: seq<Keyed>)
    requires run != []
    ensures var n := |run| - 1;
            && Requests(run)[..n] == Requests(run[..n]) && DurableCalls(run)[..n] == DurableCalls(run[..n])
  {}

  ghost predicate SameNewsAt(run: seq<Keyed>, i: nat)
    requires i < |run|
  {
    SameNews(Answered(After(Requests(run[..i])), run[i].request).1,
             Apply(Run(EMPTY, DurableCalls(run[..i])), run[i].instance, Counterpart(run[i].request, run[i].key)).1)
  }

  /** The two tell the same news at every request of the run. */
  ghost predicate SameNewsThroughout(run: seq<Keyed>) {
    run != [] ==> SameNewsThroughout(run[..|run| - 1]) && SameNewsAt(run, |run| - 1)
  }

  lemma LastStep(run: seq<Keyed>)
    requires run != []
    ensures var n := |run| - 1;
            var (front, last) := (run[..n], run[n]);
            && After(Requests(run)) == Answered(After(Requests(front)), last.request).0
            && Run(EMPTY, DurableCalls(run)) ==
               Apply(Run(EMPTY, DurableCalls(front)), last.instance, Counterpart(last.request, last.key)).0
  {
    RunSplit(run);
  }

  lemma KeysGrow(before: Tables, after: Tables, run: seq<Keyed>)
    requires run != [] && KeysFrom(before, run[..|run| - 1])
    requires after.decisions.Keys <= before.decisions.Keys + {run[|run| - 1].key}
    ensures KeysFrom(after, run)
  {
    forall k | k in after.decisions ensures exists i :: 0 <= i < |run| && run[i].key == k {
      if k in before.decisions {
        var i :| 0 <= i < |run| - 1 && run[..|run| - 1][i].key == k;
        assert run[i].key == k;
      } else {
        assert k in after.decisions.Keys;
        assert run[|run| - 1].key == k;
      }
    }
  }

  /** On a run that initializes no credential twice, the in-memory state tells its clients what the durable store would. */
  lemma {:induction false} LiveRunAgrees(run: seq<Keyed>)
    requires FreshKeys(run) && NeverReenrolls(run)
    ensures After(Requests(run)).credentials == Run(EMPTY, DurableCalls(run)).credentials
    ensures KeysFrom(Run(EMPTY, DurableCalls(run)), run)
    ensures SameNewsThroughout(run)
  {
    if run != [] {
      var n := |run| - 1;
      var front, last := run[..n], run[n];
      assert forall i :: 0 <= i < n ==> front[..i] == run[..i] && front[i] == run[i];
      LiveRunAgrees(front);
      EmptyInv();
      RunKeepsInv(EMPTY, DurableCalls(front));
      RecordExactly(Requests(front), last.request.credential);
      var before := Run(EMPTY, DurableCalls(front));
      assert last.key !in before.decisions;
      LiveStepExact(After(Requests(front)), before, last.request, last.instance, last.key);
      LastStep(run);
      KeysGrow(before, Run(EMPTY, DurableCalls(run)), run);
      assert SameNewsAt(run, n);
    }
  }

  lemma ReenrollsSplit(run: seq<Keyed>)
    requires run != []
    ensures var (front, last) := (run[..|run| - 1], run[|run| - 1]);
            NeverReenrolls(run) <==>
            NeverReenrolls(front) && !(last.request.Enroll? && Enrolled(Requests(front), last.request.credential))
  {
    var n := |run| - 1;
    var front, last := run[..n], run[n];
    assert forall i :: 0 <= i < n ==> front[..i] == run[..i] && front[i] == run[i];
    if NeverReenrolls(run) {
      forall i | 0 <= i < n && front[i].request.Enroll?
        ensures !Enrolled(Requests(front[..i]), front[i].request.credential)
      {
        assert run[i].request.Enroll?;
      }
      assert run[n] == last;
    }
    if NeverReenrolls(front) && !(last.request.Enroll? && Enrolled(Requests(front), last.request.credential)) {
      forall i | 0 <= i < |run| && run[i].request.Enroll?
        ensures !Enrolled(Requests(run[..i]), run[i].request.credential)
      {
        if i < n {
          assert front[i].request.Enroll?;
        }
      }
    }
  }

  /** The last request of a run whose others initialized no credential twice. */
  lemma LastNewsExactly(run: seq<Keyed>)
    requires run != [] && FreshKeys(run) && NeverReenrolls(run[..|run| - 1])
    ensures var (front, last) := (run[..|run| - 1], run[|run| - 1]);
            SameNewsAt(run, |run| - 1) <==>
            !(last.request.Enroll? && Enrolled(Requests(front), last.request.credential))
  {
    var n := |run| - 1;
    var front, last := run[..n], run[n];
    assert forall i :: 0 <= i < n ==> front[i] == run[i];
    LiveRunAgrees(front);
    EmptyInv();
    RunKeepsInv(EMPTY, DurableCalls(front));
    RecordExactly(Requests(front), last.request.credential);
    assert last.key !in Run(EMPTY, DurableCalls(front)).decisions;
    LiveStepExact(After(Requests(front)), Run(EMPTY, DurableCalls(front)), last.request, last.instance, last.key);
  }

  /** The in-memory state tells its clients what the durable store would, on any run, exactly when no credential is initialized twice. */
  lemma {:induction false} LiveRunExactly(run: seq<Keyed>)
    requires FreshKeys(run)
    ensures SameNewsThroughout(run) <==> NeverReenrolls(run)
  {
    if run != [] {
      var front := run[..|run| - 1];
      assert forall i :: 0 <= i < |front| ==> front[i] == run[i];
      LiveRunExactly(front);
      ReenrollsSplit(run);
      if NeverReenrolls(front) {
        LastNewsExactly(run);
      }
    }
  }

  /** Enrol, withdraw, enrol again: active in memory, and still revoked in the durable store. */
  lemma ReenrolledIsActiveInMemory(c: CredentialId, instance: string)
    ensures var requests := [Enroll(c), Withdraw(c), Enroll(c)];
            var calls := [Served(instance, Call.Initialize(c)), Served(instance, Call.Revoke(c)),
                          Served(instance, Call.Initialize(c))];
            && After(requests).credentials == map[c := Credential(Active, 1)]
            && Run(EMPTY, calls).credentials == map[c := Credential(Revoked, 2)]
  {
    var requests := [Enroll(c), Withdraw(c), Enroll(c)];
    var calls := [Served(instance, Call.Initialize(c)), Served(instance, Call.Revoke(c)),
                  Served(instance, Call.Initialize(c))];
    assert requests[..2][..1] == [Enroll(c)] && [Enroll(c)][..0] == [] && requests[..2][1] == Withdraw(c);
    assert After([Enroll(c)]).credentials == map[c := Credential(Active, 1)];
    assert After(requests[..2]).credentials == map[c := Credential(Revoked, 2)];
    var first := [Served(instance, Call.Initialize(c))];
    assert calls[..2][..1] == first && first[..0] == [] && calls[..2][1] == Served(instance, Call.Revoke(c));
    assert Run(EMPTY, first).credentials == map[c := Credential(Active, 1)];
    assert Run(EMPTY, calls[..2]).credentials == map[c := Credential(Revoked, 2)];
  }

  /** On that run the durable store refuses the last request and the in-memory state serves it. */
  lemma ReenrollmentDiverges(c: CredentialId, instance: string)
    ensures var run := [Keyed(Enroll(c), instance, "1"), Keyed(Withdraw(c), instance, "2"),
                        Keyed(Enroll(c), instance, "3")];
            FreshKeys(run) && !SameNewsThroughout(run)
  {
    var run := [Keyed(Enroll(c), instance, "1"), Keyed(Withdraw(c), instance, "2"), Keyed(Enroll(c), instance, "3")];
    assert "1" != "2" && "1" != "3" && "2" != "3";
    assert Enrolled(Requests(run[..2]), c) by {
      assert Requests(run[..2])[0] == Enroll(c);
    }
    assert run[2].request.Enroll?;
    LiveRunExactly(run);
  }
}
