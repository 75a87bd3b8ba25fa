/** The race on the distributed lab's store, with its lost response, its restarted service and its retry. */
module DistributedRaces {
  import opened Wrappers
  import opened RevocationTables
  import opened DistributedStore
  import opened RaceLaw

  /**
   * The processes a client talks to, what it commits, and whether the commit is guarded. A lossy client drops the
   * first response and commits again, to the process that serves by then.
   */
  datatype Client = Client(statusPid: int, effectPid: int, retryPid: int, credential: CredentialId, key: Key,
                           guarded: bool, lossy: bool)

  type Calls = seq<Served<int>>

  /** What the others do while a lossy client waits for the durable effect, and then while the service restarts. */
  datatype Gap = Gap(waiting: Calls, restarting: Calls)

  function Answer(t: Tables, pid: int, call: Call): (Tables, Option<Seen>) {
    var (t', reply) := Apply(t, pid, call);
    (t', SeenIn(reply))
  }

  function OurCommit(client: Client): Call {
    Commit(client.credential, client.key, client.guarded)
  }

  /** The commit; after a lost response the case goes on only when the effect is durable. */
  function CommitOf(t: Tables, client: Client, gap: Gap): (Tables, Option<Seen>) {
    if !client.lossy then Answer(t, client.effectPid, OurCommit(client))
    else
      var lost := Run(Apply(t, client.effectPid, OurCommit(client)).0, gap.waiting);
      if client.key !in lost.effects then (lost, None)
      else Answer(Run(lost, gap.restarting), client.retryPid, OurCommit(client))
  }

  function DistributedLab(client: Client, gap: Gap): Lab<Tables, Calls> {
    Lab((t, calls) => Run(t, calls),
        t => Answer(t, client.statusPid, ReadStatus(client.credential)),
        t => CommitOf(t, client, gap),
        true)
  }

  // ---------------------------------------------------------------- the case, step by step

  method Serve(store: Store, pid: int, call: Call) returns (reply: Reply)
    modifies store
    ensures (store.Snapshot(), reply) == Apply(old(store.Snapshot()), pid, call)
  {
    match call {
      case Initialize(c) => reply := store.Initialize(c, pid);
      case ReadStatus(c) => reply := store.Status(c, pid);
      case Revoke(c) => reply := store.Revoke(c, pid);
      case Commit(c, key, guarded) => reply := store.Commit(c, key, guarded, pid);
    }
  }

  method ServeAll(store: Store, calls: Calls)
    modifies store
    ensures store.Snapshot() == Run(old(store.Snapshot()), calls)
  {
    for i := 0 to |calls|
      invariant store.Snapshot() == Run(old(store.Snapshot()), calls[..i])
    {
      var _ := Serve(store, calls[i].server, calls[i].call);
      assert calls[..i + 1][..i] == calls[..i];
    }
    assert calls[..|calls|] == calls;
  }

  method CommitOnce(store: Store, client: Client, gap: Gap) returns (effect: Option<Seen>)
    modifies store
    ensures (store.Snapshot(), effect) == CommitOf(old(store.Snapshot()), client, gap)
  {
    var pid := client.effectPid;
    if client.lossy {
      var _ := Serve(store, pid, OurCommit(client));
      ServeAll(store, gap.waiting);
      if client.key !in store.effects {
        return None;
      }
      ServeAll(store, gap.restarting);
      pid := client.retryPid;
    }
    var reply := Serve(store, pid, OurCommit(client));
    effect := SeenIn(reply);
  }

  method ExecuteCase(store: Store, client: Client, rounds: seq<Calls>, others: Calls, gap: Gap)
    returns (result: Option<Result>)
    modifies store
    ensures (store.Snapshot(), result) == Execute(DistributedLab(client, gap), old(store.Snapshot()), rounds, others)
  {
    ghost var lab, start := DistributedLab(client, gap), store.Snapshot();
    var trace: seq<Seen> := [];
    for i := 0 to |rounds|
      invariant Reads(lab, start, rounds[..i]) == Phase(store.Snapshot(), trace, Going)
    {
      assert rounds[..i + 1][..i] == rounds[..i];
      ServeAll(store, rounds[i]);
      var appraisal := Serve(store, client.statusPid, ReadStatus(client.credential));
      var seen := SeenIn(appraisal);
      if seen == None {
        StaysStopped(lab, start, rounds, i + 1);
        return None;
      }
      trace := trace + [seen.value];
      if seen.value.status == Revoked {
        StaysStopped(lab, start, rounds, i + 1);
        return Some(Finalize(trace, None));
      }
    }
    assert rounds[..|rounds|] == rounds;
    ServeAll(store, others);
    var effect := CommitOnce(store, client, gap);
    result := if effect.Some? then Some(Finalize(trace + [effect.value], effect)) else None;
  }

  // ---------------------------------------------------------------- the laws of the store

  /** The client's credential exists and its key has no effect in a lawful store. */
  ghost predicate Ready(t: Tables, client: Client) {
    Inv(t) && client.credential in t.credentials && client.key !in t.effects
  }

  ghost function DistributedFacts(client: Client): Facts<Tables, Calls> {
    Facts(t => Ready(t, client), (t: Tables) => Live(t.credentials, client.credential),
          calls => KeyIsOurs(calls, client.key), calls => Revokes(calls, client.credential), _ => false,
          client.guarded, client.lossy)
  }

  lemma CommitLeavesStatus(t: Tables, client: Client, pid: int, call: Call)
    requires Ready(t, client) && call.Commit? && call.key != client.key
    ensures var t' := Apply(t, pid, call).0;
            t'.credentials == t.credentials && client.key !in t'.effects
  {
    PriorIsEffect(t, call.key);
  }

  lemma CallMovesStatus(t: Tables, client: Client, pid: int, call: Call)
    requires Ready(t, client) && (call.Commit? ==> call.key != client.key)
    ensures var t' := Apply(t, pid, call).0;
            Ready(t', client) && (Live(t'.credentials, client.credential) <==>
                                  Live(t.credentials, client.credential) && call != Call.Revoke(client.credential))
  {
    ApplyKeepsInv(t, pid, call);
    if call.Commit? {
      CommitLeavesStatus(t, client, pid, call);
    }
  }

  lemma {:induction false} RunMovesStatus(t: Tables, client: Client, calls: Calls)
    requires Ready(t, client) && KeyIsOurs(calls, client.key)
    ensures Ready(Run(t, calls), client)
    ensures Live(Run(t, calls).credentials, client.credential) <==>
            Live(t.credentials, client.credential) && !Revokes(calls, client.credential)
  {
    if calls != [] {
      var n := |calls| - 1;
      RunMovesStatus(t, client, calls[..n]);
      RevokesSplit(calls, client.credential);
      CallMovesStatus(Run(t, calls[..n]), client, calls[n].server, calls[n].call);
    }
  }

  /** A commit without an effect yet records the live status it found, and is durable exactly when it committed. */
  lemma FreshCommit(t: Tables, client: Client)
    requires Ready(t, client)
    ensures var (t', reply) := Apply(t, client.effectPid, OurCommit(client));
            var committed := client.guarded ==> Live(t.credentials, client.credential);
            && reply.Decided? && (reply.event.status == Active <==> Live(t.credentials, client.credential))
            && reply.event.committed == Some(committed)
            && (client.key in t'.effects <==> committed)
            && (committed ==> t'.effects[client.key].event == reply.event.id == |t.events| + 1
                              && t'.events == t.events + [reply.event])
  {
    PriorIsEffect(t, client.key);
  }

  // ---------------------------------------------------------------- the retry

  /** The log grew, and what it held of the key's effect is what it holds now. */
  ghost predicate KeepsEffect(before: Tables, after: Tables, key: Key) {
    && before.events <= after.events
    && (key in after.effects <==> key in before.effects)
    && (key in before.effects ==> after.effects[key] == before.effects[key])
  }

  lemma CallKeepsEffect(t: Tables, pid: int, call: Call, key: Key)
    requires Inv(t) && (call.Commit? ==> call.key != key)
    ensures KeepsEffect(t, Apply(t, pid, call).0, key)
  {
    if call.Commit? {
      PriorIsEffect(t, call.key);
    }
  }

  /** No run of the others rewrites an event or touches the effect of a key they do not use. */
  lemma {:induction false} RunKeepsEffect(t: Tables, calls: Calls, key: Key)
    requires Inv(t) && KeyIsOurs(calls, key)
    ensures Inv(Run(t, calls)) && KeepsEffect(t, Run(t, calls), key)
  {
    if calls != [] {
      var n := |calls| - 1;
      RunKeepsEffect(t, calls[..n], key);
      RunKeepsInv(t, calls);
      CallKeepsEffect(Run(t, calls[..n]), calls[n].server, calls[n].call, key);
    }
  }

  lemma {:induction false} RunConcat(t: Tables, calls: Calls, more: Calls)
    ensures Run(t, calls + more) == Run(Run(t, calls), more)
  {
    if more == [] {
      assert calls + more == calls;
    } else {
      var n := |more| - 1;
      assert (calls + more)[..|calls| + n] == calls + more[..n];
      RunConcat(t, calls, more[..n]);
    }
  }

  lemma ReplayOf(t: Tables, client: Client, e: Event)
    requires Inv(t) && client.key in t.effects && t.effects[client.key].event == e.id
    requires 1 <= e.id <= |t.events| && t.events[e.id - 1] == e
    ensures Apply(t, client.retryPid, OurCommit(client)) == (t, Decided(e, true, Process(client.retryPid)))
  {
    PriorIsEffect(t, client.key);
  }

  /** However much the others do in between, a retry of a durable commit answers with its event and changes nothing. */
  lemma RetryReplays(t: Tables, client: Client, calls: Calls)
    requires Ready(t, client) && KeyIsOurs(calls, client.key)
    requires client.key in Apply(t, client.effectPid, OurCommit(client)).0.effects
    ensures var (t', reply) := Apply(t, client.effectPid, OurCommit(client));
            reply.Decided? && Apply(Run(t', calls), client.retryPid, OurCommit(client)) ==
                              (Run(t', calls), Decided(reply.event, true, Process(client.retryPid)))
  {
    var (t', reply) := Apply(t, client.effectPid, OurCommit(client));
    FreshCommit(t, client);
    ApplyKeepsInv(t, client.effectPid, OurCommit(client));
    RunKeepsEffect(t', calls, client.key);
    assert t'.events[|t.events|] == reply.event;
    ReplayOf(Run(t', calls), client, reply.event);
  }

  /** What a commit tells its client does not depend on the loss of the first response, if it committed. */
  lemma LossIsInvisible(t: Tables, client: Client, gap: Gap)
    requires Ready(t, client) && KeyIsOurs(gap.waiting, client.key) && KeyIsOurs(gap.restarting, client.key)
    ensures var (t', reply) := Apply(t, client.effectPid, OurCommit(client));
            CommitOf(t, client, gap).1 ==
            (if client.lossy && client.key !in t'.effects then None else SeenIn(reply))
  {
    var t' := Apply(t, client.effectPid, OurCommit(client)).0;
    ApplyKeepsInv(t, client.effectPid, OurCommit(client));
    RunKeepsEffect(t', gap.waiting, client.key);
    if client.lossy && client.key in t'.effects {
      RunConcat(t', gap.waiting, gap.restarting);
      RetryReplays(t, client, gap.waiting + gap.restarting);
    }
  }

  // ---------------------------------------------------------------- the race

  lemma OthersAreLawful(client: Client, gap: Gap)
    ensures OthersLaw(DistributedLab(client, gap), DistributedFacts(client))
  {
    var lab, f := DistributedLab(client, gap), DistributedFacts(client);
    forall t, calls | f.ready(t) && f.fair(calls)
      ensures f.ready(lab.others(t, calls)) && (f.live(lab.others(t, calls)) <==> Survives(f, f.live(t), calls))
    {
      RunMovesStatus(t, client, calls);
    }
  }

  lemma ReadsAreLawful(client: Client, gap: Gap)
    ensures ReadLaw(DistributedLab(client, gap), DistributedFacts(client))
  {
    var lab, f := DistributedLab(client, gap), DistributedFacts(client);
    forall t | f.ready(t) ensures ReadsWell(lab, f, t) {
      CallMovesStatus(t, client, client.statusPid, ReadStatus(client.credential));
    }
  }

  lemma CommitsAreLawful(client: Client, gap: Gap)
    requires KeyIsOurs(gap.waiting, client.key) && KeyIsOurs(gap.restarting, client.key)
    ensures CommitLaw(DistributedLab(client, gap), DistributedFacts(client))
  {
    var lab, f := DistributedLab(client, gap), DistributedFacts(client);
    forall t | f.ready(t) ensures CommitsWell(lab, f, t) {
      FreshCommit(t, client);
      LossIsInvisible(t, client, gap);
    }
  }

  lemma StoreIsLawful(client: Client, gap: Gap)
    requires KeyIsOurs(gap.waiting, client.key) && KeyIsOurs(gap.restarting, client.key)
    ensures Lawful(DistributedLab(client, gap), DistributedFacts(client))
  {
    OthersAreLawful(client, gap);
    ReadsAreLawful(client, gap);
    CommitsAreLawful(client, gap);
  }

  /** The race on the distributed store, the others acting before every step of the client, lost response and all. */
  lemma RaceExact(t: Tables, client: Client, rounds: seq<Calls>, others: Calls, gap: Gap)
    requires Ready(t, client) && rounds != []
    requires KeyIsOursInAll(rounds + [others, gap.waiting, gap.restarting], client.key)
    ensures var live := Live(t.credentials, client.credential) && !RevokesInSome(rounds, client.credential);
            EndsAs(Execute(DistributedLab(client, gap), t, rounds, others).1, live,
                   live && !Revokes(others, client.credential), client.guarded, client.lossy)
  {
    AllAreOurs(client, rounds, others, gap);
    StoreIsLawful(client, gap);
    RaceWithoutRevival(DistributedLab(client, gap), DistributedFacts(client), t, rounds, others);
    assert RevokedIn(DistributedFacts(client), rounds) <==> RevokesInSome(rounds, client.credential);
  }

  // ---------------------------------------------------------------- what the case leaves behind

  function OurRead(client: Client): Served<int> {
    Served(client.statusPid, ReadStatus(client.credential))
  }

  /** The calls of the commit: one, or with a lost response those of the gap and, when it was durable, the retry. */
  function CommitCalls(client: Client, gap: Gap, durable: bool): Calls {
    [Served(client.effectPid, OurCommit(client))]
    + (if !client.lossy then []
       else gap.waiting + (if durable then gap.restarting + [Served(client.retryPid, OurCommit(client))] else []))
  }

  lemma OneCall(t: Tables, call: Served<int>)
    ensures Run(t, [call]) == Apply(t, call.server, call.call).0
  {
    assert [call][..0] == [];
    assert Run(t, []) == t;
  }

  lemma LabRuns(client: Client, gap: Gap)
    ensures Runs(DistributedLab(client, gap), OurRead(client))
  {
    var lab := DistributedLab(client, gap);
    forall t, a, b ensures lab.others(lab.others(t, a), b) == lab.others(t, a + b) {
      RunConcat(t, a, b);
    }
    forall t ensures lab.read(t).0 == lab.others(t, [OurRead(client)]) {
      OneCall(t, OurRead(client));
    }
  }

  lemma CommitIsRun(t: Tables, client: Client, gap: Gap)
    requires Ready(t, client) && KeyIsOurs(gap.waiting, client.key)
    ensures var durable := client.guarded ==> Live(t.credentials, client.credential);
            CommitOf(t, client, gap).0 == Run(t, CommitCalls(client, gap, durable))
  {
    var ours, again := Served(client.effectPid, OurCommit(client)), Served(client.retryPid, OurCommit(client));
    var t' := Apply(t, client.effectPid, OurCommit(client)).0;
    FreshCommit(t, client);
    ApplyKeepsInv(t, client.effectPid, OurCommit(client));
    RunKeepsEffect(t', gap.waiting, client.key);
    OneCall(t, ours);
    if client.lossy {
      RunConcat(t, [ours], gap.waiting);
      RunConcat(t, [ours], gap.waiting + (gap.restarting + [again]));
      RunConcat(t', gap.waiting, gap.restarting + [again]);
      RunConcat(Run(t', gap.waiting), gap.restarting, [again]);
      OneCall(Run(Run(t', gap.waiting), gap.restarting), again);
      assert gap.waiting + [] == gap.waiting;
    } else {
      assert [ours] + [] == [ours];
    }
  }

  lemma CommitLeaves(t: Tables, client: Client, gap: Gap)
    requires Ready(t, client) && KeyIsOurs(gap.waiting, client.key) && KeyIsOurs(gap.restarting, client.key)
    ensures client.key in CommitOf(t, client, gap).0.effects <==>
            (client.guarded ==> Live(t.credentials, client.credential))
  {
    var t' := Apply(t, client.effectPid, OurCommit(client)).0;
    FreshCommit(t, client);
    ApplyKeepsInv(t, client.effectPid, OurCommit(client));
    RunKeepsEffect(t', gap.waiting, client.key);
    if client.lossy && client.key in t'.effects {
      RunConcat(t', gap.waiting, gap.restarting);
      RetryReplays(t, client, gap.waiting + gap.restarting);
      RunKeepsEffect(Run(t', gap.waiting), gap.restarting, client.key);
    }
  }

  /** The first m rounds with their reads are all that happened, and the m-th read was the first to find it revoked. */
  ghost predicate StopsAfter(t: Tables, client: Client, gap: Gap, rounds: seq<Calls>, end: Tables, m: nat) {
    StopsAt(DistributedLab(client, gap), DistributedFacts(client), t, rounds, OurRead(client), end, m)
  }

  lemma AllAreOurs(client: Client, rounds: seq<Calls>, others: Calls, gap: Gap)
    requires KeyIsOursInAll(rounds + [others, gap.waiting, gap.restarting], client.key)
    ensures KeyIsOursInAll(rounds, client.key) && KeyIsOurs(others, client.key)
    ensures KeyIsOurs(gap.waiting, client.key) && KeyIsOurs(gap.restarting, client.key)
  {
    var all := rounds + [others, gap.waiting, gap.restarting];
    assert forall i :: 0 <= i < |rounds| ==> all[i] == rounds[i];
    assert all[|rounds|] == others && all[|rounds| + 1] == gap.waiting && all[|rounds| + 2] == gap.restarting;
  }

  /** The store after the case is the store after its calls: the others' with one read a round, then the commit's. */
  lemma CaseIsRun(t: Tables, client: Client, rounds: seq<Calls>, others: Calls, gap: Gap)
    requires Ready(t, client) && KeyIsOursInAll(rounds + [others, gap.waiting, gap.restarting], client.key)
    ensures var end := Execute(DistributedLab(client, gap), t, rounds, others).0;
            var before := WithReads(rounds, OurRead(client)) + others;
            if Reaches(DistributedLab(client, gap), DistributedFacts(client), t, rounds)
            then end == Run(t, before + CommitCalls(client, gap, client.guarded ==>
                                                      Live(Run(t, before).credentials, client.credential)))
            else exists m: nat :: StopsAfter(t, client, gap, rounds, end, m)
  {
    var lab, f := DistributedLab(client, gap), DistributedFacts(client);
    AllAreOurs(client, rounds, others, gap);
    StoreIsLawful(client, gap);
    LabRuns(client, gap);
    RaceLaw.CaseIsRun(lab, f, t, rounds, others, OurRead(client));
    var before := WithReads(rounds, OurRead(client)) + others;
    if Reaches(lab, f, t, rounds) {
      BeforeCommitIsReady(t, client, rounds, others, gap);
      CommitIsRun(Run(t, before), client, gap);
      RunConcat(t, before, CommitCalls(client, gap, client.guarded ==>
                                         Live(Run(t, before).credentials, client.credential)));
    } else {
      var m: nat :| StopsAt(lab, f, t, rounds, OurRead(client), Execute(lab, t, rounds, others).0, m);
      assert StopsAfter(t, client, gap, rounds, Execute(lab, t, rounds, others).0, m);
    }
  }

  lemma BeforeCommitIsReady(t: Tables, client: Client, rounds: seq<Calls>, others: Calls, gap: Gap)
    requires Ready(t, client) && KeyIsOursInAll(rounds + [others, gap.waiting, gap.restarting], client.key)
    requires Reaches(DistributedLab(client, gap), DistributedFacts(client), t, rounds)
    ensures Ready(Run(t, WithReads(rounds, OurRead(client)) + others), client)
  {
    var lab, f := DistributedLab(client, gap), DistributedFacts(client);
    AllAreOurs(client, rounds, others, gap);
    StoreIsLawful(client, gap);
    LabRuns(client, gap);
    ReadsAreRun(lab, f, t, rounds, OurRead(client));
    CaseEndsReady(lab, f, t, rounds, others);
    RunConcat(t, WithReads(rounds, OurRead(client)), others);
  }

  /** No calls of others log an event under a key they do not use. */
  lemma {:induction false} RunLogsNothing(t: Tables, calls: Calls, key: Key)
    requires Inv(t) && KeyIsOurs(calls, key)
    ensures LoggedOnce(Run(t, calls).events, key) ==> LoggedOnce(t.events, key)
  {
    if calls != [] {
      var n := |calls| - 1;
      RunLogsNothing(t, calls[..n], key);
      RunKeepsInv(t, calls[..n]);
      var before := Run(t, calls[..n]);
      var after := Apply(before, calls[n].server, calls[n].call).0;
      CallLogs(before, calls[n].server, calls[n].call, key);
      if i :| 0 <= i < |after.events| && after.events[i].key == Some(key) {
        assert i < |before.events| && before.events[i].key == Some(key);
      }
    }
  }

  lemma KeyIsOursConcat(calls: Calls, more: Calls, key: Key)
    requires KeyIsOurs(calls, key) && KeyIsOurs(more, key)
    ensures KeyIsOurs(calls + more, key)
  {}

  lemma {:induction false} ReadsAreOthers(client: Client, rounds: seq<Calls>)
    requires KeyIsOursInAll(rounds, client.key)
    ensures KeyIsOurs(WithReads(rounds, OurRead(client)), client.key)
  {
    if rounds != [] {
      var n := |rounds| - 1;
      ReadsAreOthers(client, rounds[..n]);
      KeyIsOursConcat(WithReads(rounds[..n], OurRead(client)), rounds[n], client.key);
      KeyIsOursConcat(WithReads(rounds[..n], OurRead(client)) + rounds[n], [OurRead(client)], client.key);
    }
  }

  /** The client reaches its commit exactly when it was live at the start and nobody revoked it before its last read. */
  lemma ReachesExactly(t: Tables, client: Client, rounds: seq<Calls>, others: Calls, gap: Gap)
    requires rounds != []
    ensures var f, live := DistributedFacts(client),
                           Live(t.credentials, client.credential) && !RevokesInSome(rounds, client.credential);
            && (Reaches(DistributedLab(client, gap), f, t, rounds) <==> live)
            && (LiveAfter(f, t, rounds + [others]) <==> live && !Revokes(others, client.credential))
  {
    var f := DistributedFacts(client);
    WithoutRevival(f, t, rounds);
    LiveAfterMore(f, t, rounds, others);
    assert RevokedIn(f, rounds) <==> RevokesInSome(rounds, client.credential);
  }

  /**
   * After the case the client's key has an effect iff the client reached its commit and, when guarded, found the
   * credential live, with or without a lost response.
   */
  lemma EffectExactly(t: Tables, client: Client, rounds: seq<Calls>, others: Calls, gap: Gap)
    requires Ready(t, client) && rounds != []
    requires KeyIsOursInAll(rounds + [others, gap.waiting, gap.restarting], client.key)
    ensures client.key in Execute(DistributedLab(client, gap), t, rounds, others).0.effects <==>
            Live(t.credentials, client.credential) && !RevokesInSome(rounds, client.credential)
            && (client.guarded ==> !Revokes(others, client.credential))
  {
    var lab, f := DistributedLab(client, gap), DistributedFacts(client);
    AllAreOurs(client, rounds, others, gap);
    StoreIsLawful(client, gap);
    CaseEndsReady(lab, f, t, rounds, others);
    ReachesExactly(t, client, rounds, others, gap);
    if Reaches(lab, f, t, rounds) {
      CommitLeaves(Run(Reads(lab, t, rounds).state, others), client, gap);
    }
  }

  /** A stopped client leaves no event under a key that had none. */
  lemma StoppedLogsNothing(t: Tables, client: Client, rounds: seq<Calls>, others: Calls, gap: Gap)
    requires Ready(t, client) && rounds != [] && !LoggedOnce(t.events, client.key)
    requires KeyIsOursInAll(rounds + [others, gap.waiting, gap.restarting], client.key)
    requires !Live(t.credentials, client.credential) || RevokesInSome(rounds, client.credential)
    ensures !LoggedOnce(Execute(DistributedLab(client, gap), t, rounds, others).0.events, client.key)
  {
    var end := Execute(DistributedLab(client, gap), t, rounds, others).0;
    AllAreOurs(client, rounds, others, gap);
    ReachesExactly(t, client, rounds, others, gap);
    CaseIsRun(t, client, rounds, others, gap);
    var m: nat :| StopsAfter(t, client, gap, rounds, end, m);
    ReadsAreOthers(client, rounds[..m]);
    RunLogsNothing(t, WithReads(rounds[..m], OurRead(client)), client.key);
  }

  function Revocation(client: Client): Calls {
    [Served(client.statusPid, Call.Revoke(client.credential))]
  }

  /** Doing nothing leaves a live credential live, and one revocation does not. */
  lemma NothingAndRevocation(client: Client)
    ensures var f := DistributedFacts(client);
            && f.fair([]) && Survives(f, true, []) && f.fair(Revocation(client)) && !Survives(f, true, Revocation(client))
  {
    assert Revocation(client)[0].call == Call.Revoke(client.credential);
  }

  /** However many reads an unguarded client makes, some schedule still fools it, lossy or not. */
  lemma EveryReadCountIsFooled(t: Tables, client: Client, gap: Gap, count: nat)
    requires Ready(t, client) && Live(t.credentials, client.credential) && !client.guarded
    requires KeyIsOurs(gap.waiting, client.key) && KeyIsOurs(gap.restarting, client.key)
    ensures FooledAfter(DistributedLab(client, gap), t, count)
  {
    NothingAndRevocation(client);
    StoreIsLawful(client, gap);
    RaceLaw.EveryReadCountIsFooled(DistributedLab(client, gap), DistributedFacts(client), t, [],
                                   Revocation(client), count);
  }

  /** A credential just initialized in an empty store is ready and live. */
  lemma InitializedIsReady(client: Client)
    ensures var t := Apply(EMPTY, client.statusPid, Initialize(client.credential)).0;
            Ready(t, client) && Live(t.credentials, client.credential)
  {
    EmptyInv();
    ApplyKeepsInv(EMPTY, client.statusPid, Initialize(client.credential));
  }
}
