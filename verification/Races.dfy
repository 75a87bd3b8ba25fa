/** The race on the container lab's store. */
module Races {
  import opened Wrappers
  import opened RevocationTables
  import opened ContainerStore
  import opened RaceLaw

  /**
   * The instances a client talks to, what it commits, whether the commit is guarded, and whether a revoked read stops
   * the client: it does in the model checker, and in the container lab it does not.
   */
  datatype Client = Client(statusInstance: string, effectInstance: string, credential: CredentialId, key: Key,
                           guarded: bool, heeds: bool)

  type Calls = seq<Served<string>>

  function Answer(t: Tables, instance: string, call: Call): (Tables, Option<Seen>) {
    var (t', reply) := Apply(t, instance, call);
    (t', SeenIn(reply))
  }

  function ContainerLab(client: Client): Lab<Tables, Calls> {
    Lab((t, calls) => Run(t, calls),
        t => Answer(t, client.statusInstance, ReadStatus(client.credential)),
        t => Answer(t, client.effectInstance, Commit(client.credential, client.key, client.guarded)),
        client.heeds)
  }

  // ---------------------------------------------------------------- the case, step by step

  method Serve(database: Database, instance: string, call: Call) returns (reply: Reply)
    modifies database
    ensures (database.Snapshot(), reply) == Apply(old(database.Snapshot()), instance, call)
  {
    var store := new Store(database, instance);
    match call {
      case Initialize(c) => reply := store.Initialize(c);
      case ReadStatus(c) => reply := store.Status(c);
      case Revoke(c) => reply := store.Revoke(c);
      case Commit(c, key, guarded) => reply := store.Commit(c, key, guarded);
    }
  }

  method ServeAll(database: Database, calls: Calls)
    modifies database
    ensures database.Snapshot() == Run(old(database.Snapshot()), calls)
  {
    for i := 0 to |calls|
      invariant database.Snapshot() == Run(old(database.Snapshot()), calls[..i])
    {
      var _ := Serve(database, calls[i].server, calls[i].call);
      assert calls[..i + 1][..i] == calls[..i];
    }
    assert calls[..|calls|] == calls;
  }

  method ExecuteCase(database: Database, client: Client, rounds: seq<Calls>, others: Calls)
    returns (result: Option<Result>)
    modifies database
    ensures (database.Snapshot(), result) == Execute(ContainerLab(client), old(database.Snapshot()), rounds, others)
  {
    ghost var lab, start := ContainerLab(client), database.Snapshot();
    var trace: seq<Seen> := [];
    for i := 0 to |rounds|
      invariant Reads(lab, start, rounds[..i]) == Phase(database.Snapshot(), trace, Going)
    {
      assert rounds[..i + 1][..i] == rounds[..i];
      ServeAll(database, rounds[i]);
      var appraisal := Serve(database, client.statusInstance, ReadStatus(client.credential));
      var seen := SeenIn(appraisal);
      if seen == None {
        StaysStopped(lab, start, rounds, i + 1);
        return None;
      }
      trace := trace + [seen.value];
      if client.heeds && seen.value.status == Revoked {
        StaysStopped(lab, start, rounds, i + 1);
        return Some(Finalize(trace, None));
      }
    }
    assert rounds[..|rounds|] == rounds;
    ServeAll(database, others);
    var reply := Serve(database, client.effectInstance, Commit(client.credential, client.key, client.guarded));
    var effect := SeenIn(reply);
    result := if effect.Some? then Some(Finalize(trace + [effect.value], effect)) else None;
  }

  // ---------------------------------------------------------------- the laws of the store

  /** The client's credential exists and its key is undecided in a lawful store. */
  ghost predicate Ready(t: Tables, client: Client) {
    Inv(t) && client.credential in t.credentials && client.key !in t.decisions
  }

  ghost function ContainerFacts(client: Client): Facts<Tables, Calls> {
    Facts(t => Ready(t, client), (t: Tables) => Live(t.credentials, client.credential),
          calls => KeyIsOurs(calls, client.key), calls => Revokes(calls, client.credential), _ => false,
          client.guarded, false)
  }

  lemma CommitLeavesStatus(t: Tables, client: Client, instance: string, call: Call)
    requires Ready(t, client) && call.Commit? && call.key != client.key
    ensures var t' := Apply(t, instance, call).0;
            t'.credentials == t.credentials && client.key !in t'.decisions
  {
    PriorIsDecision(t, call.key);
  }

  lemma OtherCallMovesStatus(t: Tables, client: Client, instance: string, call: Call)
    requires client.credential in t.credentials && !call.Commit?
    ensures var t' := Apply(t, instance, call).0;
            && client.credential in t'.credentials && t'.decisions == t.decisions
            && (Live(t'.credentials, client.credential) <==>
                Live(t.credentials, client.credential) && call != Call.Revoke(client.credential))
  {}

  lemma CallMovesStatus(t: Tables, client: Client, instance: string, call: Call)
    requires Ready(t, client) && (call.Commit? ==> call.key != client.key)
    ensures var t' := Apply(t, instance, call).0;
            Ready(t', client) && (Live(t'.credentials, client.credential) <==>
                                  Live(t.credentials, client.credential) && call != Call.Revoke(client.credential))
  {
    ApplyKeepsInv(t, instance, call);
    if call.Commit? {
      CommitLeavesStatus(t, client, instance, call);
    } else {
      OtherCallMovesStatus(t, client, instance, call);
    }
  }

  /** After any calls of others the credential is live exactly when it was and nobody revoked it. */
  lemma {:induction false} RunMovesStatus(t: Tables, client: Client, calls: Calls)
    requires Ready(t, client) && KeyIsOurs(calls, client.key)
    ensures Ready(Run(t, calls), client)
    ensures Live(Run(t, calls).credentials, client.credential) <==>
            Live(t.credentials, client.credential) && !Revokes(calls, client.credential)
  {
    if calls != [] {
      var n := |calls| - 1;
      RunMovesStatus(t, client, calls[..n]);
      RevokesSplit(calls, client.credential);
      CallMovesStatus(Run(t, calls[..n]), client, calls[n].server, calls[n].call);
    }
  }

  /** A fresh commit records the live status it found, and a guard follows it. */
  lemma FreshCommit(t: Tables, client: Client)
    requires Ready(t, client)
    ensures var reply := Apply(t, client.effectInstance, Commit(client.credential, client.key, client.guarded)).1;
            var live := Live(t.credentials, client.credential);
            && reply.Decided? && !reply.replay && (reply.event.status == Active <==> live)
            && reply.event.committed == Some(client.guarded ==> live)
  {
    PriorIsDecision(t, client.key);
    assert client.key !in t.effects;
  }

  lemma OthersAreLawful(client: Client)
    ensures OthersLaw(ContainerLab(client), ContainerFacts(client))
  {
    var lab, f := ContainerLab(client), ContainerFacts(client);
    forall t, calls | f.ready(t) && f.fair(calls)
      ensures f.ready(lab.others(t, calls)) && (f.live(lab.others(t, calls)) <==> Survives(f, f.live(t), calls))
    {
      RunMovesStatus(t, client, calls);
    }
  }

  lemma ReadsAreLawful(client: Client)
    ensures ReadLaw(ContainerLab(client), ContainerFacts(client))
  {
    var lab, f := ContainerLab(client), ContainerFacts(client);
    forall t | f.ready(t) ensures ReadsWell(lab, f, t) {
      CallMovesStatus(t, client, client.statusInstance, ReadStatus(client.credential));
    }
  }

  lemma CommitsAreLawful(client: Client)
    ensures CommitLaw(ContainerLab(client), ContainerFacts(client))
  {
    var lab, f := ContainerLab(client), ContainerFacts(client);
    forall t | f.ready(t) ensures CommitsWell(lab, f, t) {
      FreshCommit(t, client);
    }
  }

  lemma StoreIsLawful(client: Client)
    ensures Lawful(ContainerLab(client), ContainerFacts(client))
  {
    OthersAreLawful(client);
    ReadsAreLawful(client);
    CommitsAreLawful(client);
  }

  /**
   * The race on the container store. A client that stops on a revoked read reaches its commit when nobody revoked
   * before its last read; one that does not always reaches it, so it has a false allow iff it is unguarded and the
   * credential is not live at the commit.
   */
  lemma RaceExact(t: Tables, client: Client, rounds: seq<Calls>, others: Calls)
    requires Ready(t, client) && KeyIsOursInAll(rounds, client.key) && KeyIsOurs(others, client.key)
    ensures var live := Live(t.credentials, client.credential) && !RevokesInSome(rounds, client.credential);
            EndsAs(Execute(ContainerLab(client), t, rounds, others).1, client.heeds && rounds != [] ==> live,
                   live && !Revokes(others, client.credential), client.guarded, false)
  {
    StoreIsLawful(client);
    RaceWithoutRevival(ContainerLab(client), ContainerFacts(client), t, rounds, others);
    assert RevokedIn(ContainerFacts(client), rounds) <==> RevokesInSome(rounds, client.credential);
  }

  // ---------------------------------------------------------------- what the case leaves behind

  lemma {:induction false} RunConcat(t: Tables, calls: Calls, more: Calls)
    ensures Run(t, calls + more) == Run(Run(t, calls), more)
  {
    if more == [] {
      assert calls + more == calls;
    } else {
      var n := |more| - 1;
      assert (calls + more)[..|calls| + n] == calls + more[..n];
      RunConcat(t, calls, more[..n]);
    }
  }

  function OurRead(client: Client): Served<string> {
    Served(client.statusInstance, ReadStatus(client.credential))
  }

  function OurCommit(client: Client): Served<string> {
    Served(client.effectInstance, Commit(client.credential, client.key, client.guarded))
  }

  lemma OneCall(t: Tables, call: Served<string>)
    ensures Run(t, [call]) == Apply(t, call.server, call.call).0
  {
    assert [call][..0] == [];
    assert Run(t, []) == t;
  }

  lemma LabRuns(client: Client)
    ensures Runs(ContainerLab(client), OurRead(client))
  {
    var lab := ContainerLab(client);
    forall t, a, b ensures lab.others(lab.others(t, a), b) == lab.others(t, a + b) {
      RunConcat(t, a, b);
    }
    forall t ensures lab.read(t).0 == lab.others(t, [OurRead(client)]) {
      OneCall(t, OurRead(client));
    }
  }

  /** The first m rounds with their reads are all that happened, and the m-th read was the first to find it revoked. */
  ghost predicate StopsAfter(t: Tables, client: Client, rounds: seq<Calls>, end: Tables, m: nat) {
    StopsAt(ContainerLab(client), ContainerFacts(client), t, rounds, OurRead(client), end, m)
  }

  /** The store after the case is the store after its calls: the others' with one read a round, then the one commit. */
  lemma CaseIsRun(t: Tables, client: Client, rounds: seq<Calls>, others: Calls)
    requires Ready(t, client) && KeyIsOursInAll(rounds, client.key) && KeyIsOurs(others, client.key)
    ensures var end := Execute(ContainerLab(client), t, rounds, others).0;
            if Reaches(ContainerLab(client), ContainerFacts(client), t, rounds)
            then end == Run(t, WithReads(rounds, OurRead(client)) + others + [OurCommit(client)])
            else exists m: nat :: StopsAfter(t, client, rounds, end, m)
  {
    StoreIsLawful(client);
    LabRuns(client);
    RaceLaw.CaseIsRun(ContainerLab(client), ContainerFacts(client), t, rounds, others, OurRead(client));
    var before := WithReads(rounds, OurRead(client)) + others;
    RunConcat(t, before, [OurCommit(client)]);
    OneCall(Run(t, before), OurCommit(client));
    if m: nat :| StopsAt(ContainerLab(client), ContainerFacts(client), t, rounds, OurRead(client),
                         Execute(ContainerLab(client), t, rounds, others).0, m) {
      assert StopsAfter(t, client, rounds, Execute(ContainerLab(client), t, rounds, others).0, m);
    }
  }

  lemma CommitLeaves(t: Tables, client: Client)
    requires Ready(t, client)
    ensures var t' := Apply(t, client.effectInstance, OurCommit(client).call).0;
            && client.key in t'.decisions
            && (client.key in t'.effects <==> (client.guarded ==> Live(t.credentials, client.credential)))
  {
    PriorIsDecision(t, client.key);
    assert client.key !in t.effects;
  }

  /**
   * After the case the client's key is decided iff the client reached its commit, and has an effect iff it did and, when
   * guarded, found the credential live. A stopped client leaves no event, decision or effect under its key.
   */
  lemma EffectExactly(t: Tables, client: Client, rounds: seq<Calls>, others: Calls)
    requires Ready(t, client) && KeyIsOursInAll(rounds, client.key) && KeyIsOurs(others, client.key)
    ensures var live := Live(t.credentials, client.credential) && !RevokesInSome(rounds, client.credential);
            var reaches := client.heeds && rounds != [] ==> live;
            var end := Execute(ContainerLab(client), t, rounds, others).0;
            && (client.key in end.decisions <==> reaches)
            && (client.key in end.effects <==>
                reaches && (client.guarded ==> live && !Revokes(others, client.credential)))
            && ((exists e :: e in end.events && e.key == Some(client.key)) <==> reaches)
  {
    var lab, f := ContainerLab(client), ContainerFacts(client);
    StoreIsLawful(client);
    CaseEndsReady(lab, f, t, rounds, others);
    WithoutRevival(f, t, rounds);
    LiveAfterMore(f, t, rounds, others);
    assert RevokedIn(f, rounds) <==> RevokesInSome(rounds, client.credential);
    var end, between := Execute(lab, t, rounds, others).0, Run(Reads(lab, t, rounds).state, others);
    if Reaches(lab, f, t, rounds) {
      CommitLeaves(between, client);
      ApplyKeepsInv(between, client.effectInstance, OurCommit(client).call);
    }
    KeyedExactly(end, client.key);
  }

  lemma KeyedExactly(t: Tables, k: Key)
    requires Inv(t)
    ensures (exists e :: e in t.events && e.key == Some(k)) <==> k in t.decisions
    ensures k in t.effects ==> k in t.decisions
  {
    if e :| e in t.events && e.key == Some(k) {
      var i: nat :| i < |t.events| && t.events[i] == e;
      assert KeyedEvent(t, i);
    }
    if k in t.decisions {
      assert DecisionRow(t, k);
      assert t.events[t.decisions[k].event - 1] in t.events;
    }
  }

  function Revocation(client: Client): Calls {
    [Served(client.statusInstance, Call.Revoke(client.credential))]
  }

  /** Doing nothing leaves a live credential live, and one revocation does not. */
  lemma NothingAndRevocation(client: Client)
    ensures var f := ContainerFacts(client);
            && f.fair([]) && Survives(f, true, []) && f.fair(Revocation(client)) && !Survives(f, true, Revocation(client))
  {
    assert Revocation(client)[0].call == Call.Revoke(client.credential);
  }

  /** However many reads an unguarded client makes, some schedule still fools it. */
  lemma EveryReadCountIsFooled(t: Tables, client: Client, count: nat)
    requires Ready(t, client) && Live(t.credentials, client.credential) && !client.guarded
    ensures FooledAfter(ContainerLab(client), t, count)
  {
    NothingAndRevocation(client);
    StoreIsLawful(client);
    RaceLaw.EveryReadCountIsFooled(ContainerLab(client), ContainerFacts(client), t, [],
                                   Revocation(client), count);
  }

  /** A credential just initialized in an empty store is ready and live. */
  lemma InitializedIsReady(client: Client)
    ensures var t := Apply(EMPTY, client.statusInstance, Initialize(client.credential)).0;
            Ready(t, client) && Live(t.credentials, client.credential)
  {
    EmptyInv();
    ApplyKeepsInv(EMPTY, client.statusInstance, Initialize(client.credential));
  }
}
