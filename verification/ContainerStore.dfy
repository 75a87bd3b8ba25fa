/** The container lab's durable store: every operation is one transaction over shared tables. */
module ContainerStore {
  import opened Wrappers
  import opened RevocationTables

  datatype Tables = Tables(credentials: map<CredentialId, Credential>, lastId: nat, events: seq<Event>,
                           decisions: map<Key, Link>, effects: map<Key, Link>)

  const EMPTY := Tables(map[], 0, [], map[], map[])

  // ---------------------------------------------------------------- one transaction

  /** INSERT INTO events ... RETURNING *: AUTOINCREMENT hands out the next identifier. */
  function NextEvent(t: Tables, c: CredentialId, service: Service, instance: string, operation: Operation,
                     item: Credential, committed: Option<bool>, key: Option<Key>): Event {
    Event(t.lastId + 1, c, service, Instance(instance), operation, item.status, item.sequence, committed, key)
  }

  function Logged(t: Tables, e: Event): Tables {
    t.(lastId := e.id, events := t.events + [e])
  }

  /** The decision replayed for a key: only the key is consulted, never the credential or the guard. */
  function Prior(t: Tables, key: Key): Option<Event> {
    if key in t.decisions then FindEvent(t.events, t.decisions[key].event) else None
  }

  function Apply(t: Tables, instance: string, call: Call): (Tables, Reply) {
    match call
    case Initialize(c) =>
      if c in t.credentials then (t, Conflict)
      else
        var item := Credential(Active, 1);
        var e := NextEvent(t, c, StatusService, instance, InitializeOp, item, None, None);
        (Logged(t.(credentials := t.credentials[c := item]), e), Recorded(e))
    case ReadStatus(c) =>
      if c !in t.credentials then (t, Unknown)
      else
        var e := NextEvent(t, c, StatusService, instance, StatusReadOp, t.credentials[c], None, None);
        (Logged(t, e), Recorded(e))
    case Revoke(c) =>
      if c !in t.credentials then (t, Unknown)
      else
        var item := RevokedCredential(t.credentials[c]);
        var e := NextEvent(t, c, StatusService, instance, RevokeOp, item, None, None);
        (Logged(t.(credentials := t.credentials[c := item]), e), Recorded(e))
    case Commit(c, key, guarded) => ApplyCommit(t, instance, c, key, guarded)
  }

  function RevokedCredential(item: Credential): Credential {
    if item.status == Revoked then item else Credential(Revoked, item.sequence + 1)
  }

  function ApplyCommit(t: Tables, instance: string, c: CredentialId, key: Key, guarded: bool): (Tables, Reply) {
    match Prior(t, key)
    case Some(prior) => (t, Decided(prior, true, Instance(instance)))
    case None =>
      if c !in t.credentials then (t, Unknown)
      else
        var item := t.credentials[c];
        var committed := if guarded then item.status == Active else true;
        if key in t.decisions || (committed && key in t.effects) then (t, Conflict)
        else
          var e := NextEvent(t, c, EffectService, instance,
                             if guarded then GuardedCommitOp else UnguardedCommitOp, item, Some(committed), Some(key));
          var link := Link(c, e.id);
          var t' := Logged(t.(decisions := t.decisions[key := link]), e);
          (if committed then t'.(effects := t.effects[key := link]) else t', Decided(e, false, Instance(instance)))
  }

  // ---------------------------------------------------------------- the store

  /** The tables every `Store` instance opens. */
  class Database {
    var credentials: map<CredentialId, Credential>
    var lastId: nat
    var events: seq<Event>
    var decisions: map<Key, Link>
    var effects: map<Key, Link>

    function Snapshot(): Tables
      reads this
    {
      Tables(credentials, lastId, events, decisions, effects)
    }

    constructor ()
      ensures Snapshot() == EMPTY
    {
      credentials, lastId, events, decisions, effects := map[], 0, [], map[], map[];
    }

    /** ROLLBACK to the tables seen when the transaction began. */
    method Restore(before: Tables)
      modifies this
      ensures Snapshot() == before
    {
      credentials, lastId, events := before.credentials, before.lastId, before.events;
      decisions, effects := before.decisions, before.effects;
    }

    method InsertEvent(c: CredentialId, service: Service, instance: string, operation: Operation,
                       item: Credential, committed: Option<bool>, key: Option<Key>) returns (row: Event)
      modifies this`lastId, this`events
      ensures row == NextEvent(old(Snapshot()), c, service, instance, operation, item, committed, key)
      ensures Snapshot() == Logged(old(Snapshot()), row)
    {
      lastId := lastId + 1;
      row := Event(lastId, c, service, Instance(instance), operation, item.status, item.sequence, committed, key);
      events := events + [row];
    }
  }

  class Store {
    const database: Database
    const instanceId: string

    constructor (database: Database, instanceId: string)
      ensures this.database == database && this.instanceId == instanceId
    {
      this.database, this.instanceId := database, instanceId;
    }

    method Initialize(credentialId: CredentialId) returns (reply: Reply)
      modifies database
      ensures (database.Snapshot(), reply) == Apply(old(database.Snapshot()), instanceId, Call.Initialize(credentialId))
    {
      if credentialId in database.credentials {
        return Conflict;
      }
      database.credentials := database.credentials[credentialId := Credential(Active, 1)];
      var row := database.InsertEvent(credentialId, StatusService, instanceId, InitializeOp,
                                      Credential(Active, 1), None, None);
      reply := Recorded(row);
    }

    method Status(credentialId: CredentialId) returns (reply: Reply)
      modifies database
      ensures (database.Snapshot(), reply) == Apply(old(database.Snapshot()), instanceId, ReadStatus(credentialId))
    {
      if credentialId !in database.credentials {
        return Unknown;
      }
      var row := database.InsertEvent(credentialId, StatusService, instanceId, StatusReadOp,
                                      database.credentials[credentialId], None, None);
      reply := Recorded(row);
    }

    method Revoke(credentialId: CredentialId) returns (reply: Reply)
      modifies database
      ensures (database.Snapshot(), reply) == Apply(old(database.Snapshot()), instanceId, Call.Revoke(credentialId))
    {
      if credentialId !in database.credentials {
        return Unknown;
      }
      var item := database.credentials[credentialId];
      var sequence := item.sequence;
      if item.status != Revoked {
        sequence := sequence + 1;
        database.credentials := database.credentials[credentialId := Credential(Revoked, sequence)];
      }
      var row := database.InsertEvent(credentialId, StatusService, instanceId, RevokeOp,
                                      Credential(Revoked, sequence), None, None);
      assert old(database.credentials)[credentialId := RevokedCredential(item)] == database.credentials;
      reply := Recorded(row);
    }

    method Commit(credentialId: CredentialId, idempotencyKey: Key, guarded: bool) returns (reply: Reply)
      modifies database
      ensures (database.Snapshot(), reply) ==
              Apply(old(database.Snapshot()), instanceId, Call.Commit(credentialId, idempotencyKey, guarded))
    {
      var before := database.Snapshot();
      var prior := Prior(before, idempotencyKey);
      if prior.Some? {
        return Decided(prior.value, true, Instance(instanceId));
      }
      if credentialId !in database.credentials {
        return Unknown;
      }
      var item := database.credentials[credentialId];
      var committed := if guarded then item.status == Active else true;
      var row := database.InsertEvent(credentialId, EffectService, instanceId,
                                      if guarded then GuardedCommitOp else UnguardedCommitOp,
                                      item, Some(committed), Some(idempotencyKey));
      if idempotencyKey in database.decisions {
        database.Restore(before);
        return Conflict;
      }
      database.decisions := database.decisions[idempotencyKey := Link(credentialId, row.id)];
      if committed {
        if idempotencyKey in database.effects {
          database.Restore(before);
          return Conflict;
        }
        database.effects := database.effects[idempotencyKey := Link(credentialId, row.id)];
      }
      reply := Decided(row, false, Instance(instanceId));
    }
  }

  // ---------------------------------------------------------------- the invariant

  /** Decisions and keyed events are in one-to-one correspondence. */
  ghost predicate DecisionInv(t: Tables) {
    && (forall k :: k in t.decisions ==> DecisionRow(t, k))
    && (forall i: nat :: i < |t.events| && t.events[i].key.Some? ==> KeyedEvent(t, i))
  }

  ghost predicate KeyedEvent(t: Tables, i: nat)
    requires i < |t.events| && t.events[i].key.Some?
  {
    var k := t.events[i].key.value;
    k in t.decisions && t.decisions[k] == Link(t.events[i].credential, i + 1)
  }

  ghost predicate EffectInv(t: Tables) {
    && (forall k :: k in t.effects <==> k in t.decisions && Verdict(t, k))
    && (forall k :: k in t.effects ==> k in t.decisions && t.effects[k] == t.decisions[k])
  }

  /** The three tables are determined by the log. */
  ghost predicate Inv(t: Tables) {
    LawfulLog(t.lastId, t.events) && CredentialsFollow(t.credentials, t.events) && DecisionInv(t) && EffectInv(t)
  }

  ghost predicate DecisionRow(t: Tables, k: Key)
    requires k in t.decisions
  {
    var id := t.decisions[k].event;
    1 <= id <= |t.events| && t.events[id - 1].key == Some(k) && t.events[id - 1].credential == t.decisions[k].credential
  }

  ghost predicate Verdict(t: Tables, k: Key)
    requires k in t.decisions
  {
    var id := t.decisions[k].event;
    1 <= id <= |t.events| && t.events[id - 1].committed == Some(true)
  }

  lemma EmptyInv()
    ensures Inv(EMPTY)
  {}

  lemma PriorIsDecision(t: Tables, k: Key)
    requires Inv(t)
    ensures Prior(t, k) == if k in t.decisions then Some(t.events[t.decisions[k].event - 1]) else None
  {
    if k in t.decisions {
      assert DecisionRow(t, k);
      FindEventSkips(t.events, 0, t.decisions[k].event);
    }
  }

  /** A status event leaves decisions and effects as they were, and the rows they point to. */
  lemma StatusEventKeepsInv(t: Tables, e: Event, t': Tables)
    requires Inv(t) && Appendable(t.events, e) && e.key == None
    requires t' == Logged(t.(credentials := t'.credentials), e)
    requires forall c :: c in t'.credentials <==> KnownBefore(t.events + [e], c, |t.events| + 1)
    requires forall c :: c in t'.credentials ==> t'.credentials[c] == CredentialAfter(t.events + [e], c, |t.events| + 1)
    ensures Inv(t')
  {
    LogStaysLawful(t.events, e);
    forall k | k in t'.decisions
      ensures DecisionRow(t', k) && Verdict(t', k) == Verdict(t, k)
    {
      assert DecisionRow(t, k);
    }
    forall i: nat | i < |t'.events| && t'.events[i].key.Some?
      ensures KeyedEvent(t', i)
    {
      assert t'.events[i] == t.events[i];
      assert KeyedEvent(t, i);
    }
  }

  lemma StatusCallKeepsInv(t: Tables, instance: string, call: Call)
    requires Inv(t) && !call.Commit?
    ensures Inv(Apply(t, instance, call).0)
  {
    var (t', reply) := Apply(t, instance, call);
    if reply.Recorded? {
      var e, c := reply.event, call.credential;
      assert c in t.credentials ==> t.credentials[c] == CredentialAfter(t.events, c, |t.events|);
      RevokedIsKnown(t.credentials, t.events, c);
      assert Appendable(t.events, e);
      LogStaysLawful(t.events, e);
      StatusEventKeepsInv(t, e, t');
    }
  }

  /** The tables after a new decision event. */
  function WithDecision(t: Tables, e: Event, key: Key): Tables {
    var link := Link(e.credential, e.id);
    Tables(t.credentials, e.id, t.events + [e], t.decisions[key := link],
           if e.committed == Some(true) then t.effects[key := link] else t.effects)
  }

  lemma OldRowsStay(t: Tables, e: Event, key: Key, k: Key)
    requires DecisionInv(t) && e.id == |t.events| + 1 && key !in t.decisions && k in t.decisions
    ensures var t' := WithDecision(t, e, key);
            DecisionRow(t', k) && Verdict(t', k) == Verdict(t, k) && t'.decisions[k] == t.decisions[k]
  {
    assert DecisionRow(t, k);
  }

  lemma NewRowHolds(t: Tables, e: Event, key: Key)
    requires e.id == |t.events| + 1 && e.key == Some(key)
    ensures var t' := WithDecision(t, e, key);
            DecisionRow(t', key) && (Verdict(t', key) <==> e.committed == Some(true)) && KeyedEvent(t', |t.events|)
  {
    assert WithDecision(t, e, key).events[|t.events|] == e;
  }

  lemma DecisionEventKeepsDecisions(t: Tables, e: Event, key: Key)
    requires DecisionInv(t) && e.id == |t.events| + 1 && e.key == Some(key) && key !in t.decisions
    ensures DecisionInv(WithDecision(t, e, key))
  {
    var t' := WithDecision(t, e, key);
    NewRowHolds(t, e, key);
    forall k | k in t'.decisions ensures DecisionRow(t', k) {
      if k != key {
        OldRowsStay(t, e, key, k);
      }
    }
    forall i: nat | i < |t'.events| && t'.events[i].key.Some?
      ensures KeyedEvent(t', i)
    {
      if i < |t.events| {
        assert t'.events[i] == t.events[i];
        assert KeyedEvent(t, i);
      }
    }
  }

  lemma DecisionEventKeepsEffects(t: Tables, e: Event, key: Key)
    requires DecisionInv(t) && EffectInv(t) && e.id == |t.events| + 1 && e.key == Some(key) && key !in t.decisions
    ensures EffectInv(WithDecision(t, e, key))
  {
    var t' := WithDecision(t, e, key);
    NewRowHolds(t, e, key);
    forall k
      ensures k in t'.effects <==> k in t'.decisions && Verdict(t', k)
      ensures k in t'.effects ==> k in t'.decisions && t'.effects[k] == t'.decisions[k]
    {
      if k in t.decisions {
        OldRowsStay(t, e, key, k);
      }
    }
  }

  lemma DecisionEventKeepsInv(t: Tables, e: Event, key: Key)
    requires Inv(t) && Appendable(t.events, e) && e.key == Some(key) && key !in t.decisions
    ensures Inv(WithDecision(t, e, key))
  {
    LogStaysLawful(t.events, e);
    DecisionEventKeepsDecisions(t, e, key);
    DecisionEventKeepsEffects(t, e, key);
    assert WithDecision(t, e, key).events == t.events + [e];
    assert forall c :: c in t.credentials ==> t.credentials[c] == CredentialAfter(t.events, c, |t.events|);
  }

  lemma CommitKeepsInv(t: Tables, instance: string, call: Call)
    requires Inv(t) && call.Commit?
    ensures Inv(Apply(t, instance, call).0)
    ensures Apply(t, instance, call).1 != Conflict
  {
    var (t', reply) := Apply(t, instance, call);
    PriorIsDecision(t, call.key);
    if call.key !in t.decisions && call.credential in t.credentials {
      assert call.key !in t.effects;
      var e := reply.event;
      assert t.credentials[call.credential] == CredentialAfter(t.events, call.credential, |t.events|);
      assert Appendable(t.events, e);
      assert t' == WithDecision(t, e, call.key);
      DecisionEventKeepsInv(t, e, call.key);
    }
  }

  /**
   * The answer to a call, exactly: a replay of the key's own event, a refusal, or the one event the call logs, which
   * names the call and who served it. Only a call that logs changes a table.
   */
  lemma AnswerExactly(t: Tables, instance: string, call: Call)
    requires Inv(t)
    ensures var (t', reply) := Apply(t, instance, call);
            if call.Commit? && call.key in t.decisions then
              t' == t && reply == Decided(t.events[t.decisions[call.key].event - 1], true, Instance(instance))
            else if call.credential in t.credentials <==> call.Initialize? then
              t' == t && reply == if call.Initialize? then Conflict else Unknown
            else
              && |t'.events| == |t.events| + 1 && t'.events[..|t.events|] == t.events
              && Records(t'.events[|t.events|], call, Instance(instance))
              && reply == (if call.Commit? then Decided(t'.events[|t.events|], false, Instance(instance))
                           else Recorded(t'.events[|t.events|]))
  {
    if call.Commit? {
      PriorIsDecision(t, call.key);
      assert call.key in t.decisions ==> DecisionRow(t, call.key);
      assert call.key !in t.decisions ==> call.key !in t.effects;
    }
  }

  // ---------------------------------------------------------------- runs

  /** A call and the instance that serves it. Any interleaving of any clients is a sequence of these. */
  function Run(t: Tables, calls: seq<Served<string>>): Tables {
    if calls == [] then t
    else
      var before := Run(t, calls[..|calls| - 1]);
      var last := calls[|calls| - 1];
      Apply(before, last.server, last.call).0
  }

  lemma ApplyKeepsInv(t: Tables, instance: string, call: Call)
    requires Inv(t)
    ensures Inv(Apply(t, instance, call).0)
  {
    if call.Commit? {
      CommitKeepsInv(t, instance, call);
    } else {
      StatusCallKeepsInv(t, instance, call);
    }
  }

  lemma {:induction false} RunKeepsInv(t: Tables, calls: seq<Served<string>>)
    requires Inv(t)
    ensures Inv(Run(t, calls))
  {
    if calls != [] {
      RunKeepsInv(t, calls[..|calls| - 1]);
      var last := calls[|calls| - 1];
      ApplyKeepsInv(Run(t, calls[..|calls| - 1]), last.server, last.call);
    }
  }
}
