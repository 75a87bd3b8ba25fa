/** The distributed lab's durable store: it remembers committed effects only, not denials. */
module DistributedStore {
  import opened Wrappers
  import opened RevocationTables

  datatype Tables = Tables(credentials: map<CredentialId, Credential>, lastId: nat, events: seq<Event>,
                           effects: map<Key, Link>)

  const EMPTY := Tables(map[], 0, [], map[])

  function NextEvent(t: Tables, c: CredentialId, service: Service, pid: int, operation: Operation,
                     item: Credential, committed: Option<bool>, key: Option<Key>): Event {
    Event(t.lastId + 1, c, service, Process(pid), operation, item.status, item.sequence, committed, key)
  }

  function Logged(t: Tables, e: Event): Tables {
    t.(lastId := e.id, events := t.events + [e])
  }

  function Prior(t: Tables, key: Key): Option<Event> {
    if key in t.effects then FindEvent(t.events, t.effects[key].event) else None
  }

  function Apply(t: Tables, pid: int, call: Call): (Tables, Reply) {
    match call
    case Initialize(c) =>
      if c in t.credentials then (t, Conflict)
      else
        var item := Credential(Active, 1);
        var e := NextEvent(t, c, StatusService, pid, InitializeOp, item, None, None);
        (Logged(t.(credentials := t.credentials[c := item]), e), Recorded(e))
    case ReadStatus(c) =>
      if c !in t.credentials then (t, Unknown)
      else
        var e := NextEvent(t, c, StatusService, pid, StatusReadOp, t.credentials[c], None, None);
        (Logged(t, e), Recorded(e))
    case Revoke(c) =>
      if c !in t.credentials then (t, Unknown)
      else
        var stored := t.credentials[c];
        var item := if stored.status == Revoked then stored else Credential(Revoked, stored.sequence + 1);
        var e := NextEvent(t, c, StatusService, pid, RevokeOp, item, None, None);
        (Logged(t.(credentials := t.credentials[c := item]), e), Recorded(e))
    case Commit(c, key, guarded) => ApplyCommit(t, pid, c, key, guarded)
  }

  function ApplyCommit(t: Tables, pid: int, c: CredentialId, key: Key, guarded: bool): (Tables, Reply) {
    match Prior(t, key)
    case Some(prior) => (t, Decided(prior, true, Process(pid)))
    case None =>
      if c !in t.credentials then (t, Unknown)
      else
        var item := t.credentials[c];
        var committed := if guarded then item.status == Active else true;
        if committed && key in t.effects then (t, Conflict)
        else
          var e := NextEvent(t, c, EffectService, pid,
                             if guarded then GuardedCommitOp else UnguardedCommitOp, item, Some(committed), Some(key));
          var t' := Logged(t, e);
          (if committed then t'.(effects := t.effects[key := Link(c, e.id)]) else t', Decided(e, false, Process(pid)))
  }

  /** One service process and the database file it opens. */
  class Store {
    var credentials: map<CredentialId, Credential>
    var lastId: nat
    var events: seq<Event>
    var effects: map<Key, Link>

    function Snapshot(): Tables
      reads this
    {
      Tables(credentials, lastId, events, effects)
    }

    constructor ()
      ensures Snapshot() == EMPTY
    {
      credentials, lastId, events, effects := map[], 0, [], map[];
    }

    method InsertEvent(c: CredentialId, service: Service, pid: int, operation: Operation,
                       item: Credential, committed: Option<bool>, key: Option<Key>) returns (row: Event)
      modifies this`lastId, this`events
      ensures row == NextEvent(old(Snapshot()), c, service, pid, operation, item, committed, key)
      ensures Snapshot() == Logged(old(Snapshot()), row)
    {
      lastId := lastId + 1;
      row := Event(lastId, c, service, Process(pid), operation, item.status, item.sequence, committed, key);
      events := events + [row];
    }

    method Initialize(credentialId: CredentialId, pid: int) returns (reply: Reply)
      modifies this
      ensures (Snapshot(), reply) == Apply(old(Snapshot()), pid, Call.Initialize(credentialId))
    {
      if credentialId in credentials {
        return Conflict;
      }
      credentials := credentials[credentialId := Credential(Active, 1)];
      var row := InsertEvent(credentialId, StatusService, pid, InitializeOp, Credential(Active, 1), None, None);
      reply := Recorded(row);
    }

    method Status(credentialId: CredentialId, pid: int) returns (reply: Reply)
      modifies this
      ensures (Snapshot(), reply) == Apply(old(Snapshot()), pid, ReadStatus(credentialId))
    {
      if credentialId !in credentials {
        return Unknown;
      }
      var row := InsertEvent(credentialId, StatusService, pid, StatusReadOp, credentials[credentialId], None, None);
      reply := Recorded(row);
    }

    method Revoke(credentialId: CredentialId, pid: int) returns (reply: Reply)
      modifies this
      ensures (Snapshot(), reply) == Apply(old(Snapshot()), pid, Call.Revoke(credentialId))
    {
      if credentialId !in credentials {
        return Unknown;
      }
      var item := credentials[credentialId];
      var sequence := item.sequence;
      if item.status != Revoked {
        sequence := sequence + 1;
        credentials := credentials[credentialId := Credential(Revoked, sequence)];
      }
      assert credentials == old(credentials)[credentialId := Credential(Revoked, sequence)];
      var row := InsertEvent(credentialId, StatusService, pid, RevokeOp, Credential(Revoked, sequence), None, None);
      reply := Recorded(row);
    }

    method Commit(credentialId: CredentialId, idempotencyKey: Key, guarded: bool, pid: int) returns (reply: Reply)
      modifies this
      ensures (Snapshot(), reply) == Apply(old(Snapshot()), pid, Call.Commit(credentialId, idempotencyKey, guarded))
    {
      var prior := Prior(Snapshot(), idempotencyKey);
      if prior.Some? {
        return Decided(prior.value, true, Process(pid));
      }
      if credentialId !in credentials {
        return Unknown;
      }
      var item := credentials[credentialId];
      var committed := if guarded then item.status == Active else true;
      if committed && idempotencyKey in effects {
        return Conflict;  // the inserts are rolled back
      }
      var row := InsertEvent(credentialId, EffectService, pid, if guarded then GuardedCommitOp else UnguardedCommitOp,
                             item, Some(committed), Some(idempotencyKey));
      if committed {
        effects := effects[idempotencyKey := Link(credentialId, row.id)];
      }
      reply := Decided(row, false, Process(pid));
    }
  }

  // ---------------------------------------------------------------- the invariant

  /** Effects and committed events are in one-to-one correspondence; denials leave events only. */
  ghost predicate EffectInv(t: Tables) {
    && (forall k :: k in t.effects ==> EffectRow(t, k))
    && (forall i: nat :: i < |t.events| && t.events[i].committed == Some(true) ==> CommittedEvent(t, i))
  }

  ghost predicate EffectRow(t: Tables, k: Key)
    requires k in t.effects
  {
    var id := t.effects[k].event;
    && 1 <= id <= |t.events| && t.events[id - 1].key == Some(k) && t.events[id - 1].committed == Some(true)
    && t.events[id - 1].credential == t.effects[k].credential
  }

  ghost predicate CommittedEvent(t: Tables, i: nat)
    requires i < |t.events|
  {
    var e := t.events[i];
    e.key.Some? && e.key.value in t.effects && t.effects[e.key.value] == Link(e.credential, i + 1)
  }

  ghost predicate Inv(t: Tables) {
    LawfulLog(t.lastId, t.events) && CredentialsFollow(t.credentials, t.events) && EffectInv(t)
  }

  lemma EmptyInv()
    ensures Inv(EMPTY)
  {}

  lemma PriorIsEffect(t: Tables, k: Key)
    requires Inv(t)
    ensures Prior(t, k) == if k in t.effects then Some(t.events[t.effects[k].event - 1]) else None
    ensures k in t.effects ==> Prior(t, k).Some? && Prior(t, k).value.committed == Some(true)
  {
    if k in t.effects {
      assert EffectRow(t, k);
      FindEventSkips(t.events, 0, t.effects[k].event);
    }
  }

  /** The tables after one more event. */
  function WithEvent(t: Tables, e: Event): Tables {
    Tables(if e.operation == InitializeOp || e.operation == RevokeOp
           then t.credentials[e.credential := Credential(e.status, e.sequence)] else t.credentials,
           e.id, t.events + [e],
           if e.committed == Some(true) && e.key.Some? then t.effects[e.key.value := Link(e.credential, e.id)] else t.effects)
  }

  lemma EventKeepsEffects(t: Tables, e: Event)
    requires EffectInv(t) && e.id == |t.events| + 1
    requires e.committed == Some(true) ==> e.key.Some? && e.key.value !in t.effects
    ensures EffectInv(WithEvent(t, e))
  {
    var t' := WithEvent(t, e);
    assert t'.events[|t.events|] == e;
    forall k | k in t'.effects
      ensures EffectRow(t', k)
    {
      if k in t.effects {
        assert EffectRow(t, k);
      }
    }
    forall i: nat | i < |t'.events| && t'.events[i].committed == Some(true)
      ensures CommittedEvent(t', i)
    {
      if i < |t.events| {
        assert t'.events[i] == t.events[i];
        assert CommittedEvent(t, i);
      }
    }
  }

  lemma EventKeepsInv(t: Tables, e: Event)
    requires Inv(t) && Appendable(t.events, e) && (e.operation != InitializeOp ==> e.credential in t.credentials)
    requires e.committed == Some(true) ==> e.key.Some? && e.key.value !in t.effects
    ensures Inv(WithEvent(t, e))
  {
    LogStaysLawful(t.events, e);
    EventKeepsEffects(t, e);
    EventKeepsCredentials(t.credentials, t.events, e);
  }

  /** An event that fits: the row it finds or makes, and the verdict that goes with it. */
  lemma LoggedEventFits(t: Tables, pid: int, call: Call)
    requires Inv(t)
    ensures var (t', reply) := Apply(t, pid, call);
            t' != t ==>
              && t' == WithEvent(t, t'.events[|t.events|])
              && Appendable(t.events, t'.events[|t.events|])
  {
    var (t', reply) := Apply(t, pid, call);
    var c := call.credential;
    assert c in t.credentials ==> t.credentials[c] == CredentialAfter(t.events, c, |t.events|);
    RevokedIsKnown(t.credentials, t.events, c);
    if call.Commit? {
      PriorIsEffect(t, call.key);
    }
  }

  lemma ApplyKeepsInv(t: Tables, pid: int, call: Call)
    requires Inv(t)
    ensures Inv(Apply(t, pid, call).0)
    ensures call.Commit? ==> Apply(t, pid, call).1 != Conflict
  {
    if call.Commit? {
      PriorIsEffect(t, call.key);
    }
    var t' := Apply(t, pid, call).0;
    if t' != t {
      LoggedEventFits(t, pid, call);
      EventKeepsInv(t, t'.events[|t.events|]);
    }
  }

  /**
   * The answer to a call, exactly: a replay of the key's own event, a refusal, or the one event the call logs, which
   * names the call and who served it. Only a call that logs changes a table.
   */
  lemma AnswerExactly(t: Tables, pid: int, call: Call)
    requires Inv(t)
    ensures var (t', reply) := Apply(t, pid, call);
            if call.Commit? && call.key in t.effects then
              t' == t && reply == Decided(t.events[t.effects[call.key].event - 1], true, Process(pid))
            else if call.credential in t.credentials <==> call.Initialize? then
              t' == t && reply == if call.Initialize? then Conflict else Unknown
            else
              && |t'.events| == |t.events| + 1 && t'.events[..|t.events|] == t.events
              && Records(t'.events[|t.events|], call, Process(pid))
              && reply == (if call.Commit? then Decided(t'.events[|t.events|], false, Process(pid))
                           else Recorded(t'.events[|t.events|]))
  {
    if call.Commit? {
      PriorIsEffect(t, call.key);
      assert call.key in t.effects ==> EffectRow(t, call.key);
    }
  }

  // ---------------------------------------------------------------- runs

  function Run(t: Tables, calls: seq<Served<int>>): Tables {
    if calls == [] then t
    else
      var before := Run(t, calls[..|calls| - 1]);
      var last := calls[|calls| - 1];
      Apply(before, last.server, last.call).0
  }

  /** The invariant holds after any calls through any processes. */
  lemma {:induction false} RunKeepsInv(t: Tables, calls: seq<Served<int>>)
    requires Inv(t)
    ensures Inv(Run(t, calls))
  {
    if calls != [] {
      RunKeepsInv(t, calls[..|calls| - 1]);
      var last := calls[|calls| - 1];
      ApplyKeepsInv(Run(t, calls[..|calls| - 1]), last.server, last.call);
    }
  }

  /** A key takes effect at most once: two committed events with one key are the same event. */
  lemma EffectIsUnique(calls: seq<Served<int>>, i: nat, j: nat)
    requires i < |Run(EMPTY, calls).events| && j < |Run(EMPTY, calls).events|
    requires var log := Run(EMPTY, calls).events;
             log[i].committed == Some(true) && log[j].committed == Some(true) && log[i].key == log[j].key
    ensures i == j
  {
    EmptyInv();
    RunKeepsInv(EMPTY, calls);
    assert CommittedEvent(Run(EMPTY, calls), i) && CommittedEvent(Run(EMPTY, calls), j);
  }

  // ---------------------------------------------------------------- when a key is logged twice

  /** Two events of the log carry the key. */
  ghost predicate LoggedTwice(log: seq<Event>, k: Key) {
    exists i, j :: 0 <= i < j < |log| && log[i].key == Some(k) && log[j].key == Some(k)
  }

  ghost predicate LoggedOnce(log: seq<Event>, k: Key) {
    exists i :: 0 <= i < |log| && log[i].key == Some(k)
  }

  /** The key was denied: a guarded commit of it was logged as not committed. */
  ghost predicate Denied(t: Tables, k: Key) {
    exists i :: 0 <= i < |t.events| && t.events[i].key == Some(k) && t.events[i].committed == Some(false)
  }

  /** A commit of the key on a known credential, after the key was denied and before it has an effect. */
  ghost predicate RetriesDenied(t: Tables, call: Call, k: Key) {
    call.Commit? && call.key == k && call.credential in t.credentials && Denied(t, k) && k !in t.effects
  }

  ghost predicate RetriedAt(calls: seq<Served<int>>, i: nat, k: Key)
    requires i < |calls|
  {
    RetriesDenied(Run(EMPTY, calls[..i]), calls[i].call, k)
  }

  ghost predicate RetriedWithin(calls: seq<Served<int>>, k: Key) {
    exists i: nat :: i < |calls| && RetriedAt(calls, i, k)
  }

  /** A key without an effect that was logged was denied. */
  lemma LoggedWithoutEffect(t: Tables, k: Key)
    requires Inv(t) && k !in t.effects
    ensures LoggedOnce(t.events, k) <==> Denied(t, k)
  {
    if i :| 0 <= i < |t.events| && t.events[i].key == Some(k) {
      assert LawfulEvent(t.events, i);
      if t.events[i].committed == Some(true) {
        assert CommittedEvent(t, i);
      }
    }
  }

  lemma TwiceGrows(log: seq<Event>, e: Event, k: Key)
    ensures LoggedTwice(log + [e], k) <==> LoggedTwice(log, k) || (e.key == Some(k) && LoggedOnce(log, k))
  {
    var longer := log + [e];
    assert forall i :: 0 <= i < |log| ==> longer[i] == log[i];
    assert longer[|log|] == e;
    if i, j :| 0 <= i < j < |log| && log[i].key == Some(k) && log[j].key == Some(k) {
      assert longer[i].key == Some(k) && longer[j].key == Some(k);
    }
    if i, j :| 0 <= i < j < |longer| && longer[i].key == Some(k) && longer[j].key == Some(k) {
      assert log[i].key == Some(k);
    }
    if i :| 0 <= i < |log| && log[i].key == Some(k) {
      assert longer[i].key == Some(k);
    }
  }

  /** What a call adds to the log: nothing, or one event that carries the key exactly when the call decides it. */
  lemma CallLogs(t: Tables, pid: int, call: Call, k: Key)
    requires Inv(t)
    ensures var t' := Apply(t, pid, call).0;
            || (t'.events == t.events
                && !(call.Commit? && call.key == k && call.credential in t.credentials && k !in t.effects))
            || (t'.events == t.events + [t'.events[|t.events|]]
                && (t'.events[|t.events|].key == Some(k) <==>
                    call.Commit? && call.key == k && call.credential in t.credentials && k !in t.effects))
  {
    if call.Commit? {
      PriorIsEffect(t, call.key);
    }
  }

  lemma StepRetries(t: Tables, pid: int, call: Call, k: Key)
    requires Inv(t)
    ensures LoggedTwice(Apply(t, pid, call).0.events, k) <==> LoggedTwice(t.events, k) || RetriesDenied(t, call, k)
  {
    var t' := Apply(t, pid, call).0;
    CallLogs(t, pid, call, k);
    if k !in t.effects {
      LoggedWithoutEffect(t, k);
    }
    if t'.events != t.events {
      TwiceGrows(t.events, t'.events[|t.events|], k);
    }
  }

  lemma RetriedSplits(calls: seq<Served<int>>, k: Key)
    requires calls != []
    ensures var n := |calls| - 1;
            RetriedWithin(calls, k) <==> RetriedWithin(calls[..n], k) || RetriedAt(calls, n, k)
  {
    var n := |calls| - 1;
    forall i: nat | i < n ensures RetriedAt(calls[..n], i, k) == RetriedAt(calls, i, k) {
      assert calls[..n][..i] == calls[..i];
    }
  }

  /**
   * When a key is logged more than once, exactly: in some state of the run a commit of it on a known credential
   * comes after the key was denied and before it has an effect.
   */
  lemma {:induction false} LoggedTwiceExactly(calls: seq<Served<int>>, k: Key)
    ensures LoggedTwice(Run(EMPTY, calls).events, k) <==> RetriedWithin(calls, k)
  {
    if calls != [] {
      var n := |calls| - 1;
      LoggedTwiceExactly(calls[..n], k);
      RetriedSplits(calls, k);
      EmptyInv();
      RunKeepsInv(EMPTY, calls[..n]);
      StepRetries(Run(EMPTY, calls[..n]), calls[n].server, calls[n].call, k);
    }
  }

  /** Unlike a commitment, a denial may be logged any number of times under one key. */
  lemma DenialsRepeat(pid: int, c: CredentialId, k: Key)
    ensures var denied := Call.Commit(c, k, true);
            var t := Run(EMPTY, [Served(pid, Call.Initialize(c)), Served(pid, Call.Revoke(c)), Served(pid, denied),
                                 Served(pid, denied)]);
            |t.events| == 4 && t.events[2].key == t.events[3].key == Some(k) && k !in t.effects
  {
    var calls := [Served(pid, Call.Initialize(c)), Served(pid, Call.Revoke(c)), Served(pid, Call.Commit(c, k, true)),
                  Served(pid, Call.Commit(c, k, true))];
    assert calls[..3][..2] == calls[..2];
    assert calls[..2][..1] == calls[..1];
    assert calls[..1][..0] == [];
    assert Run(EMPTY, calls[..1]) == Apply(EMPTY, pid, Call.Initialize(c)).0;
    assert Run(EMPTY, calls[..2]) == Apply(Run(EMPTY, calls[..1]), pid, Call.Revoke(c)).0;
    assert Run(EMPTY, calls[..3]) == Apply(Run(EMPTY, calls[..2]), pid, Call.Commit(c, k, true)).0;
    assert calls[..|calls| - 1] == calls[..3];
  }
}
