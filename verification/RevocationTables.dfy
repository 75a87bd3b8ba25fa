/** Rows, calls and replies common to the two durable revocation services. */
module RevocationTables {
  import opened Wrappers

  type CredentialId = string
  type Key = string

  datatype Status = Active | Revoked

  datatype Service = StatusService | EffectService

  datatype Operation = InitializeOp | StatusReadOp | RevokeOp | GuardedCommitOp | UnguardedCommitOp

  /** Who appended an event: a named container instance, or an operating-system process. */
  datatype Origin = Instance(name: string) | Process(pid: int)

  datatype Credential = Credential(status: Status, sequence: nat)

  /** A row of the `events` table; the services return the same fields as the payload. */
  datatype Event = Event(id: nat, credential: CredentialId, service: Service, origin: Origin,
                         operation: Operation, status: Status, sequence: nat,
                         committed: Option<bool>, key: Option<Key>)

  /** A row of `decisions` or `effects`, under its idempotency key. */
  datatype Link = Link(credential: CredentialId, event: nat)

  datatype Call =
    | Initialize(credential: CredentialId)
    | ReadStatus(credential: CredentialId)
    | Revoke(credential: CredentialId)
    | Commit(credential: CredentialId, key: Key, guarded: bool)

  /** `Unknown` is the KeyError answer, `Conflict` the IntegrityError answer. */
  datatype Reply =
    | Recorded(event: Event)
    | Decided(event: Event, replay: bool, servedBy: Origin)
    | Unknown
    | Conflict

  /** A call and the instance or process that serves it. */
  datatype Served<W> = Served(server: W, call: Call)

  /** What an event says of the call it records: who served it, and what was asked. */
  predicate Records(e: Event, call: Call, origin: Origin) {
    && e.credential == call.credential && e.origin == origin
    && (match call
        case Initialize(_) => e.operation == InitializeOp && e.service == StatusService && e.key == None
        case ReadStatus(_) => e.operation == StatusReadOp && e.service == StatusService && e.key == None
        case Revoke(_) => e.operation == RevokeOp && e.service == StatusService && e.key == None
        case Commit(_, key, guarded) =>
          && e.operation == (if guarded then GuardedCommitOp else UnguardedCommitOp)
          && e.service == EffectService && e.key == Some(key))
  }

  // What the calls of others do to one client's credential and key.

  predicate Live(credentials: map<CredentialId, Credential>, c: CredentialId) {
    c in credentials && credentials[c].status == Active
  }

  predicate Revokes<W>(calls: seq<Served<W>>, c: CredentialId) {
    exists i :: 0 <= i < |calls| && calls[i].call == Call.Revoke(c)
  }

  predicate RevokesInSome<W>(rounds: seq<seq<Served<W>>>, c: CredentialId) {
    exists i :: 0 <= i < |rounds| && Revokes(rounds[i], c)
  }

  /** Nobody else commits under the key. */
  predicate KeyIsOurs<W>(calls: seq<Served<W>>, key: Key) {
    forall i :: 0 <= i < |calls| && calls[i].call.Commit? ==> calls[i].call.key != key
  }

  predicate KeyIsOursInAll<W>(rounds: seq<seq<Served<W>>>, key: Key) {
    forall i :: 0 <= i < |rounds| ==> KeyIsOurs(rounds[i], key)
  }

  lemma RevokesSplit<W>(calls: seq<Served<W>>, c: CredentialId)
    requires calls != []
    ensures var n := |calls| - 1;
            Revokes(calls, c) <==> Revokes(calls[..n], c) || calls[n].call == Call.Revoke(c)
  {
    var n := |calls| - 1;
    if Revokes(calls[..n], c) {
      var i :| 0 <= i < n && calls[..n][i].call == Call.Revoke(c);
      assert calls[i].call == Call.Revoke(c);
    }
    assert forall i :: 0 <= i < n ==> calls[..n][i] == calls[i];
  }

  /** The join on `event_id`: the first row with the identifier. */
  function FindEvent(events: seq<Event>, id: nat): Option<Event> {
    if events == [] then None
    else if events[0].id == id then Some(events[0])
    else FindEvent(events[1..], id)
  }

  ghost predicate ContiguousIds(events: seq<Event>) {
    forall i :: 0 <= i < |events| ==> events[i].id == i + 1
  }

  lemma {:induction false} FindEventSkips(events: seq<Event>, base: nat, id: nat)
    requires forall i :: 0 <= i < |events| ==> events[i].id == base + i + 1
    ensures FindEvent(events, id) == if base < id <= base + |events| then Some(events[id - base - 1]) else None
  {
    if events != [] && events[0].id != id {
      FindEventSkips(events[1..], base + 1, id);
    }
  }

  // What a log says happened to a credential among its first n events.

  ghost predicate RevokedBefore(log: seq<Event>, c: CredentialId, n: nat)
    requires n <= |log|
  {
    exists j :: 0 <= j < n && log[j].operation == RevokeOp && log[j].credential == c
  }

  ghost predicate KnownBefore(log: seq<Event>, c: CredentialId, n: nat)
    requires n <= |log|
  {
    exists j :: 0 <= j < n && log[j].operation == InitializeOp && log[j].credential == c
  }

  lemma HistoryExtends(log: seq<Event>, e: Event)
    ensures forall c: CredentialId, n: nat | n <= |log| :: RevokedBefore(log + [e], c, n) == RevokedBefore(log, c, n)
    ensures forall c: CredentialId, n: nat | n <= |log| :: KnownBefore(log + [e], c, n) == KnownBefore(log, c, n)
    ensures forall c: CredentialId :: RevokedBefore(log + [e], c, |log| + 1) ==
                                      (RevokedBefore(log, c, |log|) || (e.operation == RevokeOp && e.credential == c))
    ensures forall c: CredentialId :: KnownBefore(log + [e], c, |log| + 1) ==
                                      (KnownBefore(log, c, |log|) || (e.operation == InitializeOp && e.credential == c))
  {
    var longer := log + [e];
    assert forall j :: 0 <= j < |log| ==> longer[j] == log[j];
    assert longer[|log|] == e;
    forall c: CredentialId
      ensures RevokedBefore(longer, c, |log| + 1) ==
              (RevokedBefore(log, c, |log|) || (e.operation == RevokeOp && e.credential == c))
      ensures KnownBefore(longer, c, |log| + 1) ==
              (KnownBefore(log, c, |log|) || (e.operation == InitializeOp && e.credential == c))
    {
      if RevokedBefore(log, c, |log|) {
        var j :| 0 <= j < |log| && log[j].operation == RevokeOp && log[j].credential == c;
        assert longer[j].operation == RevokeOp;
      }
      if KnownBefore(log, c, |log|) {
        var j :| 0 <= j < |log| && log[j].operation == InitializeOp && log[j].credential == c;
        assert longer[j].operation == InitializeOp;
      }
    }
    forall c: CredentialId, n: nat | n <= |log|
      ensures RevokedBefore(longer, c, n) == RevokedBefore(log, c, n)
      ensures KnownBefore(longer, c, n) == KnownBefore(log, c, n)
    {
      if RevokedBefore(log, c, n) {
        var j :| 0 <= j < n && log[j].operation == RevokeOp && log[j].credential == c;
        assert longer[j].operation == RevokeOp;
      }
      if KnownBefore(log, c, n) {
        var j :| 0 <= j < n && log[j].operation == InitializeOp && log[j].credential == c;
        assert longer[j].operation == InitializeOp;
      }
    }
  }

  // ---------------------------------------------------------------- the laws of a log

  /** What the log alone says a credential's row holds after its first n events. */
  ghost function CredentialAfter(log: seq<Event>, c: CredentialId, n: nat): Credential
    requires n <= |log|
  {
    if RevokedBefore(log, c, n) then Credential(Revoked, 2) else Credential(Active, 1)
  }

  /** Every event is what its operation must have recorded, given the events before it. */
  ghost predicate LawfulEvent(log: seq<Event>, i: nat)
    requires i < |log|
  {
    var e := log[i];
    && Credential(e.status, e.sequence) == CredentialAfter(log, e.credential, i + 1)
    && (e.operation == InitializeOp <==> !KnownBefore(log, e.credential, i))
    && (match e.operation
        case GuardedCommitOp =>
          e.service == EffectService && e.key.Some? && e.committed == Some(!RevokedBefore(log, e.credential, i))
        case UnguardedCommitOp => e.service == EffectService && e.key.Some? && e.committed == Some(true)
        case _ => e.service == StatusService && e.key == None && e.committed == None)
  }

  /** Identifiers are 1..n and every event is lawful. */
  ghost predicate LawfulLog(lastId: nat, log: seq<Event>) {
    && lastId == |log|
    && ContiguousIds(log)
    && (forall i: nat :: i < |log| ==> LawfulEvent(log, i))
  }

  /** The credentials table holds what the log says of each credential. */
  ghost predicate CredentialsFollow(credentials: map<CredentialId, Credential>, log: seq<Event>) {
    && (forall c :: c in credentials <==> KnownBefore(log, c, |log|))
    && (forall c :: c in credentials ==> credentials[c] == CredentialAfter(log, c, |log|))
  }

  /** What an event must carry to be appended to a log. */
  ghost predicate Appendable(log: seq<Event>, e: Event) {
    var c, n := e.credential, |log|;
    && e.id == n + 1
    && Credential(e.status, e.sequence) ==
       (if e.operation == RevokeOp then Credential(Revoked, 2) else CredentialAfter(log, c, n))
    && (e.operation == InitializeOp <==> !KnownBefore(log, c, n))
    && (match e.operation
        case GuardedCommitOp =>
          e.service == EffectService && e.key.Some? && e.committed == Some(!RevokedBefore(log, c, n))
        case UnguardedCommitOp => e.service == EffectService && e.key.Some? && e.committed == Some(true)
        case _ => e.service == StatusService && e.key == None && e.committed == None)
  }

  lemma LogStaysLawful(log: seq<Event>, e: Event)
    requires ContiguousIds(log)
    requires forall i: nat :: i < |log| ==> LawfulEvent(log, i)
    requires Appendable(log, e)
    ensures ContiguousIds(log + [e])
    ensures forall i: nat :: i < |log| + 1 ==> LawfulEvent(log + [e], i)
    ensures forall c :: KnownBefore(log + [e], c, |log| + 1) ==
                        (KnownBefore(log, c, |log|) || (e.operation == InitializeOp && e.credential == c))
    ensures forall c :: CredentialAfter(log + [e], c, |log| + 1) ==
                        (if e.operation == RevokeOp && e.credential == c then Credential(Revoked, 2)
                         else CredentialAfter(log, c, |log|))
  {
    HistoryExtends(log, e);
    forall i: nat | i < |log|
      ensures LawfulEvent(log + [e], i)
    {
      assert LawfulEvent(log, i);
    }
    assert LawfulEvent(log + [e], |log|);
  }

  /** Only an initialized credential is ever revoked. */
  lemma RevokedIsKnown(credentials: map<CredentialId, Credential>, log: seq<Event>, c: CredentialId)
    requires LawfulLog(|log|, log) && CredentialsFollow(credentials, log)
    ensures RevokedBefore(log, c, |log|) ==> c in credentials
  {
    if RevokedBefore(log, c, |log|) {
      var j :| 0 <= j < |log| && log[j].operation == RevokeOp && log[j].credential == c;
      assert LawfulEvent(log, j);
    }
  }

  /** The credentials table after an appended event: only initializations and revocations write it. */
  lemma EventKeepsCredentials(credentials: map<CredentialId, Credential>, log: seq<Event>, e: Event)
    requires LawfulLog(|log|, log) && CredentialsFollow(credentials, log) && Appendable(log, e)
    requires e.operation != InitializeOp ==> e.credential in credentials
    ensures CredentialsFollow(if e.operation == InitializeOp || e.operation == RevokeOp
                              then credentials[e.credential := Credential(e.status, e.sequence)] else credentials, log + [e])
  {
    LogStaysLawful(log, e);
    RevokedIsKnown(credentials, log, e.credential);
  }
}
