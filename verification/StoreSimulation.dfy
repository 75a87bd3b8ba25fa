/** When the store that forgets denials answers like the store that remembers every decision. */
module StoreSimulation {
  import opened Wrappers
  import opened RevocationTables
  import Container = ContainerStore
  import Distributed = DistributedStore

  /** A call, the container instance that serves it, and the distributed process that serves it. */
  datatype Step = Step(instance: string, pid: int, call: Call)

  datatype Pair = Pair(container: Container.Tables, distributed: Distributed.Tables)

  const START := Pair(Container.EMPTY, Distributed.EMPTY)

  function Next(s: Pair, step: Step): Pair {
    Pair(Container.Apply(s.container, step.instance, step.call).0,
         Distributed.Apply(s.distributed, step.pid, step.call).0)
  }

  function Both(steps: seq<Step>): Pair {
    if steps == [] then START else Next(Both(steps[..|steps| - 1]), steps[|steps| - 1])
  }

  /** Both refuse alike, both record the same status, or both decide the same verdict. */
  predicate SameAnswer(a: Reply, b: Reply) {
    match (a, b)
    case (Recorded(e), Recorded(f)) =>
      e.credential == f.credential && e.operation == f.operation && e.status == f.status && e.sequence == f.sequence
    case (Decided(e, _, _), Decided(f, _, _)) => e.committed == f.committed
    case _ => a == b
  }

  predicate Agree(s: Pair, step: Step) {
    SameAnswer(Container.Apply(s.container, step.instance, step.call).1,
               Distributed.Apply(s.distributed, step.pid, step.call).1)
  }

  /** A retry of a denied key is harmless when it is guarded and names a credential already revoked. */
  predicate RetrySafe(t: Container.Tables, call: Call) {
    call.Commit? && call.key in t.decisions && call.key !in t.effects ==>
      call.guarded && call.credential in t.credentials && t.credentials[call.credential].status == Revoked
  }

  ghost predicate Related(s: Pair) {
    && Container.Inv(s.container)
    && Distributed.Inv(s.distributed)
    && Alike(s)
  }

  predicate Alike(s: Pair) {
    && s.container.credentials == s.distributed.credentials
    && s.container.effects.Keys == s.distributed.effects.Keys
  }

  /** What a commit answers and changes in the store that remembers decisions. */
  lemma ContainerCommit(t: Container.Tables, instance: string, call: Call)
    requires Container.Inv(t) && call.Commit?
    ensures var (t', reply) := Container.Apply(t, instance, call);
            && t'.credentials == t.credentials
            && (call.key in t.effects ==> call.key in t.decisions)
            && (if call.key in t.decisions then
                  t' == t && reply.Decided? && reply.event.committed == Some(call.key in t.effects)
                else if call.credential !in t.credentials then t' == t && reply == Unknown
                else
                  var allowed := call.guarded ==> t.credentials[call.credential].status == Active;
                  reply.Decided? && reply.event.committed == Some(allowed)
                  && t'.effects.Keys == t.effects.Keys + (if allowed then {call.key} else {}))
  {
    Container.PriorIsDecision(t, call.key);
    if call.key in t.decisions {
      assert Container.DecisionRow(t, call.key);
      assert LawfulEvent(t.events, t.decisions[call.key].event - 1);
    } else {
      assert call.key !in t.effects;
    }
  }

  /** What a commit answers and changes in the store that remembers effects. */
  lemma DistributedCommit(t: Distributed.Tables, pid: int, call: Call)
    requires Distributed.Inv(t) && call.Commit?
    ensures var (t', reply) := Distributed.Apply(t, pid, call);
            && t'.credentials == t.credentials
            && (if call.key in t.effects then t' == t && reply.Decided? && reply.event.committed == Some(true)
                else if call.credential !in t.credentials then t' == t && reply == Unknown
                else
                  var allowed := call.guarded ==> t.credentials[call.credential].status == Active;
                  reply.Decided? && reply.event.committed == Some(allowed)
                  && t'.effects.Keys == t.effects.Keys + (if allowed then {call.key} else {}))
  {
    Distributed.PriorIsEffect(t, call.key);
  }

  lemma StatusStepExact(s: Pair, step: Step)
    requires Alike(s) && !step.call.Commit?
    ensures Agree(s, step) && Alike(Next(s, step))
  {}

  lemma CommitStepExact(s: Pair, step: Step)
    requires Related(s) && step.call.Commit?
    ensures Agree(s, step) <==> RetrySafe(s.container, step.call)
    ensures Agree(s, step) ==> Alike(Next(s, step))
  {
    var (t', a) := Container.Apply(s.container, step.instance, step.call);
    var (d', b) := Distributed.Apply(s.distributed, step.pid, step.call);
    ContainerCommit(s.container, step.instance, step.call);
    DistributedCommit(s.distributed, step.pid, step.call);
    assert step.call.key in s.container.effects.Keys <==> step.call.key in s.distributed.effects.Keys;
    assert Agree(s, step) == SameAnswer(a, b);
  }

  /** One call, exactly: related stores answer alike iff the call is not an unsafe retry. */
  lemma StepExact(s: Pair, step: Step)
    requires Related(s)
    ensures Agree(s, step) <==> RetrySafe(s.container, step.call)
    ensures Agree(s, step) ==> Related(Next(s, step))
  {
    Container.ApplyKeepsInv(s.container, step.instance, step.call);
    Distributed.ApplyKeepsInv(s.distributed, step.pid, step.call);
    if step.call.Commit? {
      CommitStepExact(s, step);
    } else {
      StatusStepExact(s, step);
    }
  }

  predicate AgreeAt(steps: seq<Step>, i: nat)
    requires i < |steps|
  {
    Agree(Both(steps[..i]), steps[i])
  }

  predicate SafeAt(steps: seq<Step>, i: nat)
    requires i < |steps|
  {
    RetrySafe(Both(steps[..i]).container, steps[i].call)
  }

  ghost predicate AgreeThroughout(steps: seq<Step>) {
    forall i: nat :: i < |steps| ==> AgreeAt(steps, i)
  }

  ghost predicate SafeThroughout(steps: seq<Step>) {
    forall i: nat :: i < |steps| ==> SafeAt(steps, i)
  }

  lemma PrefixAt(steps: seq<Step>, n: nat)
    requires n <= |steps|
    ensures forall i: nat :: i < n ==>
              AgreeAt(steps[..n], i) == AgreeAt(steps, i) && SafeAt(steps[..n], i) == SafeAt(steps, i)
  {
    forall i: nat | i < n
      ensures AgreeAt(steps[..n], i) == AgreeAt(steps, i) && SafeAt(steps[..n], i) == SafeAt(steps, i)
    {
      assert steps[..n][..i] == steps[..i];
    }
  }

  /**
   * The simulation, exactly: on any run the two stores give the same answer at every call iff no call retries
   * a denied key unsafely; and then they end with the same credentials and the same effect keys.
   */
  lemma {:induction false} SimulationExact(steps: seq<Step>)
    ensures AgreeThroughout(steps) <==> SafeThroughout(steps)
    ensures AgreeThroughout(steps) ==> Related(Both(steps))
  {
    if steps == [] {
      Container.EmptyInv();
    } else {
      var n := |steps| - 1;
      SimulationExact(steps[..n]);
      LastAnswerSplits(steps);
      LastCallSplits(steps);
      if AgreeThroughout(steps[..n]) {
        LastStepExact(steps);
      }
    }
  }

  lemma LastAnswerSplits(steps: seq<Step>)
    requires steps != []
    ensures var n := |steps| - 1;
            AgreeThroughout(steps) <==> AgreeThroughout(steps[..n]) && AgreeAt(steps, n)
  {
    PrefixAt(steps, |steps| - 1);
  }

  lemma LastCallSplits(steps: seq<Step>)
    requires steps != []
    ensures var n := |steps| - 1;
            SafeThroughout(steps) <==> SafeThroughout(steps[..n]) && SafeAt(steps, n)
  {
    PrefixAt(steps, |steps| - 1);
  }

  lemma LastStepExact(steps: seq<Step>)
    requires steps != [] && Related(Both(steps[..|steps| - 1]))
    ensures AgreeAt(steps, |steps| - 1) <==> SafeAt(steps, |steps| - 1)
    ensures AgreeAt(steps, |steps| - 1) ==> Related(Both(steps))
  {
    StepExact(Both(steps[..|steps| - 1]), steps[|steps| - 1]);
  }

  // ---------------------------------------------------------------- every run

  predicate Included(s: Pair) {
    && s.container.credentials == s.distributed.credentials
    && s.container.effects.Keys <= s.distributed.effects.Keys
  }

  lemma CommitKeepsInclusion(s: Pair, step: Step)
    requires Container.Inv(s.container) && Distributed.Inv(s.distributed) && Included(s) && step.call.Commit?
    ensures Included(Next(s, step))
  {
    var t', d' := Next(s, step).container, Next(s, step).distributed;
    ContainerCommit(s.container, step.instance, step.call);
    DistributedCommit(s.distributed, step.pid, step.call);
    assert t'.effects.Keys <= s.container.effects.Keys + {step.call.key};
    assert s.distributed.effects.Keys <= d'.effects.Keys;
  }

  lemma StatusKeepsInclusion(s: Pair, step: Step)
    requires Included(s) && !step.call.Commit?
    ensures Included(Next(s, step))
  {}

  /**
   * With no discipline at all the two stores still hold the same credentials, and every effect of the store that
   * remembers decisions is an effect of the one that forgets denials: forgetting only adds effects.
   */
  lemma {:induction false} ForgettingOnlyAdds(steps: seq<Step>)
    ensures Container.Inv(Both(steps).container) && Distributed.Inv(Both(steps).distributed)
    ensures Included(Both(steps))
  {
    if steps == [] {
      Container.EmptyInv();
      Distributed.EmptyInv();
    } else {
      var before, last := Both(steps[..|steps| - 1]), steps[|steps| - 1];
      ForgettingOnlyAdds(steps[..|steps| - 1]);
      if last.call.Commit? {
        CommitKeepsInclusion(before, last);
      } else {
        StatusKeepsInclusion(before, last);
      }
      Container.ApplyKeepsInv(before.container, last.instance, last.call);
      Distributed.ApplyKeepsInv(before.distributed, last.pid, last.call);
    }
  }

  // ---------------------------------------------------------------- the disciplined client

  predicate AllGuarded(steps: seq<Step>) {
    forall i :: 0 <= i < |steps| && steps[i].call.Commit? ==> steps[i].call.guarded
  }

  predicate KeyDeterminesCredential(steps: seq<Step>) {
    forall a, b :: a in steps && b in steps && a.call.Commit? && b.call.Commit? && a.call.key == b.call.key ==>
                     a.call.credential == b.call.credential
  }

  /** Every keyed event was logged by some commit of the run. */
  lemma {:induction false} KeyedEventsComeFromCommits(steps: seq<Step>, e: Event)
    requires e in Both(steps).container.events && e.key.Some?
    ensures exists j :: 0 <= j < |steps| && steps[j].call.Commit? && steps[j].call.key == e.key.value
                        && steps[j].call.credential == e.credential
  {
    var n := |steps| - 1;
    var before := Both(steps[..n]).container;
    if e in before.events {
      KeyedEventsComeFromCommits(steps[..n], e);
      var j :| 0 <= j < n && steps[..n][j].call.Commit? && steps[..n][j].call.key == e.key.value
               && steps[..n][j].call.credential == e.credential;
      assert steps[j] == steps[..n][j];
    } else {
      assert steps[n].call.Commit? && steps[n].call.key == e.key.value && steps[n].call.credential == e.credential;
    }
  }

  /** Revocation is permanent: the credential of a denied decision is still revoked. */
  lemma DeniedStaysRevoked(t: Container.Tables, k: Key)
    requires Container.Inv(t) && k in t.decisions && k !in t.effects
    ensures var c := t.decisions[k].credential;
            c in t.credentials && t.credentials[c].status == Revoked
  {
    assert Container.DecisionRow(t, k);
    var i, c := t.decisions[k].event - 1, t.decisions[k].credential;
    assert LawfulEvent(t.events, i);
    assert RevokedBefore(t.events, c, i);
    var j :| 0 <= j < i && t.events[j].operation == RevokeOp && t.events[j].credential == c;
    assert RevokedBefore(t.events, c, |t.events|);
    RevokedIsKnown(t.credentials, t.events, c);
  }

  /** The credential of a decision comes from an earlier commit of its key. */
  lemma DecisionHasCommit(steps: seq<Step>, k: Key) returns (j: nat)
    requires k in Both(steps).container.decisions && Container.Inv(Both(steps).container)
    ensures j < |steps| && steps[j].call.Commit? && steps[j].call.key == k
    ensures steps[j].call.credential == Both(steps).container.decisions[k].credential
  {
    var t := Both(steps).container;
    assert Container.DecisionRow(t, k);
    var e := t.events[t.decisions[k].event - 1];
    KeyedEventsComeFromCommits(steps, e);
    j :| 0 <= j < |steps| && steps[j].call.Commit? && steps[j].call.key == k && steps[j].call.credential == e.credential;
  }

  /** The credential of a denied decision is revoked by now. */
  lemma DenialHasCommit(steps: seq<Step>, k: Key) returns (j: nat)
    requires k in Both(steps).container.decisions && k !in Both(steps).container.effects
    ensures j < |steps| && steps[j].call.Commit? && steps[j].call.key == k
    ensures var t, c := Both(steps).container, steps[j].call.credential;
            c in t.credentials && t.credentials[c].status == Revoked
  {
    ForgettingOnlyAdds(steps);
    DeniedStaysRevoked(Both(steps).container, k);
    j := DecisionHasCommit(steps, k);
  }

  lemma GuardedCallIsSafe(steps: seq<Step>, i: nat)
    requires AllGuarded(steps) && KeyDeterminesCredential(steps) && i < |steps|
    ensures SafeAt(steps, i)
  {
    var t, call := Both(steps[..i]).container, steps[i].call;
    if call.Commit? && call.key in t.decisions && call.key !in t.effects {
      var j := DenialHasCommit(steps[..i], call.key);
      assert steps[..i][j] == steps[j];
      assert steps[i] in steps && steps[j] in steps;
    }
  }

  /** Guarded commits whose key determines the credential never retry unsafely. */
  lemma GuardedRunsAgree(steps: seq<Step>)
    requires AllGuarded(steps) && KeyDeterminesCredential(steps)
    ensures AgreeThroughout(steps)
    ensures Both(steps).container.credentials == Both(steps).distributed.credentials
    ensures Both(steps).container.effects.Keys == Both(steps).distributed.effects.Keys
  {
    forall i: nat | i < |steps|
      ensures SafeAt(steps, i)
    {
      GuardedCallIsSafe(steps, i);
    }
    SimulationExact(steps);
  }

  /** Without the guard they differ: an unguarded retry after a denial commits in one store only. */
  lemma UnguardedRetryDiverges(instance: string, pid: int, c: CredentialId, k: Key)
    ensures var steps := [Step(instance, pid, Initialize(c)), Step(instance, pid, Revoke(c)),
                          Step(instance, pid, Commit(c, k, true)), Step(instance, pid, Commit(c, k, false))];
            && !AgreeThroughout(steps)
            && k !in Both(steps).container.effects
            && k in Both(steps).distributed.effects
  {
    var steps := [Step(instance, pid, Initialize(c)), Step(instance, pid, Revoke(c)),
                  Step(instance, pid, Commit(c, k, true)), Step(instance, pid, Commit(c, k, false))];
    assert steps[..4] == steps;
    Unrolled(steps, 0);
    Unrolled(steps, 1);
    Unrolled(steps, 2);
    Unrolled(steps, 3);
    assert !SafeAt(steps, 3);
    SimulationExact(steps);
  }

  lemma Unrolled(steps: seq<Step>, n: nat)
    requires n < |steps|
    ensures Both(steps[..n + 1]) == Next(Both(steps[..n]), steps[n])
  {
    assert steps[..n + 1][..n] == steps[..n];
  }
}
