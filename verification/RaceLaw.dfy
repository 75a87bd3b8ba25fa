/** A client that reads a credential's status and then commits, racing everyone else, on any store with three laws. */
module RaceLaw {
  import opened Wrappers
  import opened RevocationTables

  /** What an answer tells the client: the status it was given at, and for a commit the verdict. */
  datatype Seen = Seen(status: Status, committed: Option<bool>)

  /** What a durable store's reply tells; None when the call raises. */
  function SeenIn(reply: Reply): Option<Seen> {
    match reply
    case Recorded(e) => Some(Seen(e.status, None))
    case Decided(e, _, _) => Some(Seen(e.status, e.committed))
    case _ => None
  }

  datatype Result = Result(accepted: bool, oracleAccept: bool, falseAllow: bool, falseDeny: bool)

  /** The verdict against the status at the effect, or at the last read when no effect was attempted. */
  function Finalize(trace: seq<Seen>, effect: Option<Seen>): Result {
    var accepted := effect.Some? && effect.value.committed == Some(true);
    var oracle :=
      if effect.Some? then effect.value.status == Active
      else trace != [] && trace[|trace| - 1].status == Active;
    Result(accepted, oracle, accepted && !oracle, !accepted && oracle)
  }

  /**
   * A store as the client meets it: `others` is what everybody else does in between, `read` and `commit` are the
   * client's own calls on its credential and key. None is an answer that raises. A client that heeds its reads stops
   * at a revoked answer; one that does not goes on.
   */
  datatype Lab<!S, !O> = Lab(others: (S, O) -> S, read: S -> (S, Option<Seen>), commit: S -> (S, Option<Seen>),
                             heeds: bool)

  datatype Progress = Going | Stopped | Raised

  /** How far the client's reads got. */
  datatype Phase<S> = Phase(state: S, trace: seq<Seen>, progress: Progress)

  /** One read per round, each after whatever the others do in that round. */
  function Reads<S, O>(lab: Lab<S, O>, s: S, rounds: seq<O>): Phase<S> {
    if rounds == [] then Phase(s, [], Going)
    else ReadOnce(lab, Reads(lab, s, rounds[..|rounds| - 1]), rounds[|rounds| - 1])
  }

  function ReadOnce<S, O>(lab: Lab<S, O>, p: Phase<S>, o: O): Phase<S> {
    if !p.progress.Going? then p
    else
      var (s', seen) := lab.read(lab.others(p.state, o));
      match seen
      case None => Phase(s', p.trace, Raised)
      case Some(news) => Phase(s', p.trace + [news], if lab.heeds && news.status == Revoked then Stopped else Going)
  }

  /** The whole case: the reads, then the others once more, then the commit. None is a case that raised. */
  function Execute<S, O>(lab: Lab<S, O>, s: S, rounds: seq<O>, last: O): (S, Option<Result>) {
    var p := Reads(lab, s, rounds);
    match p.progress
    case Stopped => (p.state, Some(Finalize(p.trace, None)))
    case Raised => (p.state, None)
    case Going =>
      var (s', seen) := lab.commit(lab.others(p.state, last));
      if seen.Some? then (s', Some(Finalize(p.trace + [seen.value], seen))) else (s', None)
  }

  lemma {:induction false} StaysStopped<S, O>(lab: Lab<S, O>, s: S, rounds: seq<O>, i: nat)
    requires i <= |rounds| && !Reads(lab, s, rounds[..i]).progress.Going?
    ensures Reads(lab, s, rounds) == Reads(lab, s, rounds[..i])
    decreases |rounds|
  {
    if i == |rounds| {
      assert rounds[..i] == rounds;
    } else {
      assert rounds[..|rounds| - 1][..i] == rounds[..i];
      StaysStopped(lab, s, rounds[..|rounds| - 1], i);
    }
  }

  /**
   * The facts of a case: in which states the client's credential is known and its commit still open, when the
   * credential is active, which rounds of the others leave the client's commit alone, which revoke, and which leave
   * the credential active whatever it was. A lossy client loses the first response and commits again, raising when
   * nothing was durably committed.
   */
  datatype Facts<!S, !O> = Facts(ready: S -> bool, live: S -> bool, fair: O -> bool, revokes: O -> bool,
                                 revives: O -> bool, guarded: bool, lossy: bool)

  predicate Survives<S, O>(f: Facts<S, O>, live: bool, o: O) {
    f.revives(o) || (live && !f.revokes(o))
  }

  ghost predicate OthersLaw<S(!new), O(!new)>(lab: Lab<S, O>, f: Facts<S, O>) {
    forall s, o :: f.ready(s) && f.fair(o) ==>
                     f.ready(lab.others(s, o)) && (f.live(lab.others(s, o)) <==> Survives(f, f.live(s), o))
  }

  ghost predicate ReadLaw<S(!new), O(!new)>(lab: Lab<S, O>, f: Facts<S, O>) {
    forall s :: f.ready(s) ==> ReadsWell(lab, f, s)
  }

  predicate ReadsWell<S, O>(lab: Lab<S, O>, f: Facts<S, O>, s: S) {
    var (s', seen) := lab.read(s);
    && f.ready(s') && (f.live(s') <==> f.live(s))
    && seen.Some? && (seen.value.status == Active <==> f.live(s))
  }

  ghost predicate CommitLaw<S(!new), O(!new)>(lab: Lab<S, O>, f: Facts<S, O>) {
    forall s :: f.ready(s) ==> CommitsWell(lab, f, s)
  }

  predicate CommitsWell<S, O>(lab: Lab<S, O>, f: Facts<S, O>, s: S) {
    var seen := lab.commit(s).1;
    if f.lossy && f.guarded && !f.live(s) then seen == None
    else
      && seen.Some? && (seen.value.status == Active <==> f.live(s))
      && seen.value.committed == Some(f.guarded ==> f.live(s))
  }

  ghost predicate Lawful<S(!new), O(!new)>(lab: Lab<S, O>, f: Facts<S, O>) {
    OthersLaw(lab, f) && ReadLaw(lab, f) && CommitLaw(lab, f)
  }

  predicate FairIn<S, O>(f: Facts<S, O>, rounds: seq<O>) {
    forall i :: 0 <= i < |rounds| ==> f.fair(rounds[i])
  }

  // ---------------------------------------------------------------- what the rounds of the others do

  /** Whether the credential is active after the rounds. */
  predicate LiveAfter<S, O>(f: Facts<S, O>, s: S, rounds: seq<O>) {
    if rounds == [] then f.live(s) else Survives(f, LiveAfter(f, s, rounds[..|rounds| - 1]), rounds[|rounds| - 1])
  }

  /** It is active at every read. */
  predicate LiveThroughout<S, O>(f: Facts<S, O>, s: S, rounds: seq<O>) {
    rounds != [] ==> LiveThroughout(f, s, rounds[..|rounds| - 1]) && LiveAfter(f, s, rounds)
  }

  predicate RevokedIn<S, O>(f: Facts<S, O>, rounds: seq<O>) {
    exists i :: 0 <= i < |rounds| && f.revokes(rounds[i])
  }

  predicate NeverRevives<S, O>(f: Facts<S, O>, rounds: seq<O>) {
    forall i :: 0 <= i < |rounds| ==> !f.revives(rounds[i])
  }

  lemma LiveAfterMore<S, O>(f: Facts<S, O>, s: S, rounds: seq<O>, last: O)
    ensures LiveAfter(f, s, rounds + [last]) == Survives(f, LiveAfter(f, s, rounds), last)
  {
    assert (rounds + [last])[..|rounds|] == rounds;
  }

  lemma RevokedSplit<S, O>(f: Facts<S, O>, rounds: seq<O>)
    requires rounds != []
    ensures var n := |rounds| - 1;
            RevokedIn(f, rounds) <==> RevokedIn(f, rounds[..n]) || f.revokes(rounds[n])
  {
    var n := |rounds| - 1;
    assert forall i :: 0 <= i < n ==> rounds[..n][i] == rounds[i];
    if RevokedIn(f, rounds[..n]) {
      var i :| 0 <= i < n && f.revokes(rounds[..n][i]);
      assert f.revokes(rounds[i]);
    }
  }

  /** Where nothing revives the credential, it is active as long as it was and nobody revoked it. */
  lemma {:induction false} WithoutRevival<S, O>(f: Facts<S, O>, s: S, rounds: seq<O>)
    requires NeverRevives(f, rounds)
    ensures LiveAfter(f, s, rounds) <==> f.live(s) && !RevokedIn(f, rounds)
    ensures LiveThroughout(f, s, rounds) <==> rounds == [] || (f.live(s) && !RevokedIn(f, rounds))
  {
    if rounds != [] {
      WithoutRevival(f, s, rounds[..|rounds| - 1]);
      RevokedSplit(f, rounds);
    }
  }

  // ---------------------------------------------------------------- the race

  /** A client that does not heed its reads always reaches the commit, another one when every read finds it active. */
  predicate Reaches<S, O>(lab: Lab<S, O>, f: Facts<S, O>, s: S, rounds: seq<O>) {
    lab.heeds ==> LiveThroughout(f, s, rounds)
  }

  /** What the client's reads establish. */
  predicate ReadSoFar<S, O>(lab: Lab<S, O>, f: Facts<S, O>, s: S, rounds: seq<O>) {
    var p, reaches := Reads(lab, s, rounds), Reaches(lab, f, s, rounds);
    && f.ready(p.state)
    && p.progress == (if reaches then Going else Stopped)
    && (reaches ==> (f.live(p.state) <==> LiveAfter(f, s, rounds)))
    && (!reaches ==> p.trace != [] && p.trace[|p.trace| - 1].status == Revoked)
  }

  /** One more read after which the credential is `live`. */
  predicate ReadAgain<S, O>(lab: Lab<S, O>, f: Facts<S, O>, p: Phase<S>, live: bool) {
    && f.ready(p.state) && (f.live(p.state) <==> live)
    && p.progress == (if lab.heeds && !live then Stopped else Going)
    && p.trace != [] && (p.trace[|p.trace| - 1].status == Active <==> live)
  }

  lemma ReadIsAgain<S, O>(lab: Lab<S, O>, f: Facts<S, O>, p: Phase<S>, o: O)
    requires p.progress.Going? && ReadsWell(lab, f, lab.others(p.state, o))
    ensures ReadAgain(lab, f, ReadOnce(lab, p, o), f.live(lab.others(p.state, o)))
  {}

  lemma LiveBetween<S(!new), O(!new)>(lab: Lab<S, O>, f: Facts<S, O>, s: S, o: O)
    requires OthersLaw(lab, f) && f.ready(s) && f.fair(o)
    ensures f.ready(lab.others(s, o)) && (f.live(lab.others(s, o)) <==> Survives(f, f.live(s), o))
  {}

  lemma OneMoreRead<S(!new), O(!new)>(lab: Lab<S, O>, f: Facts<S, O>, p: Phase<S>, o: O)
    requires OthersLaw(lab, f) && ReadLaw(lab, f) && f.ready(p.state) && f.fair(o) && p.progress.Going?
    ensures ReadAgain(lab, f, ReadOnce(lab, p, o), Survives(f, f.live(p.state), o))
  {
    LiveBetween(lab, f, p.state, o);
    ReadIsAgain(lab, f, p, o);
  }

  lemma ReadSoFarGrows<S, O>(lab: Lab<S, O>, f: Facts<S, O>, s: S, rounds: seq<O>)
    requires rounds != [] && ReadSoFar(lab, f, s, rounds[..|rounds| - 1])
    requires var (front, last) := (rounds[..|rounds| - 1], rounds[|rounds| - 1]);
             Reaches(lab, f, s, front) ==>
               ReadAgain(lab, f, ReadOnce(lab, Reads(lab, s, front), last), Survives(f, LiveAfter(f, s, front), last))
    ensures ReadSoFar(lab, f, s, rounds)
  {}

  /** The reads stop a heeding client exactly when one of them finds the credential revoked, and no other client. */
  lemma {:induction false} ReadsObserve<S(!new), O(!new)>(lab: Lab<S, O>, f: Facts<S, O>, s: S, rounds: seq<O>)
    requires OthersLaw(lab, f) && ReadLaw(lab, f) && f.ready(s) && FairIn(f, rounds)
    ensures ReadSoFar(lab, f, s, rounds)
  {
    if rounds != [] {
      var n := |rounds| - 1;
      assert f.fair(rounds[n]);
      ReadsObserve(lab, f, s, rounds[..n]);
      if Reaches(lab, f, s, rounds[..n]) {
        OneMoreRead(lab, f, Reads(lab, s, rounds[..n]), rounds[n]);
      }
      ReadSoFarGrows(lab, f, s, rounds);
    }
  }

  /** How a case ends, given whether the client reaches its commit and whether the credential is active there. */
  predicate EndsAs(result: Option<Result>, reaches: bool, atCommit: bool, guarded: bool, lossy: bool) {
    && (result == None <==> lossy && guarded && reaches && !atCommit)
    && (result.Some? ==>
          && !result.value.falseDeny && (result.value.oracleAccept <==> reaches && atCommit)
          && (result.value.falseAllow <==> reaches && !guarded && !atCommit)
          && (result.value.accepted <==> reaches && (guarded ==> atCommit)))
  }

  lemma CommitEnds<S, O>(lab: Lab<S, O>, f: Facts<S, O>, s: S, rounds: seq<O>, last: O, atCommit: bool)
    requires ReadSoFar(lab, f, s, rounds)
    requires var between := lab.others(Reads(lab, s, rounds).state, last);
             Reaches(lab, f, s, rounds) ==> CommitsWell(lab, f, between) && (f.live(between) <==> atCommit)
    ensures EndsAs(Execute(lab, s, rounds, last).1, Reaches(lab, f, s, rounds), atCommit, f.guarded, f.lossy)
  {}

  /**
   * The race, exactly: with any number of reads before the commit and any interleaving of the others, there is a
   * false allow iff the client reaches an unguarded commit at which the credential is revoked. There is never a false
   * deny. A lost response changes nothing, except that a retry after a denied commit raises.
   */
  lemma RaceExact<S(!new), O(!new)>(lab: Lab<S, O>, f: Facts<S, O>, s: S, rounds: seq<O>, last: O)
    requires Lawful(lab, f) && f.ready(s) && FairIn(f, rounds) && f.fair(last)
    ensures EndsAs(Execute(lab, s, rounds, last).1, Reaches(lab, f, s, rounds), LiveAfter(f, s, rounds + [last]),
                   f.guarded, f.lossy)
  {
    var p := Reads(lab, s, rounds);
    ReadsObserve(lab, f, s, rounds);
    LiveBetween(lab, f, p.state, last);
    LiveAfterMore(f, s, rounds, last);
    assert CommitsWell(lab, f, lab.others(p.state, last));
    CommitEnds(lab, f, s, rounds, last, LiveAfter(f, s, rounds + [last]));
  }

  /** The same where nothing revives the credential: in terms of who revokes when. */
  lemma RaceWithoutRevival<S(!new), O(!new)>(lab: Lab<S, O>, f: Facts<S, O>, s: S, rounds: seq<O>, last: O)
    requires Lawful(lab, f) && f.ready(s) && FairIn(f, rounds) && f.fair(last)
    requires NeverRevives(f, rounds) && !f.revives(last)
    ensures var live := f.live(s) && !RevokedIn(f, rounds);
            EndsAs(Execute(lab, s, rounds, last).1, lab.heeds && rounds != [] ==> live, live && !f.revokes(last),
                   f.guarded, f.lossy)
  {
    RaceExact(lab, f, s, rounds, last);
    WithoutRevival(f, s, rounds);
    LiveAfterMore(f, s, rounds, last);
  }

  // ---------------------------------------------------------------- what the case leaves behind

  /** The others' doings are sequences of calls, the client's read is one of them, and sequences run one after another. */
  ghost predicate Runs<S(!new), C(!new)>(lab: Lab<S, seq<C>>, read: C) {
    && (forall s :: lab.others(s, []) == s)
    && (forall s, a, b :: lab.others(lab.others(s, a), b) == lab.others(s, a + b))
    && (forall s :: lab.read(s).0 == lab.others(s, [read]))
  }

  /** All calls of the rounds, one read after each. */
  function WithReads<C>(rounds: seq<seq<C>>, read: C): seq<C> {
    if rounds == [] then [] else WithReads(rounds[..|rounds| - 1], read) + rounds[|rounds| - 1] + [read]
  }

  /** The m-th read is the first to find the credential revoked, and the state is the one after it. */
  ghost predicate StopsAt<S, C>(lab: Lab<S, seq<C>>, f: Facts<S, seq<C>>, s: S, rounds: seq<seq<C>>, read: C, end: S,
                                m: nat) {
    && 0 < m <= |rounds| && LiveThroughout(f, s, rounds[..m - 1]) && !LiveAfter(f, s, rounds[..m])
    && end == lab.others(s, WithReads(rounds[..m], read))
  }

  lemma OneMoreRun<S(!new), C(!new)>(lab: Lab<S, seq<C>>, s: S, rounds: seq<seq<C>>, read: C)
    requires Runs(lab, read) && rounds != []
    requires var front := rounds[..|rounds| - 1];
             Reads(lab, s, front).progress.Going? && Reads(lab, s, front).state == lab.others(s, WithReads(front, read))
    ensures Reads(lab, s, rounds).state == lab.others(s, WithReads(rounds, read))
  {
    var front, last := rounds[..|rounds| - 1], rounds[|rounds| - 1];
    var before := lab.others(s, WithReads(front, read));
    assert lab.others(before, last) == lab.others(s, WithReads(front, read) + last);
    assert lab.read(lab.others(before, last)).0 == lab.others(lab.others(before, last), [read]);
  }

  /** The state after the reads is the one after their calls. */
  ghost predicate RunSoFar<S, C>(lab: Lab<S, seq<C>>, f: Facts<S, seq<C>>, s: S, rounds: seq<seq<C>>, read: C) {
    if Reaches(lab, f, s, rounds) then Reads(lab, s, rounds).state == lab.others(s, WithReads(rounds, read))
    else exists m: nat :: StopsAt(lab, f, s, rounds, read, Reads(lab, s, rounds).state, m)
  }

  lemma StoppedLongAgo<S, C>(lab: Lab<S, seq<C>>, f: Facts<S, seq<C>>, s: S, rounds: seq<seq<C>>, read: C)
    requires rounds != [] && !Reaches(lab, f, s, rounds[..|rounds| - 1])
    requires ReadSoFar(lab, f, s, rounds[..|rounds| - 1]) && RunSoFar(lab, f, s, rounds[..|rounds| - 1], read)
    ensures RunSoFar(lab, f, s, rounds, read)
  {
    var front, end := rounds[..|rounds| - 1], Reads(lab, s, rounds).state;
    var m: nat :| StopsAt(lab, f, s, front, read, Reads(lab, s, front).state, m);
    assert front[..m] == rounds[..m] && front[..m - 1] == rounds[..m - 1];
    assert StopsAt(lab, f, s, rounds, read, end, m);
  }

  lemma StopsNow<S, C>(lab: Lab<S, seq<C>>, f: Facts<S, seq<C>>, s: S, rounds: seq<seq<C>>, read: C)
    requires rounds != [] && Reaches(lab, f, s, rounds[..|rounds| - 1])
    requires Reads(lab, s, rounds).state == lab.others(s, WithReads(rounds, read))
    ensures RunSoFar(lab, f, s, rounds, read)
  {
    assert rounds[..|rounds|] == rounds;
    assert !Reaches(lab, f, s, rounds) ==>
        StopsAt(lab, f, s, rounds, read, Reads(lab, s, rounds).state, |rounds|);
  }

  lemma {:induction false} ReadsAreRun<S(!new), C(!new)>(lab: Lab<S, seq<C>>, f: Facts<S, seq<C>>, s: S,
                                                         rounds: seq<seq<C>>, read: C)
    requires OthersLaw(lab, f) && ReadLaw(lab, f) && Runs(lab, read) && f.ready(s) && FairIn(f, rounds)
    ensures RunSoFar(lab, f, s, rounds, read)
  {
    if rounds != [] {
      var front := rounds[..|rounds| - 1];
      ReadsAreRun(lab, f, s, front, read);
      ReadsObserve(lab, f, s, front);
      if Reaches(lab, f, s, front) {
        OneMoreRun(lab, s, rounds, read);
        StopsNow(lab, f, s, rounds, read);
      } else {
        StoppedLongAgo(lab, f, s, rounds, read);
      }
    }
  }

  /**
   * What the case leaves: the others' rounds with one read each, then, when the client reaches it, its commit. A
   * stopped client leaves the rounds up to its first revoked read and nothing more.
   */
  lemma CaseIsRun<S(!new), C(!new)>(lab: Lab<S, seq<C>>, f: Facts<S, seq<C>>, s: S, rounds: seq<seq<C>>, last: seq<C>,
                                    read: C)
    requires Lawful(lab, f) && Runs(lab, read) && f.ready(s) && FairIn(f, rounds) && f.fair(last)
    ensures var end := Execute(lab, s, rounds, last).0;
            if Reaches(lab, f, s, rounds)
            then end == lab.commit(lab.others(s, WithReads(rounds, read) + last)).0
            else exists m: nat :: StopsAt(lab, f, s, rounds, read, end, m)
  {
    ReadsAreRun(lab, f, s, rounds, read);
    ReadsObserve(lab, f, s, rounds);
    assert lab.others(lab.others(s, WithReads(rounds, read)), last) == lab.others(s, WithReads(rounds, read) + last);
  }

  /** The state before the commit of a client that reaches it, and the last state of one that does not. */
  lemma CaseEndsReady<S(!new), O(!new)>(lab: Lab<S, O>, f: Facts<S, O>, s: S, rounds: seq<O>, last: O)
    requires Lawful(lab, f) && f.ready(s) && FairIn(f, rounds) && f.fair(last)
    ensures var p, end := Reads(lab, s, rounds), Execute(lab, s, rounds, last).0;
            var between := lab.others(p.state, last);
            if Reaches(lab, f, s, rounds)
            then end == lab.commit(between).0 && f.ready(between)
                 && (f.live(between) <==> LiveAfter(f, s, rounds + [last]))
            else end == p.state && f.ready(end)
  {
    ReadsObserve(lab, f, s, rounds);
    LiveBetween(lab, f, Reads(lab, s, rounds).state, last);
    LiveAfterMore(f, s, rounds, last);
  }

  // ---------------------------------------------------------------- however many reads

  predicate FalselyAllowed(result: Option<Result>) {
    result.Some? && result.value.falseAllow
  }

  /** Some schedule with that many reads gives the client a false allow. */
  ghost predicate FooledAfter<S(!new), O(!new)>(lab: Lab<S, O>, s: S, count: nat) {
    exists rounds, last :: |rounds| == count && FalselyAllowed(Execute(lab, s, rounds, last).1)
  }

  lemma {:induction false} QuietRounds<S, O>(f: Facts<S, O>, s: S, quiet: O, rounds: seq<O>)
    requires f.live(s) && Survives(f, true, quiet) && forall i :: 0 <= i < |rounds| ==> rounds[i] == quiet
    ensures LiveAfter(f, s, rounds) && LiveThroughout(f, s, rounds)
  {
    if rounds != [] {
      QuietRounds(f, s, quiet, rounds[..|rounds| - 1]);
    }
  }

  /**
   * No number of reads protects an unguarded client whose credential is live: quiet rounds before every read, and a
   * revoking one before the commit, fool it.
   */
  lemma EveryReadCountIsFooled<S(!new), O(!new)>(lab: Lab<S, O>, f: Facts<S, O>, s: S, quiet: O, revoking: O, count: nat)
    requires Lawful(lab, f) && f.ready(s) && f.live(s) && !f.guarded
    requires f.fair(quiet) && f.fair(revoking) && Survives(f, true, quiet) && !Survives(f, true, revoking)
    ensures FooledAfter(lab, s, count)
  {
    var rounds := seq(count, _ => quiet);
    QuietRounds(f, s, quiet, rounds);
    RaceExact(lab, f, s, rounds, revoking);
    LiveAfterMore(f, s, rounds, revoking);
    assert FalselyAllowed(Execute(lab, s, rounds, revoking).1);
  }
}
