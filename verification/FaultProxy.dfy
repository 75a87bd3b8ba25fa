/** Lost requests and responses between clients and the container store. */
module FaultProxy {
  import opened Wrappers
  import opened RevocationTables
  import opened ContainerStore

  datatype Fault = NoFault | DropBeforeForward | DropAfterForward

  /** How a message travels: straight to an instance, or through the proxy in front of an effect instance. */
  datatype Route = Direct | Proxied(fault: Fault)

  datatype Message = Message(instance: string, call: Call, route: Route)

  /** `BadGateway` is the proxy's answer when its upstream request fails. */
  datatype Observation = Disconnected | BadGateway | Response(reply: Reply)

  function Deliver(t: Tables, m: Message): (Tables, Observation) {
    match m.route
    case Direct =>
      var (t', reply) := Apply(t, m.instance, m.call);
      (t', Response(reply))
    case Proxied(fault) =>
      if fault == DropBeforeForward then (t, Disconnected)
      else
        var (t', seen) := Upstream(t, m.instance, m.call);
        (t', if fault == DropAfterForward then Disconnected else seen)
  }

  /** The effect service answers only commits; any other path is 404, and any failure becomes a 502. */
  function Upstream(t: Tables, instance: string, call: Call): (Tables, Observation) {
    if !call.Commit? then (t, BadGateway)
    else
      var (t', reply) := Apply(t, instance, call);
      (t', if reply.Decided? then Response(reply) else BadGateway)
  }

  /** The proxy, in front of one effect instance. */
  class Proxy {
    const upstream: Store

    constructor (upstream: Store)
      ensures this.upstream == upstream
    {
      this.upstream := upstream;
    }

    method Forward(call: Call, fault: Fault) returns (seen: Observation)
      modifies upstream.database
      ensures (upstream.database.Snapshot(), seen) ==
              Deliver(old(upstream.database.Snapshot()), Message(upstream.instanceId, call, Proxied(fault)))
    {
      if fault == DropBeforeForward {
        return Disconnected;
      }
      var body := BadGateway;
      if call.Commit? {
        var reply := upstream.Commit(call.credential, call.key, call.guarded);
        if reply.Decided? {
          body := Response(reply);
        }
      }
      if fault == DropAfterForward {
        return Disconnected;
      }
      seen := body;
    }
  }

  function After(t: Tables, messages: seq<Message>): Tables {
    if messages == [] then t
    else Deliver(After(t, messages[..|messages| - 1]), messages[|messages| - 1]).0
  }

  function Seen(t: Tables, messages: seq<Message>, i: nat): Observation
    requires i < |messages|
  {
    Deliver(After(t, messages[..i]), messages[i]).1
  }

  // ---------------------------------------------------------------- what persists

  /** Nothing recorded is ever lost or rewritten. */
  ghost predicate Grows(t: Tables, t': Tables) {
    && t.events <= t'.events
    && (forall k :: k in t.decisions ==> k in t'.decisions && t'.decisions[k] == t.decisions[k])
    && (forall k :: k in t.decisions ==> (k in t'.effects <==> k in t.effects))
  }

  lemma StatusCallGrows(t: Tables, instance: string, call: Call)
    requires !call.Commit?
    ensures Grows(t, Apply(t, instance, call).0)
  {}

  lemma CommitGrows(t: Tables, instance: string, call: Call)
    requires Inv(t) && call.Commit?
    ensures Grows(t, Apply(t, instance, call).0)
  {
    var t' := Apply(t, instance, call).0;
    PriorIsDecision(t, call.key);
    assert forall k :: k in t.decisions ==> k in t'.decisions && t'.decisions[k] == t.decisions[k];
    assert forall k :: k != call.key ==> (k in t'.effects <==> k in t.effects);
  }

  lemma ApplyGrows(t: Tables, instance: string, call: Call)
    requires Inv(t)
    ensures Inv(Apply(t, instance, call).0)
    ensures Grows(t, Apply(t, instance, call).0)
  {
    ApplyKeepsInv(t, instance, call);
    if call.Commit? {
      CommitGrows(t, instance, call);
    } else {
      StatusCallGrows(t, instance, call);
    }
  }

  lemma DeliverGrows(t: Tables, m: Message)
    requires Inv(t)
    ensures Inv(Deliver(t, m).0)
    ensures Grows(t, Deliver(t, m).0)
  {
    ApplyGrows(t, m.instance, m.call);
    assert Deliver(t, m).0 == t || Deliver(t, m).0 == Apply(t, m.instance, m.call).0;
  }

  lemma {:induction false} AfterGrows(t: Tables, messages: seq<Message>, i: nat)
    requires Inv(t) && i <= |messages|
    ensures Inv(After(t, messages[..i])) && Inv(After(t, messages))
    ensures Grows(After(t, messages[..i]), After(t, messages))
    decreases |messages|
  {
    if messages == [] {
    } else {
      var before := messages[..|messages| - 1];
      if i == |messages| {
        assert messages[..i] == messages;
        AfterGrows(t, before, 0);
        DeliverGrows(After(t, before), messages[|messages| - 1]);
      } else {
        AfterGrows(t, before, i);
        assert before[..i] == messages[..i];
        DeliverGrows(After(t, before), messages[|messages| - 1]);
      }
    }
  }

  // ---------------------------------------------------------------- at most one decision

  /** A message that decides the key: its commit reaches the store and finds its credential there. */
  predicate Deciding(t: Tables, m: Message, k: Key) {
    && m.call.Commit? && m.call.key == k
    && m.route != Proxied(DropBeforeForward)
    && m.call.credential in t.credentials
  }

  ghost predicate Decides(t: Tables, messages: seq<Message>, j: nat, k: Key)
    requires j < |messages|
  {
    Deciding(After(t, messages[..j]), messages[j], k)
  }

  /** Some attempt among the first n messages decided the key. */
  ghost predicate DecidedWithin(t: Tables, messages: seq<Message>, n: nat, k: Key)
    requires n <= |messages|
  {
    exists j: nat :: j < n && Decides(t, messages, j, k)
  }

  lemma DecidedInPrefix(t: Tables, messages: seq<Message>, n: nat, k: Key)
    requires n <= |messages|
    ensures DecidedWithin(t, messages[..n], n, k) == DecidedWithin(t, messages, n, k)
  {
    forall j: nat | j < n
      ensures Decides(t, messages[..n], j, k) == Decides(t, messages, j, k)
    {
      assert messages[..n][..j] == messages[..j];
    }
  }

  lemma DeliveryDecides(t: Tables, m: Message, k: Key)
    requires Inv(t)
    ensures k in Deliver(t, m).0.decisions <==> k in t.decisions || Deciding(t, m, k)
  {
    if m.call.Commit? {
      PriorIsDecision(t, m.call.key);
      assert m.call.key !in t.decisions ==> m.call.key !in t.effects;
    }
  }

  lemma {:induction false} DecidedExactlyBy(t: Tables, messages: seq<Message>, k: Key)
    requires Inv(t) && k !in t.decisions
    ensures k in After(t, messages).decisions <==> DecidedWithin(t, messages, |messages|, k)
  {
    if messages != [] {
      var n := |messages| - 1;
      DecidedExactlyBy(t, messages[..n], k);
      AfterGrows(t, messages, n);
      DeliveryDecides(After(t, messages[..n]), messages[n], k);
      DecidedInPrefix(t, messages, n, k);
      if DecidedWithin(t, messages, n, k) {
        var j: nat :| j < n && Decides(t, messages, j, k);
        assert DecidedWithin(t, messages, n + 1, k);
      }
      assert Decides(t, messages, n, k) == Deciding(After(t, messages[..n]), messages[n], k);
    }
  }

  /** In a lawful state the key is on at most one event, and that event tells whether the effect exists. */
  lemma KeyedEventIsUnique(t: Tables, k: Key)
    requires Inv(t)
    ensures var log := t.events;
            forall i: nat, j: nat :: i < |log| && j < |log| && log[i].key == Some(k) && log[j].key == Some(k) ==> i == j
    ensures k in t.decisions <==> exists i: nat :: i < |t.events| && t.events[i].key == Some(k)
    ensures k in t.effects <==>
            exists i: nat :: i < |t.events| && t.events[i].key == Some(k) && t.events[i].committed == Some(true)
  {
    assert forall i: nat :: i < |t.events| && t.events[i].key == Some(k) ==> KeyedEvent(t, i);
    if k in t.decisions {
      assert DecisionRow(t, k);
      var i := t.decisions[k].event - 1;
      assert t.events[i].key == Some(k);
      assert k in t.effects <==> t.events[i].committed == Some(true);
    }
  }

  /**
   * Lost messages never duplicate an effect. However the attempts of a key are dropped, delivered, spread
   * over instances and interleaved with other traffic, one event carries the key exactly when some attempt
   * reached the store, and the effect exists exactly when that event committed.
   */
  lemma AtMostOneDecision(t: Tables, messages: seq<Message>, k: Key)
    requires Inv(t) && k !in t.decisions
    ensures var log := After(t, messages).events;
            forall i: nat, j: nat :: i < |log| && j < |log| && log[i].key == Some(k) && log[j].key == Some(k) ==> i == j
    ensures var log := After(t, messages).events;
            (exists i: nat :: i < |log| && log[i].key == Some(k)) <==> DecidedWithin(t, messages, |messages|, k)
    ensures var end := After(t, messages);
            k in end.effects <==> exists i: nat :: i < |end.events| && end.events[i].key == Some(k)
                                                   && end.events[i].committed == Some(true)
  {
    AfterGrows(t, messages, 0);
    DecidedExactlyBy(t, messages, k);
    KeyedEventIsUnique(After(t, messages), k);
  }

  /** The event on record as the decision of a key. */
  ghost predicate OnRecord(t: Tables, k: Key, e: Event) {
    k in t.decisions && 1 <= t.decisions[k].event <= |t.events| && e == t.events[t.decisions[k].event - 1]
  }

  lemma ReplayIsOnRecord(t: Tables, instance: string, call: Call)
    requires Inv(t) && call.Commit? && call.key in t.decisions
    ensures var (t', reply) := Apply(t, instance, call);
            && t' == t && reply.Decided? && reply.replay && OnRecord(t, call.key, reply.event)
            && reply.servedBy == Instance(instance)
  {
    PriorIsDecision(t, call.key);
    assert DecisionRow(t, call.key);
  }

  lemma FreshIsOnRecord(t: Tables, instance: string, call: Call)
    requires Inv(t) && call.Commit? && call.key !in t.decisions && Apply(t, instance, call).1.Decided?
    ensures var (t', reply) := Apply(t, instance, call);
            !reply.replay && OnRecord(t', call.key, reply.event) && reply.servedBy == Instance(instance)
  {
    PriorIsDecision(t, call.key);
  }

  lemma ResponseIsOfApply(t: Tables, m: Message)
    requires m.call.Commit? && Deliver(t, m).1.Response? && Deliver(t, m).1.reply.Decided?
    ensures Apply(t, m.instance, m.call) == (Deliver(t, m).0, Deliver(t, m).1.reply)
  {}

  /** A decided answer is the decision now on record, marked a replay when it already was. */
  lemma AnswerIsOnRecord(t: Tables, m: Message)
    requires Inv(t) && m.call.Commit?
    requires Deliver(t, m).1.Response? && Deliver(t, m).1.reply.Decided?
    ensures var reply := Deliver(t, m).1.reply;
            && OnRecord(Deliver(t, m).0, m.call.key, reply.event)
            && reply.servedBy == Instance(m.instance)
            && (reply.replay <==> m.call.key in t.decisions)
  {
    ResponseIsOfApply(t, m);
    if m.call.key in t.decisions {
      ReplayIsOnRecord(t, m.instance, m.call);
    } else {
      FreshIsOnRecord(t, m.instance, m.call);
    }
  }

  lemma GrowthKeepsRecord(t: Tables, t': Tables, k: Key, e: Event)
    requires OnRecord(t, k, e) && Grows(t, t')
    ensures OnRecord(t', k, e)
  {}

  lemma RecordStands(t: Tables, messages: seq<Message>, i: nat, k: Key, e: Event)
    requires Inv(t) && i <= |messages| && OnRecord(After(t, messages[..i]), k, e)
    ensures OnRecord(After(t, messages), k, e)
  {
    AfterGrows(t, messages, i);
    GrowthKeepsRecord(After(t, messages[..i]), After(t, messages), k, e);
  }

  /**
   * Every delivered answer for a key is the one decision the final log holds, names the instance that served
   * it, and is marked a replay exactly when an earlier attempt reached the store.
   */
  lemma DeliveredAnswersAgree(t: Tables, messages: seq<Message>, i: nat)
    requires Inv(t) && i < |messages|
    requires messages[i].call.Commit? && messages[i].call.key !in t.decisions
    requires Seen(t, messages, i).Response? && Seen(t, messages, i).reply.Decided?
    ensures var k, reply := messages[i].call.key, Seen(t, messages, i).reply;
            && OnRecord(After(t, messages), k, reply.event)
            && reply.servedBy == Instance(messages[i].instance)
            && (reply.replay <==> DecidedWithin(t, messages, i, k))
  {
    var k, m := messages[i].call.key, messages[i];
    var before := After(t, messages[..i]);
    assert Inv(before) by {
      AfterGrows(t, messages, i);
    }
    AnswerIsOnRecord(before, m);
    assert k in before.decisions <==> DecidedWithin(t, messages, i, k) by {
      DecidedExactlyBy(t, messages[..i], k);
      DecidedInPrefix(t, messages, i, k);
    }
    assert After(t, messages[..i + 1]) == Deliver(before, m).0 by {
      assert messages[..i + 1][..i] == messages[..i];
    }
    RecordStands(t, messages, i + 1, k, Seen(t, messages, i).reply.event);
  }

  /** What a deciding message puts on record was logged by the instance it reached. */
  lemma DecidingOrigin(t: Tables, m: Message, k: Key)
    requires Inv(t) && Deciding(t, m, k) && k !in t.decisions
    ensures var t' := Deliver(t, m).0;
            k in t'.decisions && OnRecord(t', k, t'.events[|t.events|])
            && t'.events[|t.events|].origin == Instance(m.instance)
  {
    PriorIsDecision(t, k);
    assert k !in t.effects;
  }

  /** The first attempt that reaches the store puts its event on record. */
  lemma FirstAttempt(t: Tables, messages: seq<Message>, j: nat, k: Key) returns (e: Event)
    requires Inv(t) && j < |messages| && k !in t.decisions
    requires Decides(t, messages, j, k) && !DecidedWithin(t, messages, j, k)
    ensures OnRecord(After(t, messages[..j + 1]), k, e) && e.origin == Instance(messages[j].instance)
  {
    var before := After(t, messages[..j]);
    assert Inv(before) by {
      AfterGrows(t, messages, j);
    }
    assert k !in before.decisions by {
      DecidedExactlyBy(t, messages[..j], k);
      DecidedInPrefix(t, messages, j, k);
    }
    DecidingOrigin(before, messages[j], k);
    assert messages[..j + 1][..j] == messages[..j];
    e := Deliver(before, messages[j]).0.events[|before.events|];
  }

  /** The event on record names the instance of the first attempt that reached the store. */
  lemma OriginIsFirstAttempt(t: Tables, messages: seq<Message>, j: nat, k: Key, e: Event)
    requires Inv(t) && j < |messages| && k !in t.decisions
    requires Decides(t, messages, j, k) && !DecidedWithin(t, messages, j, k)
    requires OnRecord(After(t, messages), k, e)
    ensures e.origin == Instance(messages[j].instance)
  {
    var first := FirstAttempt(t, messages, j, k);
    RecordStands(t, messages, j + 1, k, first);
  }

  /** So every delivered answer for a key names that instance as the original one. */
  lemma DeliveredOrigin(t: Tables, messages: seq<Message>, i: nat, j: nat)
    requires Inv(t) && i < |messages| && j < |messages|
    requires messages[i].call.Commit? && messages[i].call.key !in t.decisions
    requires Seen(t, messages, i).Response? && Seen(t, messages, i).reply.Decided?
    requires Decides(t, messages, j, messages[i].call.key) && !DecidedWithin(t, messages, j, messages[i].call.key)
    ensures Seen(t, messages, i).reply.event.origin == Instance(messages[j].instance)
  {
    DeliveredAnswersAgree(t, messages, i);
    OriginIsFirstAttempt(t, messages, j, messages[i].call.key, Seen(t, messages, i).reply.event);
  }

  // ---------------------------------------------------------------- who hears what

  /** A message that reaches the store: the proxy passes on commits only, and drops some of them. */
  predicate Reaching(m: Message) {
    match m.route
    case Direct => true
    case Proxied(fault) => m.call.Commit? && fault != DropBeforeForward
  }

  /** The calls that reach the store, with the instances that serve them. */
  function Reached(messages: seq<Message>): seq<Served<string>> {
    if messages == [] then []
    else
      var last := messages[|messages| - 1];
      Reached(messages[..|messages| - 1]) + (if Reaching(last) then [Served(last.instance, last.call)] else [])
  }

  /** Whatever clients and proxy see, the store has served exactly the calls that reached it. */
  lemma {:induction false} StoreServesReached(t: Tables, messages: seq<Message>)
    ensures After(t, messages) == Run(t, Reached(messages))
  {
    if messages != [] {
      var front, last := messages[..|messages| - 1], messages[|messages| - 1];
      StoreServesReached(t, front);
      if Reaching(last) {
        assert Reached(messages)[..|Reached(front)|] == Reached(front);
      } else {
        assert Reached(messages) == Reached(front);
      }
    }
  }

  lemma CommitHeard(t: Tables, instance: string, call: Call)
    requires Inv(t) && call.Commit?
    ensures var (t', reply) := Apply(t, instance, call);
            && (reply.Decided? <==> call.key in t'.decisions)
            && (!reply.Decided? ==> reply == Unknown)
  {
    PriorIsDecision(t, call.key);
    assert call.key !in t.decisions ==> call.key !in t.effects;
  }

  /** What the client hears of a message, given the store after it. */
  predicate Hears(m: Message, seen: Observation, after: Tables) {
    && (seen == Disconnected <==> m.route.Proxied? && m.route.fault != NoFault)
    && (m.route == Proxied(NoFault) && !m.call.Commit? ==> seen == BadGateway)
    && (m.call.Commit? && seen != Disconnected ==>
          if m.call.key in after.decisions then seen.Response? && seen.reply.Decided?
          else seen == if m.route == Direct then Response(Unknown) else BadGateway)
  }

  lemma HeardExactly(t: Tables, m: Message)
    requires Inv(t)
    ensures Hears(m, Deliver(t, m).1, Deliver(t, m).0)
    ensures m.route == Direct ==> Deliver(t, m).1 == Response(Apply(t, m.instance, m.call).1)
  {
    if m.call.Commit? {
      CommitHeard(t, m.instance, m.call);
    }
  }

  /**
   * Message i of any run is left without an answer exactly when the proxy drops it. A commit that is answered is
   * answered with a decision exactly when its key is decided by then, and otherwise with the refusal of its route.
   */
  lemma AnsweredExactly(t: Tables, messages: seq<Message>, i: nat)
    requires Inv(t) && i < |messages|
    ensures Hears(messages[i], Seen(t, messages, i), After(t, messages[..i + 1]))
  {
    AfterGrows(t, messages, i);
    HeardExactly(After(t, messages[..i]), messages[i]);
    assert messages[..i + 1][..i] == messages[..i];
  }
}
