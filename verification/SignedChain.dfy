/** Signed delegation envelopes: each names the digest of its parent, and the receipt the digest of the chain. */
module SignedChain {
  import opened Wrappers
  import opened Lexicographic
  import opened Delegation

  /** A signed edge. `Edge`, `Scope` and `Action` keep their meaning; the delegator is the issuer here. */
  datatype Envelope = Envelope(issuer: string, subject: string, fromRole: string, toRole: string, parentDigest: string,
                               status: string, notBefore: string, expiresAt: string, grant: Scope, signature: string)

  datatype SignedReceipt = SignedReceipt(issuer: string, chainDigest: string, effectTime: string, action: Action,
                                         signature: string)

  datatype Shared = Shared(rootPrincipal: string, rootRole: string, rootScope: Scope, rootAnchor: string,
                           transitions: map<string, seq<string>>, effectTime: string)

  datatype Item = Item(delegations: seq<Envelope>, action: Action, receipt: SignedReceipt)

  /** Signature checks and digests, which the model takes as given. */
  datatype Crypto = Crypto(edgeVerifies: Envelope -> bool, receiptVerifies: SignedReceipt -> bool,
                           digest: Envelope -> string, chainDigest: seq<Envelope> -> string)

  /** Python's `a <= b` on sets of strings, and the loop of the five scope fields. */
  function EnvelopeGate(k: Crypto, shared: Shared, index: nat, principal: string, role: string, scope: Scope,
                        parentDigest: string, edge: Envelope): Option<string> {
    var grant := edge.grant;
    if !k.edgeVerifies(edge) then Some("native.edge.signature")
    else if edge.issuer != principal || edge.fromRole != role || edge.parentDigest != parentDigest then
      Some("native.edge.lineage")
    else if index > 0 && !scope.delegable then Some("native.edge.parent_delegable")
    else if role !in shared.transitions || edge.toRole !in shared.transitions[role] then
      Some("native.edge.role_transition")
    else if edge.status != "active" then Some("native.edge.status")
    else if !Within(edge.notBefore, shared.effectTime, edge.expiresAt) then Some("native.edge.freshness")
    else if !SubsetOf(grant.operations, scope.operations) then Some("native.edge.scope.operations")
    else if !SubsetOf(grant.resources, scope.resources) then Some("native.edge.scope.resources")
    else if !SubsetOf(grant.tools, scope.tools) then Some("native.edge.scope.tools")
    else if !SubsetOf(grant.audiences, scope.audiences) then Some("native.edge.scope.audiences")
    else if !SubsetOf(grant.purposes, scope.purposes) then Some("native.edge.scope.purposes")
    else if grant.currency != scope.currency then Some("native.edge.scope.currency")
    else if grant.amountMax.Magnitude() > scope.amountMax.Magnitude() then Some("native.edge.scope.amount_max")
    else None
  }

  function TerminalGate(k: Crypto, shared: Shared, item: Item, principal: string, role: string,
                        scope: Scope): Option<string> {
    var action, receipt := item.action, item.receipt;
    if action.subject != principal || action.role != role then Some("native.action.subject_role")
    else if action.operation !in scope.operations then Some("native.action.operation")
    else if action.resource !in scope.resources then Some("native.action.resource")
    else if action.tool !in scope.tools then Some("native.action.tool")
    else if action.audience !in scope.audiences then Some("native.action.audience")
    else if action.purpose !in scope.purposes then Some("native.action.purpose")
    else if action.currency != scope.currency || action.amount.Magnitude() > scope.amountMax.Magnitude() then
      Some("native.action.amount_currency")
    else if !k.receiptVerifies(receipt) then Some("native.effect.signature")
    else if receipt.issuer != principal then Some("native.effect.issuer")
    else if receipt.chainDigest != k.chainDigest(item.delegations) then Some("native.effect.chain_binding")
    else if receipt.effectTime != shared.effectTime then Some("native.effect.time_binding")
    else if receipt.action != action then Some("native.effect.action_binding")
    else None
  }

  // ---------------------------------------------------------------- what the first j envelopes establish

  function PrincipalAfter(shared: Shared, chain: seq<Envelope>, j: nat): string
    requires j <= |chain|
  {
    if j == 0 then shared.rootPrincipal else chain[j - 1].subject
  }

  function RoleAfter(shared: Shared, chain: seq<Envelope>, j: nat): string
    requires j <= |chain|
  {
    if j == 0 then shared.rootRole else chain[j - 1].toRole
  }

  function ScopeAfter(shared: Shared, chain: seq<Envelope>, j: nat): Scope
    requires j <= |chain|
  {
    if j == 0 then shared.rootScope else chain[j - 1].grant
  }

  function DigestAfter(k: Crypto, shared: Shared, chain: seq<Envelope>, j: nat): string
    requires j <= |chain|
  {
    if j == 0 then shared.rootAnchor else k.digest(chain[j - 1])
  }

  function GateAt(k: Crypto, shared: Shared, chain: seq<Envelope>, j: nat): Option<string>
    requires j < |chain|
  {
    EnvelopeGate(k, shared, j, PrincipalAfter(shared, chain, j), RoleAfter(shared, chain, j),
                 ScopeAfter(shared, chain, j), DigestAfter(k, shared, chain, j), chain[j])
  }

  predicate ChainPasses(k: Crypto, shared: Shared, chain: seq<Envelope>, n: nat)
    requires n <= |chain|
  {
    forall j :: 0 <= j < n ==> GateAt(k, shared, chain, j) == None
  }

  function EndGate(k: Crypto, shared: Shared, item: Item): Option<string> {
    var n := |item.delegations|;
    TerminalGate(k, shared, item, PrincipalAfter(shared, item.delegations, n), RoleAfter(shared, item.delegations, n),
                 ScopeAfter(shared, item.delegations, n))
  }

  /** None is ALLOW; a denial names the least envelope that fails, or the terminal check. */
  ghost predicate Answers(k: Crypto, shared: Shared, item: Item, gate: Option<string>) {
    var n := |item.delegations|;
    if ChainPasses(k, shared, item.delegations, n) then gate == EndGate(k, shared, item)
    else exists j :: 0 <= j < n && ChainPasses(k, shared, item.delegations, j)
                     && gate == GateAt(k, shared, item.delegations, j) && gate.Some?
  }

  ghost predicate Accepted(k: Crypto, shared: Shared, item: Item) {
    ChainPasses(k, shared, item.delegations, |item.delegations|) && EndGate(k, shared, item) == None
  }

  method Evaluate(k: Crypto, shared: Shared, item: Item) returns (gate: Option<string>)
    ensures Answers(k, shared, item, gate)
    ensures gate == None <==> Accepted(k, shared, item)
  {
    var chain := item.delegations;
    var principal, role, scope := shared.rootPrincipal, shared.rootRole, shared.rootScope;
    var parentDigest := shared.rootAnchor;
    for index := 0 to |chain|
      invariant principal == PrincipalAfter(shared, chain, index) && role == RoleAfter(shared, chain, index)
      invariant scope == ScopeAfter(shared, chain, index) && parentDigest == DigestAfter(k, shared, chain, index)
      invariant ChainPasses(k, shared, chain, index)
    {
      var edge := chain[index];
      gate := EnvelopeGate(k, shared, index, principal, role, scope, parentDigest, edge);
      assert gate == GateAt(k, shared, chain, index);
      if gate.Some? {
        return;
      }
      parentDigest := k.digest(edge);
      principal, role, scope := edge.subject, edge.toRole, edge.grant;
    }
    gate := TerminalGate(k, shared, item, principal, role, scope);
  }

  // ---------------------------------------------------------------- the chain is pinned from its end

  /** Of two chains' envelopes, only equal ones share a digest, and none has the anchor as its digest. */
  ghost predicate CollisionFree(k: Crypto, shared: Shared, a: seq<Envelope>, b: seq<Envelope>) {
    && (forall i, j :: 0 <= i < |a| && 0 <= j < |b| && k.digest(a[i]) == k.digest(b[j]) ==> a[i] == b[j])
    && (forall i :: 0 <= i < |a| ==> k.digest(a[i]) != shared.rootAnchor)
    && (forall j :: 0 <= j < |b| ==> k.digest(b[j]) != shared.rootAnchor)
  }

  /** Counting back from equal envelopes, two accepted chains agree all the way to the anchor. */
  lemma {:induction false} ChainsAgreeBackwards(k: Crypto, shared: Shared, a: seq<Envelope>, b: seq<Envelope>,
                                                i: nat, j: nat)
    requires CollisionFree(k, shared, a, b)
    requires ChainPasses(k, shared, a, |a|) && ChainPasses(k, shared, b, |b|)
    requires i < |a| && j < |b| && a[i] == b[j]
    ensures i == j && a[..i + 1] == b[..j + 1]
  {
    assert GateAt(k, shared, a, i) == None && GateAt(k, shared, b, j) == None;
    assert DigestAfter(k, shared, a, i) == a[i].parentDigest == b[j].parentDigest == DigestAfter(k, shared, b, j);
    if i > 0 && j > 0 {
      ChainsAgreeBackwards(k, shared, a, b, i - 1, j - 1);
      assert a[..i + 1] == a[..i] + [a[i]] && b[..j + 1] == b[..j] + [b[j]];
    } else {
      assert i == 0 && j == 0;
    }
  }

  /** Two accepted chains with the same last envelope are the same chain, unless their digests collide. */
  lemma LastEnvelopeDeterminesChain(k: Crypto, shared: Shared, x: Item, y: Item)
    requires CollisionFree(k, shared, x.delegations, y.delegations)
    requires Accepted(k, shared, x) && Accepted(k, shared, y)
    requires x.delegations != [] && y.delegations != []
    requires x.delegations[|x.delegations| - 1] == y.delegations[|y.delegations| - 1]
    ensures x.delegations == y.delegations
  {
    var a, b := x.delegations, y.delegations;
    ChainsAgreeBackwards(k, shared, a, b, |a| - 1, |b| - 1);
    assert a[..|a|] == a && b[..|b|] == b;
  }

  /** An accepted receipt fits one chain and one action, unless the digests of two chains collide. */
  lemma ReceiptDeterminesItem(k: Crypto, shared: Shared, x: Item, y: Item)
    requires k.chainDigest(x.delegations) == k.chainDigest(y.delegations) ==> x.delegations == y.delegations
    requires Accepted(k, shared, x) && Accepted(k, shared, y) && x.receipt == y.receipt
    ensures x == y
  {}

  /** No accepted chain returns to an envelope it used, unless its digests collide. */
  lemma EnvelopesAreDistinct(k: Crypto, shared: Shared, x: Item, i: nat, j: nat)
    requires CollisionFree(k, shared, x.delegations, x.delegations) && Accepted(k, shared, x)
    requires i < |x.delegations| && j < |x.delegations| && x.delegations[i] == x.delegations[j]
    ensures i == j
  {
    ChainsAgreeBackwards(k, shared, x.delegations, x.delegations, i, j);
  }

  // ---------------------------------------------------------------- with and without a collision

  const NOON := "2026-07-27T12:00:00Z"

  const INVOICES :=
    Scope(["pay"], ["invoice"], ["transfer"], ["bank"], ["settlement"], "EUR", IntAmount(100), true)

  const OFFICE := Shared("alice", "payer", INVOICES, "anchor", map["payer" := ["payer"]], NOON)

  function Handed(issuer: string, subject: string, parentDigest: string, signature: string): Envelope {
    Envelope(issuer, subject, "payer", "payer", parentDigest, "active", NOON, NOON, INVOICES, signature)
  }

  /** The chain with a payment by its last subject, over the given chain digest. */
  function Paid(chain: seq<Envelope>, subject: string, chainDigest: string): Item {
    var action := Action(subject, "payer", "pay", "invoice", "transfer", "bank", "settlement", "EUR", IntAmount(100));
    Item(chain, action, SignedReceipt(subject, chainDigest, NOON, action, ""))
  }

  lemma HandedOn(k: Crypto, chain: seq<Envelope>, j: nat)
    requires j < |chain| && k.edgeVerifies(chain[j])
    requires forall i :: 0 <= i < |chain| ==>
                           chain[i] == Handed(chain[i].issuer, chain[i].subject, chain[i].parentDigest, chain[i].signature)
    requires chain[j].issuer == PrincipalAfter(OFFICE, chain, j)
    requires chain[j].parentDigest == DigestAfter(k, OFFICE, chain, j)
    ensures GateAt(k, OFFICE, chain, j) == None
  {
    assert j > 0 ==> chain[j - 1].grant == INVOICES;
    LeReflexive(NOON);
  }

  /** Every signature checks, and the digest of an envelope is the given one. */
  function Trusting(digest: Envelope -> string): Crypto {
    Crypto(_ => true, _ => true, digest, _ => "chain")
  }

  const HANDED_ON := [Handed("alice", "bob", "anchor", "first"), Handed("bob", "carol", "first", "second")]

  lemma SignaturesDiffer()
    ensures "first" != "anchor" && "second" != "anchor" && "first" != "second"
  {
    assert |"first"| == 5 && "second"[0] != "anchor"[0];
  }

  lemma HandedOnPasses()
    ensures ChainPasses(Trusting((e: Envelope) => e.signature), OFFICE, HANDED_ON, 2)
  {
    HandedOn(Trusting((e: Envelope) => e.signature), HANDED_ON, 0);
    HandedOn(Trusting((e: Envelope) => e.signature), HANDED_ON, 1);
  }

  /** Two envelopes whose signatures serve as digests: an accepted item free of collisions. */
  lemma AcceptedWithoutCollision()
    ensures var k := Trusting((e: Envelope) => e.signature);
            Accepted(k, OFFICE, Paid(HANDED_ON, "carol", "chain")) && CollisionFree(k, OFFICE, HANDED_ON, HANDED_ON)
  {
    SignaturesDiffer();
    HandedOnPasses();
  }

  /** Where every digest is the anchor, one envelope taken once and taken twice are both accepted, on one receipt. */
  lemma CollisionAdmitsTwoChains()
    ensures var k := Trusting(_ => "anchor");
            var e := Handed("alice", "alice", "anchor", "first");
            var once, twice := Paid([e], "alice", "chain"), Paid([e, e], "alice", "chain");
            && Accepted(k, OFFICE, once) && Accepted(k, OFFICE, twice) && once.receipt == twice.receipt
            && once.delegations != twice.delegations
  {
    var k := Trusting(_ => "anchor");
    var e := Handed("alice", "alice", "anchor", "first");
    HandedOn(k, [e], 0);
    HandedOn(k, [e, e], 0);
    HandedOn(k, [e, e], 1);
  }

  // ---------------------------------------------------------------- one broken field

  /** An envelope that passes, broken in one signed field and signed again, is rejected for that field. */
  lemma BrokenEnvelope(k: Crypto, shared: Shared, index: nat, principal: string, role: string, scope: Scope,
                       parentDigest: string, edge: Envelope, name: string)
    requires EnvelopeGate(k, shared, index, principal, role, scope, parentDigest, edge) == None
    requires forall e :: k.edgeVerifies(e)
    ensures name != principal ==>
              EnvelopeGate(k, shared, index, principal, role, scope, parentDigest, edge.(issuer := name)) ==
              Some("native.edge.lineage")
    ensures name != role ==>
              EnvelopeGate(k, shared, index, principal, role, scope, parentDigest, edge.(fromRole := name)) ==
              Some("native.edge.lineage")
    ensures name != parentDigest ==>
              EnvelopeGate(k, shared, index, principal, role, scope, parentDigest, edge.(parentDigest := name)) ==
              Some("native.edge.lineage")
    ensures role in shared.transitions && name !in shared.transitions[role] ==>
              EnvelopeGate(k, shared, index, principal, role, scope, parentDigest, edge.(toRole := name)) ==
              Some("native.edge.role_transition")
    ensures name != "active" ==>
              EnvelopeGate(k, shared, index, principal, role, scope, parentDigest, edge.(status := name)) ==
              Some("native.edge.status")
    ensures index > 0 ==>
              EnvelopeGate(k, shared, index, principal, role, scope.(delegable := false), parentDigest, edge) ==
              Some("native.edge.parent_delegable")
    ensures !Within(edge.notBefore, name, edge.expiresAt) ==>
              EnvelopeGate(k, shared.(effectTime := name), index, principal, role, scope, parentDigest, edge) ==
              Some("native.edge.freshness")
  {}

  lemma BrokenSignature(k: Crypto, shared: Shared, index: nat, principal: string, role: string, scope: Scope,
                        parentDigest: string, edge: Envelope)
    ensures EnvelopeGate(k, shared, index, principal, role, scope, parentDigest, edge) == Some("native.edge.signature") <==>
            !k.edgeVerifies(edge)
  {}

  lemma BrokenGrant(k: Crypto, shared: Shared, index: nat, principal: string, role: string, scope: Scope,
                    parentDigest: string, edge: Envelope, more: seq<string>, name: string, amount: Amount)
    requires EnvelopeGate(k, shared, index, principal, role, scope, parentDigest, edge) == None
    requires forall e :: k.edgeVerifies(e)
    ensures !SubsetOf(more, scope.operations) ==>
              EnvelopeGate(k, shared, index, principal, role, scope, parentDigest,
                           edge.(grant := edge.grant.(operations := more))) == Some("native.edge.scope.operations")
    ensures !SubsetOf(more, scope.resources) ==>
              EnvelopeGate(k, shared, index, principal, role, scope, parentDigest,
                           edge.(grant := edge.grant.(resources := more))) == Some("native.edge.scope.resources")
    ensures !SubsetOf(more, scope.tools) ==>
              EnvelopeGate(k, shared, index, principal, role, scope, parentDigest,
                           edge.(grant := edge.grant.(tools := more))) == Some("native.edge.scope.tools")
    ensures !SubsetOf(more, scope.audiences) ==>
              EnvelopeGate(k, shared, index, principal, role, scope, parentDigest,
                           edge.(grant := edge.grant.(audiences := more))) == Some("native.edge.scope.audiences")
    ensures !SubsetOf(more, scope.purposes) ==>
              EnvelopeGate(k, shared, index, principal, role, scope, parentDigest,
                           edge.(grant := edge.grant.(purposes := more))) == Some("native.edge.scope.purposes")
    ensures name != scope.currency ==>
              EnvelopeGate(k, shared, index, principal, role, scope, parentDigest,
                           edge.(grant := edge.grant.(currency := name))) == Some("native.edge.scope.currency")
    ensures amount.Magnitude() > scope.amountMax.Magnitude() ==>
              EnvelopeGate(k, shared, index, principal, role, scope, parentDigest,
                           edge.(grant := edge.grant.(amountMax := amount))) == Some("native.edge.scope.amount_max")
  {}

  /** An action that passes, broken in one field, is rejected for that field before the receipt is looked at. */
  lemma BrokenAction(k: Crypto, shared: Shared, item: Item, principal: string, role: string, scope: Scope, name: string,
                     amount: Amount)
    requires TerminalGate(k, shared, item, principal, role, scope) == None
    ensures name != principal ==>
              TerminalGate(k, shared, item.(action := item.action.(subject := name)), principal, role, scope) ==
              Some("native.action.subject_role")
    ensures name != role ==>
              TerminalGate(k, shared, item.(action := item.action.(role := name)), principal, role, scope) ==
              Some("native.action.subject_role")
    ensures name !in scope.operations ==>
              TerminalGate(k, shared, item.(action := item.action.(operation := name)), principal, role, scope) ==
              Some("native.action.operation")
    ensures name !in scope.resources ==>
              TerminalGate(k, shared, item.(action := item.action.(resource := name)), principal, role, scope) ==
              Some("native.action.resource")
    ensures name !in scope.tools ==>
              TerminalGate(k, shared, item.(action := item.action.(tool := name)), principal, role, scope) ==
              Some("native.action.tool")
    ensures name !in scope.audiences ==>
              TerminalGate(k, shared, item.(action := item.action.(audience := name)), principal, role, scope) ==
              Some("native.action.audience")
    ensures name !in scope.purposes ==>
              TerminalGate(k, shared, item.(action := item.action.(purpose := name)), principal, role, scope) ==
              Some("native.action.purpose")
    ensures name != scope.currency ==>
              TerminalGate(k, shared, item.(action := item.action.(currency := name)), principal, role, scope) ==
              Some("native.action.amount_currency")
    ensures amount.Magnitude() > scope.amountMax.Magnitude() ==>
              TerminalGate(k, shared, item.(action := item.action.(amount := amount)), principal, role, scope) ==
              Some("native.action.amount_currency")
  {}

  /** A receipt that passes, broken in one field and signed again, is rejected for that field. */
  lemma BrokenReceipt(k: Crypto, shared: Shared, item: Item, principal: string, role: string, scope: Scope, name: string,
                      other: Action)
    requires TerminalGate(k, shared, item, principal, role, scope) == None
    requires forall r :: k.receiptVerifies(r)
    ensures name != principal ==>
              TerminalGate(k, shared, item.(receipt := item.receipt.(issuer := name)), principal, role, scope) ==
              Some("native.effect.issuer")
    ensures name != k.chainDigest(item.delegations) ==>
              TerminalGate(k, shared, item.(receipt := item.receipt.(chainDigest := name)), principal, role, scope) ==
              Some("native.effect.chain_binding")
    ensures name != shared.effectTime ==>
              TerminalGate(k, shared, item.(receipt := item.receipt.(effectTime := name)), principal, role, scope) ==
              Some("native.effect.time_binding")
    ensures other != item.action ==>
              TerminalGate(k, shared, item.(receipt := item.receipt.(action := other)), principal, role, scope) ==
              Some("native.effect.action_binding")
  {}

  lemma UnverifiedReceipt(k: Crypto, shared: Shared, item: Item, principal: string, role: string, scope: Scope,
                          other: SignedReceipt)
    requires TerminalGate(k, shared, item, principal, role, scope) == None && !k.receiptVerifies(other)
    ensures TerminalGate(k, shared, item.(receipt := other), principal, role, scope) == Some("native.effect.signature")
  {}
}
