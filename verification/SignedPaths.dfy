/** What the signed evaluator adds to the path evaluator. */
module SignedPaths {
  import opened Wrappers
  import opened Delegation
  import opened AuthorityLayer
  import opened SignedChain

  function PlainEdge(k: Crypto, index: nat, edge: Envelope): Edge {
    Edge("edge-" + Decimal(index), edge.issuer, edge.subject, edge.fromRole, edge.toRole, k.edgeVerifies(edge),
         edge.status, edge.notBefore, edge.expiresAt, edge.grant)
  }

  /** The item without its digests, the signature checks replaced by their results. */
  function PlainCase(k: Crypto, item: Item): Case {
    Case(true, seq(|item.delegations|, i requires 0 <= i < |item.delegations| => PlainEdge(k, i, item.delegations[i])),
         item.action, Receipt(k.receiptVerifies(item.receipt), item.receipt.effectTime, item.receipt.action))
  }

  function PlainBase(shared: Shared, item: Item): Base {
    Base(shared.rootPrincipal, shared.rootRole, [], shared.transitions, shared.rootScope, item.action)
  }

  /** Every envelope names the digest of the one before it, the first the anchor. */
  predicate Linked(k: Crypto, shared: Shared, chain: seq<Envelope>) {
    forall j :: 0 <= j < |chain| ==> chain[j].parentDigest == DigestAfter(k, shared, chain, j)
  }

  /** What the receipt binds besides the action: its issuer and the whole chain. */
  predicate ReceiptBinds(k: Crypto, shared: Shared, item: Item) {
    && item.receipt.issuer == PrincipalAfter(shared, item.delegations, |item.delegations|)
    && item.receipt.chainDigest == k.chainDigest(item.delegations)
    && SameKind(item.receipt.action.amount, item.action.amount)
  }

  lemma SameContext(k: Crypto, shared: Shared, item: Item, j: nat)
    requires j <= |item.delegations|
    ensures ParentPrincipal(PlainCase(k, item), PlainBase(shared, item), j) == PrincipalAfter(shared, item.delegations, j)
    ensures ParentRole(PlainCase(k, item), PlainBase(shared, item), j) == RoleAfter(shared, item.delegations, j)
    ensures ParentScope(PlainCase(k, item), PlainBase(shared, item), j) == ScopeAfter(shared, item.delegations, j)
  {}

  lemma EnvelopeGateSplits(k: Crypto, shared: Shared, base: Base, index: nat, principal: string, role: string,
                           scope: Scope, parentDigest: string, edge: Envelope)
    requires base.transitions == shared.transitions
    ensures EnvelopeGate(k, shared, index, principal, role, scope, parentDigest, edge) == None <==>
            EdgeGate(base, shared.effectTime, index, principal, role, scope, PlainEdge(k, index, edge)) == None
            && edge.parentDigest == parentDigest
  {}

  lemma EnvelopePasses(k: Crypto, shared: Shared, item: Item, j: nat)
    requires j < |item.delegations|
    ensures GateAt(k, shared, item.delegations, j) == None <==>
            StageGate(PlainCase(k, item), PlainBase(shared, item), shared.effectTime, j) == None
            && item.delegations[j].parentDigest == DigestAfter(k, shared, item.delegations, j)
  {
    var chain := item.delegations;
    SameContext(k, shared, item, j);
    EnvelopeGateSplits(k, shared, PlainBase(shared, item), j, PrincipalAfter(shared, chain, j), RoleAfter(shared, chain, j),
                       ScopeAfter(shared, chain, j), DigestAfter(k, shared, chain, j), chain[j]);
  }

  lemma EndPasses(k: Crypto, shared: Shared, item: Item)
    ensures var (c, base, n) := (PlainCase(k, item), PlainBase(shared, item), |item.delegations|);
            EndGate(k, shared, item) == None <==>
            StageGate(c, base, shared.effectTime, n) == None && StageGate(c, base, shared.effectTime, n + 1) == None
            && ReceiptBinds(k, shared, item)
  {
    SameContext(k, shared, item, |item.delegations|);
    if SameAction(item.receipt.action, item.action) {
      KindDecidesCanonical(item.receipt.action, item.action);
    }
  }

  lemma AllowedExactly(c: Case, base: Base, effectTime: string)
    requires c.protocolValid
    ensures Judged(c, base, effectTime, Allow) <==>
            PassesUpTo(c, base, effectTime, |c.edges|) && StageGate(c, base, effectTime, |c.edges|) == None
            && StageGate(c, base, effectTime, |c.edges| + 1) == None
  {}

  /**
   * A signed item is accepted exactly when the path evaluator allows it without its digests, its envelopes are
   * linked, and its receipt is issued by the last delegate over the whole chain, amounts of one JSON kind.
   */
  lemma SignedAcceptanceExactly(k: Crypto, shared: Shared, item: Item)
    ensures Accepted(k, shared, item) <==>
            Judged(PlainCase(k, item), PlainBase(shared, item), shared.effectTime, Allow)
            && Linked(k, shared, item.delegations) && ReceiptBinds(k, shared, item)
  {
    var c, base, chain := PlainCase(k, item), PlainBase(shared, item), item.delegations;
    AllowedExactly(c, base, shared.effectTime);
    EndPasses(k, shared, item);
    forall j | 0 <= j < |chain|
      ensures GateAt(k, shared, chain, j) == None <==>
              StageGate(c, base, shared.effectTime, j) == None
              && chain[j].parentDigest == DigestAfter(k, shared, chain, j)
    {
      EnvelopePasses(k, shared, item, j);
    }
    assert ChainPasses(k, shared, chain, |chain|) <==>
           PassesUpTo(c, base, shared.effectTime, |chain|) && Linked(k, shared, chain);
  }
}
