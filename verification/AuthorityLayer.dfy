/** The mutation companion's own reading of the authority rules, compared with the path evaluator. */
module AuthorityLayer {
  import opened Wrappers
  import opened Lexicographic
  import opened Delegation

  /** `rule` is the A-number; edge rules also carry the edge index. */
  datatype Ruling = Allowed | Rejected(gate: string, rule: nat, edge: Option<nat>)

  /** Two canonical JSON texts are equal when the records are, an int never equalling a float. */
  predicate SameCanonical(a: Action, b: Action) {
    a == b
  }

  function EdgeRuling(base: Base, effectTime: string, index: nat, principal: string, role: string, scope: Scope,
                      edge: Edge): Ruling {
    var grant := edge.grant;
    if edge.delegator != principal || edge.fromRole != role then Rejected("edge.lineage", 1, Some(index))
    else if !edge.signatureValid then Rejected("edge.signature", 2, Some(index))
    else if index > 0 && !scope.delegable then Rejected("edge.parent_delegable", 3, Some(index))
    else if edge.toRole !in AllowedRoles(base, role) then Rejected("edge.role_transition", 4, Some(index))
    else if edge.status != "active" then Rejected("edge.status", 5, Some(index))
    else if !Within(edge.notBefore, effectTime, edge.expiresAt) then Rejected("edge.freshness", 6, Some(index))
    else if !SubsetOf(grant.operations, scope.operations) then Rejected("edge.scope.operations", 7, Some(index))
    else if !SubsetOf(grant.resources, scope.resources) then Rejected("edge.scope.resources", 7, Some(index))
    else if !SubsetOf(grant.tools, scope.tools) then Rejected("edge.scope.tools", 7, Some(index))
    else if !SubsetOf(grant.audiences, scope.audiences) then Rejected("edge.scope.audiences", 7, Some(index))
    else if !SubsetOf(grant.purposes, scope.purposes) then Rejected("edge.scope.purposes", 7, Some(index))
    else if grant.currency != scope.currency then Rejected("edge.scope.currency", 8, Some(index))
    else if grant.amountMax.Magnitude() > scope.amountMax.Magnitude() then
      Rejected("edge.scope.amount_max", 9, Some(index))
    else Allowed
  }

  function TerminalRuling(c: Case, effectTime: string, principal: string, role: string, scope: Scope): Ruling {
    var action, receipt := c.action, c.receipt;
    if action.subject != principal || action.role != role then Rejected("action.subject_role", 10, None)
    else if action.operation !in scope.operations then Rejected("action.operation", 11, None)
    else if action.resource !in scope.resources then Rejected("action.resource", 12, None)
    else if action.tool !in scope.tools then Rejected("action.tool", 13, None)
    else if action.audience !in scope.audiences then Rejected("action.audience", 14, None)
    else if action.purpose !in scope.purposes then Rejected("action.purpose", 15, None)
    else if action.currency != scope.currency || action.amount.Magnitude() > scope.amountMax.Magnitude() then
      Rejected("action.amount_currency", 16, None)
    else if !receipt.nativeValid then Rejected("effect.native_validity", 17, None)
    else if receipt.effectTime != effectTime then Rejected("effect.time_binding", 18, None)
    else if !SameCanonical(receipt.action, action) then Rejected("effect.action_binding", 19, None)
    else Allowed
  }

  /** The loop from edge `index` on, given the running principal, role and scope. */
  function RulingFrom(c: Case, base: Base, effectTime: string, index: nat, principal: string, role: string,
                      scope: Scope): Ruling
    requires index <= |c.edges|
    decreases |c.edges| - index
  {
    if index == |c.edges| then TerminalRuling(c, effectTime, principal, role, scope)
    else
      var edge := c.edges[index];
      var ruling := EdgeRuling(base, effectTime, index, principal, role, scope, edge);
      if ruling.Rejected? then ruling
      else RulingFrom(c, base, effectTime, index + 1, edge.delegate, edge.toRole, edge.grant)
  }

  function Ruled(c: Case, base: Base, effectTime: string): Ruling {
    if !c.protocolValid then Rejected("protocol.valid", 0, None)
    else RulingFrom(c, base, effectTime, 0, base.rootPrincipal, base.rootRole, base.scope)
  }

  method Appraise(c: Case, base: Base, effectTime: string) returns (ruling: Ruling)
    ensures ruling == Ruled(c, base, effectTime)
  {
    if !c.protocolValid {
      return Rejected("protocol.valid", 0, None);
    }
    var principal := base.rootPrincipal;
    var role := base.rootRole;
    var scope := base.scope;
    for index := 0 to |c.edges|
      invariant RulingFrom(c, base, effectTime, index, principal, role, scope) == Ruled(c, base, effectTime)
    {
      var edge := c.edges[index];
      ruling := EdgeRuling(base, effectTime, index, principal, role, scope, edge);
      if ruling.Rejected? {
        return;
      }
      principal := edge.delegate;
      role := edge.toRole;
      scope := edge.grant;
    }
    ruling := TerminalRuling(c, effectTime, principal, role, scope);
  }

  /** The same verdict, and the same rejecting gate when it is a denial. */
  predicate Agrees(v: Verdict, ruling: Ruling) {
    match (v, ruling)
    case (Allow, Allowed) => true
    case (Deny(gate, _, _), Rejected(gate', _, _)) => gate == gate'
    case _ => false
  }

  lemma EdgeGateAndRuling(base: Base, effectTime: string, index: nat, principal: string, role: string, scope: Scope,
                          edge: Edge)
    ensures var gate, ruling := EdgeGate(base, effectTime, index, principal, role, scope, edge),
                                EdgeRuling(base, effectTime, index, principal, role, scope, edge);
            if gate.Some? then ruling.Rejected? && ruling.gate == gate.value && ruling.edge == Some(index)
            else ruling == Allowed
  {}

  /** The end of the path, given that the evaluator passed every edge. */
  lemma AgreeAtEnd(c: Case, base: Base, effectTime: string, v: Verdict)
    requires c.protocolValid && Judged(c, base, effectTime, v) && PassesUpTo(c, base, effectTime, |c.edges|)
    ensures AgreesFrom(c, base, effectTime, |c.edges|, v)
  {
    var n := |c.edges|;
    if StageGate(c, base, effectTime, n).Some? {
      assert v.Deny? && v.stageIndex == n;
    } else if StageGate(c, base, effectTime, n + 1).Some? {
      assert PassesUpTo(c, base, effectTime, n + 1);
      assert v.Deny? && v.stageIndex == n + 1;
    } else {
      assert PassesUpTo(c, base, effectTime, n + 2);
      assert v == Allow;
    }
  }

  /** What the ruling from edge i on has to do with the verdict. */
  ghost predicate AgreesFrom(c: Case, base: Base, effectTime: string, i: nat, v: Verdict)
    requires i <= |c.edges|
  {
    var ruling := RulingFrom(c, base, effectTime, i, ParentPrincipal(c, base, i), ParentRole(c, base, i),
                             ParentScope(c, base, i));
    && (v.Deny? ==> Agrees(v, ruling))
    && (v.Allow? ==> ruling == if SameCanonical(c.receipt.action, c.action) then Allowed
                               else Rejected("effect.action_binding", 19, None))
  }

  /** From edge i on, given that the evaluator passed every stage before it. */
  lemma {:induction false} AgreeFrom(c: Case, base: Base, effectTime: string, i: nat, v: Verdict)
    requires i <= |c.edges| && c.protocolValid
    requires Judged(c, base, effectTime, v) && PassesUpTo(c, base, effectTime, i)
    ensures AgreesFrom(c, base, effectTime, i, v)
    decreases |c.edges| - i
  {
    if i == |c.edges| {
      AgreeAtEnd(c, base, effectTime, v);
    } else {
      EdgeGateAndRuling(base, effectTime, i, ParentPrincipal(c, base, i), ParentRole(c, base, i),
                        ParentScope(c, base, i), c.edges[i]);
      if StageGate(c, base, effectTime, i) == None {
        AgreeFrom(c, base, effectTime, i + 1, v);
      } else {
        assert v.Deny? && v.stageIndex == i;
      }
    }
  }

  predicate SameKind(a: Amount, b: Amount) {
    a.IntAmount? == b.IntAmount?
  }

  /**
   * The two evaluators, exactly: for any number of edges they agree, on the verdict and on the rejecting gate,
   * unless the path is allowed while the receipt writes the amount as a float and the action as an int, or the
   * other way round: equal to Python, different as canonical JSON.
   */
  lemma EvaluatorsAgreeExactly(c: Case, base: Base, effectTime: string, v: Verdict)
    requires Judged(c, base, effectTime, v)
    ensures Agrees(v, Ruled(c, base, effectTime)) <==> v.Deny? || SameKind(c.receipt.action.amount, c.action.amount)
  {
    if c.protocolValid {
      AgreeFrom(c, base, effectTime, 0, v);
      if v.Allow? {
        assert StageGate(c, base, effectTime, |c.edges| + 1) == None;
        KindDecidesCanonical(c.receipt.action, c.action);
      }
    }
  }

  lemma KindDecidesCanonical(a: Action, b: Action)
    requires SameAction(a, b)
    ensures SameCanonical(a, b) <==> SameKind(a.amount, b.amount)
  {
    if SameKind(a.amount, b.amount) {
      assert a.amount == b.amount;
      assert a == a.(amount := b.amount);
    }
  }

  /** The amount 100 in an allowed action, 100.0 in its receipt. */
  lemma FloatReceiptIsRejected(c: Case, base: Base, effectTime: string)
    requires Judged(c, base, effectTime, Allow) && c.protocolValid
    requires c.action.amount == IntAmount(100) && c.receipt.action.amount == FloatAmount(100.0)
    ensures Ruled(c, base, effectTime) == Rejected("effect.action_binding", 19, None)
  {
    AgreeFrom(c, base, effectTime, 0, Allow);
  }

  function Payment(amount: Amount): Action {
    Action("payer", "treasurer", "pay", "invoice-7", "ledger", "bank", "settlement", "EUR", amount)
  }

  function PaymentScope(): Scope {
    Scope(["pay"], ["invoice-7"], ["ledger"], ["bank"], ["settlement"], "EUR", IntAmount(500), false)
  }

  /** A concrete divergence: a direct payment of 100 with a receipt for 100.0 passes one evaluator and not the other. */
  lemma FloatReceiptDiverges()
    ensures var c := Case(true, [], Payment(IntAmount(100)), Receipt(true, WINDOW_START, Payment(FloatAmount(100.0))));
            var base := Base("payer", "treasurer", [], map[], PaymentScope(), Payment(IntAmount(100)));
            && Judged(c, base, WINDOW_START, Allow)
            && Ruled(c, base, WINDOW_START) == Rejected("effect.action_binding", 19, None)
  {
    var c := Case(true, [], Payment(IntAmount(100)), Receipt(true, WINDOW_START, Payment(FloatAmount(100.0))));
    var base := Base("payer", "treasurer", [], map[], PaymentScope(), Payment(IntAmount(100)));
    assert StageGate(c, base, WINDOW_START, 0) == None;
    assert StageGate(c, base, WINDOW_START, 1) == None;
    FloatReceiptIsRejected(c, base, WINDOW_START);
  }

  // ---------------------------------------------------------------- one broken field

  /** An edge that passes, broken in one field, is rejected for that field. */
  lemma BrokenEdge(base: Base, effectTime: string, index: nat, principal: string, role: string, scope: Scope, edge: Edge,
                   name: string)
    requires EdgeRuling(base, effectTime, index, principal, role, scope, edge) == Allowed
    ensures name != principal ==>
              EdgeRuling(base, effectTime, index, principal, role, scope, edge.(delegator := name)) ==
              Rejected("edge.lineage", 1, Some(index))
    ensures name != role ==>
              EdgeRuling(base, effectTime, index, principal, role, scope, edge.(fromRole := name)) ==
              Rejected("edge.lineage", 1, Some(index))
    ensures EdgeRuling(base, effectTime, index, principal, role, scope, edge.(signatureValid := false)) ==
            Rejected("edge.signature", 2, Some(index))
    ensures index > 0 ==>
              EdgeRuling(base, effectTime, index, principal, role, scope.(delegable := false), edge) ==
              Rejected("edge.parent_delegable", 3, Some(index))
    ensures name !in AllowedRoles(base, role) ==>
              EdgeRuling(base, effectTime, index, principal, role, scope, edge.(toRole := name)) ==
              Rejected("edge.role_transition", 4, Some(index))
    ensures name != "active" ==>
              EdgeRuling(base, effectTime, index, principal, role, scope, edge.(status := name)) ==
              Rejected("edge.status", 5, Some(index))
    ensures !Within(edge.notBefore, name, edge.expiresAt) ==>
              EdgeRuling(base, name, index, principal, role, scope, edge) == Rejected("edge.freshness", 6, Some(index))
  {}

  lemma BrokenGrant(base: Base, effectTime: string, index: nat, principal: string, role: string, scope: Scope, edge: Edge,
                    more: seq<string>, name: string, amount: Amount)
    requires EdgeRuling(base, effectTime, index, principal, role, scope, edge) == Allowed
    ensures !SubsetOf(more, scope.operations) ==>
              EdgeRuling(base, effectTime, index, principal, role, scope,
                         edge.(grant := edge.grant.(operations := more))) ==
              Rejected("edge.scope.operations", 7, Some(index))
    ensures !SubsetOf(more, scope.resources) ==>
              EdgeRuling(base, effectTime, index, principal, role, scope,
                         edge.(grant := edge.grant.(resources := more))) ==
              Rejected("edge.scope.resources", 7, Some(index))
    ensures !SubsetOf(more, scope.tools) ==>
              EdgeRuling(base, effectTime, index, principal, role, scope, edge.(grant := edge.grant.(tools := more))) ==
              Rejected("edge.scope.tools", 7, Some(index))
    ensures !SubsetOf(more, scope.audiences) ==>
              EdgeRuling(base, effectTime, index, principal, role, scope,
                         edge.(grant := edge.grant.(audiences := more))) ==
              Rejected("edge.scope.audiences", 7, Some(index))
    ensures !SubsetOf(more, scope.purposes) ==>
              EdgeRuling(base, effectTime, index, principal, role, scope,
                         edge.(grant := edge.grant.(purposes := more))) ==
              Rejected("edge.scope.purposes", 7, Some(index))
    ensures name != scope.currency ==>
              EdgeRuling(base, effectTime, index, principal, role, scope,
                         edge.(grant := edge.grant.(currency := name))) ==
              Rejected("edge.scope.currency", 8, Some(index))
    ensures amount.Magnitude() > scope.amountMax.Magnitude() ==>
              EdgeRuling(base, effectTime, index, principal, role, scope,
                         edge.(grant := edge.grant.(amountMax := amount))) ==
              Rejected("edge.scope.amount_max", 9, Some(index))
  {}

  /** An action that passes, broken in one field, is rejected for that field; the receipt is looked at after it. */
  lemma BrokenAction(c: Case, effectTime: string, principal: string, role: string, scope: Scope, name: string,
                     amount: Amount)
    requires TerminalRuling(c, effectTime, principal, role, scope) == Allowed
    ensures name != principal ==>
              TerminalRuling(c.(action := c.action.(subject := name)), effectTime, principal, role, scope) ==
              Rejected("action.subject_role", 10, None)
    ensures name != role ==>
              TerminalRuling(c.(action := c.action.(role := name)), effectTime, principal, role, scope) ==
              Rejected("action.subject_role", 10, None)
    ensures name !in scope.operations ==>
              TerminalRuling(c.(action := c.action.(operation := name)), effectTime, principal, role, scope) ==
              Rejected("action.operation", 11, None)
    ensures name !in scope.resources ==>
              TerminalRuling(c.(action := c.action.(resource := name)), effectTime, principal, role, scope) ==
              Rejected("action.resource", 12, None)
    ensures name !in scope.tools ==>
              TerminalRuling(c.(action := c.action.(tool := name)), effectTime, principal, role, scope) ==
              Rejected("action.tool", 13, None)
    ensures name !in scope.audiences ==>
              TerminalRuling(c.(action := c.action.(audience := name)), effectTime, principal, role, scope) ==
              Rejected("action.audience", 14, None)
    ensures name !in scope.purposes ==>
              TerminalRuling(c.(action := c.action.(purpose := name)), effectTime, principal, role, scope) ==
              Rejected("action.purpose", 15, None)
    ensures name != scope.currency ==>
              TerminalRuling(c.(action := c.action.(currency := name)), effectTime, principal, role, scope) ==
              Rejected("action.amount_currency", 16, None)
    ensures amount.Magnitude() > scope.amountMax.Magnitude() ==>
              TerminalRuling(c.(action := c.action.(amount := amount)), effectTime, principal, role, scope) ==
              Rejected("action.amount_currency", 16, None)
  {}

  lemma BrokenReceipt(c: Case, effectTime: string, principal: string, role: string, scope: Scope, name: string,
                      other: Action)
    requires TerminalRuling(c, effectTime, principal, role, scope) == Allowed
    ensures TerminalRuling(c.(receipt := c.receipt.(nativeValid := false)), effectTime, principal, role, scope) ==
            Rejected("effect.native_validity", 17, None)
    ensures name != effectTime ==>
              TerminalRuling(c.(receipt := c.receipt.(effectTime := name)), effectTime, principal, role, scope) ==
              Rejected("effect.time_binding", 18, None)
    ensures other != c.action ==>
              TerminalRuling(c.(receipt := c.receipt.(action := other)), effectTime, principal, role, scope) ==
              Rejected("effect.action_binding", 19, None)
  {}

  /** A rejection names the edge the path evaluator denies at, and no edge when it denies after the last one. */
  lemma {:induction false} RulingLocalizesFrom(c: Case, base: Base, effectTime: string, i: nat, v: Verdict)
    requires i <= |c.edges| && c.protocolValid && v.Deny?
    requires Judged(c, base, effectTime, v) && PassesUpTo(c, base, effectTime, i)
    ensures var ruling := RulingFrom(c, base, effectTime, i, ParentPrincipal(c, base, i), ParentRole(c, base, i),
                                     ParentScope(c, base, i));
            ruling.Rejected? && ruling.edge == if v.stageIndex < |c.edges| then Some(v.stageIndex) else None
    decreases |c.edges| - i
  {
    AgreeFrom(c, base, effectTime, i, v);
    if i < |c.edges| {
      EdgeGateAndRuling(base, effectTime, i, ParentPrincipal(c, base, i), ParentRole(c, base, i),
                        ParentScope(c, base, i), c.edges[i]);
      if StageGate(c, base, effectTime, i) == None {
        RulingLocalizesFrom(c, base, effectTime, i + 1, v);
      } else {
        assert v.stageIndex == i;
      }
    } else {
      assert v.stageIndex >= |c.edges|;
    }
  }

  lemma RulingLocalizes(c: Case, base: Base, effectTime: string, v: Verdict)
    requires Judged(c, base, effectTime, v) && v.Deny? && c.protocolValid
    ensures var ruling := Ruled(c, base, effectTime);
            ruling.Rejected? && ruling.edge == if v.stageIndex < |c.edges| then Some(v.stageIndex) else None
  {
    RulingLocalizesFrom(c, base, effectTime, 0, v);
  }
}
