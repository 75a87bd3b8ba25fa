/** Typed delegation paths: the evaluator that localizes the first invalid stage. */
module Delegation {
  import opened Wrappers
  import opened Lexicographic

  /** A JSON number as Python reads it: an int or a float. */
  datatype Amount = IntAmount(n: int) | FloatAmount(x: real) {
    function Magnitude(): real {
      match this
      case IntAmount(n) => n as real
      case FloatAmount(x) => x
    }
  }

  datatype Scope = Scope(operations: seq<string>, resources: seq<string>, tools: seq<string>, audiences: seq<string>,
                         purposes: seq<string>, currency: string, amountMax: Amount, delegable: bool)

  datatype Edge = Edge(id: string, delegator: string, delegate: string, fromRole: string, toRole: string,
                       signatureValid: bool, status: string, notBefore: string, expiresAt: string, grant: Scope)

  datatype Action = Action(subject: string, role: string, operation: string, resource: string, tool: string,
                           audience: string, purpose: string, currency: string, amount: Amount)

  datatype Receipt = Receipt(nativeValid: bool, effectTime: string, action: Action)

  datatype Case = Case(protocolValid: bool, edges: seq<Edge>, action: Action, receipt: Receipt)

  /** `action` is the template without subject and role, which `BuildCase` fills in. */
  datatype Base = Base(rootPrincipal: string, rootRole: string, rolePath: seq<string>,
                       transitions: map<string, seq<string>>, scope: Scope, action: Action)

  datatype State = Unmarked | Pass | Denied | NotEvaluated

  datatype Stage = Stage(id: string, index: nat, kind: string, state: State, gate: Option<string>)

  datatype Verdict = Allow | Deny(gate: string, stageId: string, stageIndex: nat)

  // ---------------------------------------------------------------- the gates of one stage

  predicate SubsetOf(child: seq<string>, parent: seq<string>) {
    forall x :: x in child ==> x in parent
  }

  function ScopeGate(grant: Scope, parent: Scope): Option<string> {
    if !SubsetOf(grant.operations, parent.operations) then Some("edge.scope.operations")
    else if !SubsetOf(grant.resources, parent.resources) then Some("edge.scope.resources")
    else if !SubsetOf(grant.tools, parent.tools) then Some("edge.scope.tools")
    else if !SubsetOf(grant.audiences, parent.audiences) then Some("edge.scope.audiences")
    else if !SubsetOf(grant.purposes, parent.purposes) then Some("edge.scope.purposes")
    else if grant.currency != parent.currency then Some("edge.scope.currency")
    else if grant.amountMax.Magnitude() > parent.amountMax.Magnitude() then Some("edge.scope.amount_max")
    else None
  }

  function AllowedRoles(base: Base, role: string): seq<string> {
    if role in base.transitions then base.transitions[role] else []
  }

  function EdgeGate(base: Base, effectTime: string, index: nat, principal: string, role: string, scope: Scope,
                    edge: Edge): Option<string> {
    if edge.delegator != principal || edge.fromRole != role then Some("edge.lineage")
    else if !edge.signatureValid then Some("edge.signature")
    else if index > 0 && !scope.delegable then Some("edge.parent_delegable")
    else if edge.toRole !in AllowedRoles(base, role) then Some("edge.role_transition")
    else if edge.status != "active" then Some("edge.status")
    else if !Within(edge.notBefore, effectTime, edge.expiresAt) then Some("edge.freshness")
    else ScopeGate(edge.grant, scope)
  }

  function ActionGate(action: Action, principal: string, role: string, scope: Scope): Option<string> {
    if action.subject != principal || action.role != role then Some("action.subject_role")
    else if action.operation !in scope.operations then Some("action.operation")
    else if action.resource !in scope.resources then Some("action.resource")
    else if action.tool !in scope.tools then Some("action.tool")
    else if action.audience !in scope.audiences then Some("action.audience")
    else if action.purpose !in scope.purposes then Some("action.purpose")
    else if action.currency != scope.currency || action.amount.Magnitude() > scope.amountMax.Magnitude() then
      Some("action.amount_currency")
    else None
  }

  /** Python's `==` on action records: amounts by value, whatever their type. */
  predicate SameAction(a: Action, b: Action) {
    a.(amount := b.amount) == b && a.amount.Magnitude() == b.amount.Magnitude()
  }

  function EffectGate(receipt: Receipt, action: Action, effectTime: string): Option<string> {
    if !receipt.nativeValid then Some("effect.native_validity")
    else if receipt.effectTime != effectTime then Some("effect.time_binding")
    else if !SameAction(receipt.action, action) then Some("effect.action_binding")
    else None
  }

  // ---------------------------------------------------------------- stages in their context

  function ParentPrincipal(c: Case, base: Base, j: nat): string
    requires j <= |c.edges|
  {
    if j == 0 then base.rootPrincipal else c.edges[j - 1].delegate
  }

  function ParentRole(c: Case, base: Base, j: nat): string
    requires j <= |c.edges|
  {
    if j == 0 then base.rootRole else c.edges[j - 1].toRole
  }

  function ParentScope(c: Case, base: Base, j: nat): Scope
    requires j <= |c.edges|
  {
    if j == 0 then base.scope else c.edges[j - 1].grant
  }

  /** The gate that rejects stage j on its own, given only its parent. */
  function StageGate(c: Case, base: Base, effectTime: string, j: nat): Option<string>
    requires j <= |c.edges| + 1
  {
    if j < |c.edges| then
      EdgeGate(base, effectTime, j, ParentPrincipal(c, base, j), ParentRole(c, base, j), ParentScope(c, base, j), c.edges[j])
    else if j == |c.edges| then
      ActionGate(c.action, ParentPrincipal(c, base, j), ParentRole(c, base, j), ParentScope(c, base, j))
    else EffectGate(c.receipt, c.action, effectTime)
  }

  function StageId(c: Case, j: nat): string {
    if j < |c.edges| then c.edges[j].id else if j == |c.edges| then "action" else "effect"
  }

  function StageKind(c: Case, j: nat): string {
    if j < |c.edges| then "delegation_edge" else if j == |c.edges| then "action" else "effect"
  }

  predicate PassesUpTo(c: Case, base: Base, effectTime: string, j: nat)
    requires j <= |c.edges| + 2
  {
    forall i :: 0 <= i < j ==> StageGate(c, base, effectTime, i) == None
  }

  /**
   * What the evaluator must answer: the protocol flag first, pinned to stage 0 as "edge-0"; then the least
   * stage that fails on its own.
   */
  ghost predicate Judged(c: Case, base: Base, effectTime: string, v: Verdict) {
    if !c.protocolValid then v == Deny("protocol.valid", "edge-0", 0)
    else
      match v
      case Allow => PassesUpTo(c, base, effectTime, |c.edges| + 2)
      case Deny(gate, id, j) =>
        j <= |c.edges| + 1 && PassesUpTo(c, base, effectTime, j)
        && StageGate(c, base, effectTime, j) == Some(gate) && id == StageId(c, j)
  }

  /** The trace that goes with a verdict. */
  function TraceStage(c: Case, v: Verdict, j: nat): Stage {
    var blank := Stage(StageId(c, j), j, StageKind(c, j), Unmarked, None);
    match v
    case Allow => blank.(state := Pass)
    case Deny(gate, _, bad) =>
      if j < bad then blank.(state := Pass)
      else if j == bad then blank.(state := Denied, gate := Some(gate))
      else blank.(state := NotEvaluated)
  }

  ghost predicate Traced(c: Case, v: Verdict, stages: seq<Stage>) {
    |stages| == |c.edges| + 2 && forall j :: 0 <= j < |stages| ==> stages[j] == TraceStage(c, v, j)
  }

  // ---------------------------------------------------------------- the evaluator

  ghost predicate BlankStages(c: Case, stages: seq<Stage>) {
    && |stages| == |c.edges| + 2
    && forall j :: 0 <= j < |stages| ==> stages[j] == Stage(StageId(c, j), j, StageKind(c, j), Unmarked, None)
  }

  method MarkDenied(ghost c: Case, gate: string, stageId: string, stageIndex: nat, stages: array<Stage>)
    returns (v: Verdict)
    requires BlankStages(c, stages[..])
    modifies stages
    ensures v == Deny(gate, stageId, stageIndex)
    ensures Traced(c, v, stages[..])
  {
    v := Deny(gate, stageId, stageIndex);
    for i := 0 to stages.Length
      invariant forall j :: 0 <= j < i ==> stages[j] == TraceStage(c, v, j)
      invariant forall j :: i <= j < stages.Length ==> stages[j] == old(stages[..])[j]
    {
      assert stages[i] == old(stages[..])[i];
      if stages[i].index < stageIndex {
        stages[i] := stages[i].(state := Pass);
      } else if stages[i].index == stageIndex {
        stages[i] := stages[i].(state := Denied, gate := Some(gate));
      } else {
        stages[i] := stages[i].(state := NotEvaluated);
      }
    }
  }

  method MarkPassed(ghost c: Case, stages: array<Stage>)
    requires BlankStages(c, stages[..])
    modifies stages
    ensures Traced(c, Allow, stages[..])
  {
    for i := 0 to stages.Length
      invariant forall j :: 0 <= j < i ==> stages[j] == TraceStage(c, Allow, j)
      invariant forall j :: i <= j < stages.Length ==> stages[j] == old(stages[..])[j]
    {
      stages[i] := stages[i].(state := Pass);
    }
  }

  method Evaluate(c: Case, base: Base, effectTime: string) returns (v: Verdict, stages: array<Stage>)
    ensures Judged(c, base, effectTime, v)
    ensures Traced(c, v, stages[..])
  {
    var n := |c.edges|;
    stages := new Stage[n + 2](j requires 0 <= j => Stage(StageId(c, j), j, StageKind(c, j), Unmarked, None));
    if !c.protocolValid {
      v := MarkDenied(c, "protocol.valid", "edge-0", 0, stages);
      return;
    }
    var parentPrincipal := base.rootPrincipal;
    var parentRole := base.rootRole;
    var parentScope := base.scope;
    for index := 0 to n
      invariant parentPrincipal == ParentPrincipal(c, base, index)
      invariant parentRole == ParentRole(c, base, index)
      invariant parentScope == ParentScope(c, base, index)
      invariant PassesUpTo(c, base, effectTime, index)
      invariant BlankStages(c, stages[..])
    {
      var edge := c.edges[index];
      var gate := EdgeGate(base, effectTime, index, parentPrincipal, parentRole, parentScope, edge);
      assert gate == StageGate(c, base, effectTime, index);
      if gate.Some? {
        v := MarkDenied(c, gate.value, edge.id, index, stages);
        return;
      }
      parentPrincipal := edge.delegate;
      parentRole := edge.toRole;
      parentScope := edge.grant;
    }
    var actionGate := ActionGate(c.action, parentPrincipal, parentRole, parentScope);
    if actionGate.Some? {
      v := MarkDenied(c, actionGate.value, "action", n, stages);
      return;
    }
    var effectGate := EffectGate(c.receipt, c.action, effectTime);
    if effectGate.Some? {
      v := MarkDenied(c, effectGate.value, "effect", n + 1, stages);
      return;
    }
    MarkPassed(c, stages);
    v := Allow;
  }

  // ---------------------------------------------------------------- localization

  /** The answer is unique, so the evaluator's contract fixes it. */
  lemma VerdictIsUnique(c: Case, base: Base, effectTime: string, v: Verdict, w: Verdict)
    requires Judged(c, base, effectTime, v) && Judged(c, base, effectTime, w)
    ensures v == w
  {
    if c.protocolValid && v.Deny? && w.Deny? {
      assert v.stageIndex == w.stageIndex;
    }
  }

  /**
   * The trace tells each stage's fate from the stages alone: passed when it and all before it pass, denied when it is
   * the first that does not, not evaluated after that.
   */
  lemma TraceExactly(c: Case, base: Base, effectTime: string, v: Verdict, stages: seq<Stage>, j: nat)
    requires c.protocolValid && Judged(c, base, effectTime, v) && Traced(c, v, stages) && j < |stages|
    ensures stages[j].state == Pass <==> PassesUpTo(c, base, effectTime, j + 1)
    ensures stages[j].state == Denied <==> PassesUpTo(c, base, effectTime, j) && !PassesUpTo(c, base, effectTime, j + 1)
    ensures stages[j].state == NotEvaluated <==> !PassesUpTo(c, base, effectTime, j)
    ensures stages[j].gate == if stages[j].state == Denied then StageGate(c, base, effectTime, j) else None
    ensures stages[j].index == j
    ensures stages[j].id == if j < |c.edges| then c.edges[j].id else if j == |c.edges| then "action" else "effect"
    ensures stages[j].kind == if j < |c.edges| then "delegation_edge" else stages[j].id
  {
    if v.Deny? {
      assert StageGate(c, base, effectTime, v.stageIndex) != None;
    }
  }

  /** An invalid protocol denies at stage 0 and evaluates nothing else. */
  lemma InvalidProtocolTrace(c: Case, base: Base, effectTime: string, v: Verdict, stages: seq<Stage>, j: nat)
    requires !c.protocolValid && Judged(c, base, effectTime, v) && Traced(c, v, stages) && j < |stages|
    ensures stages[j].state == if j == 0 then Denied else NotEvaluated
    ensures stages[j].gate == if j == 0 then Some("protocol.valid") else None
  {}

  /** A denial at an edge is decided by the protocol flag and the edges up to it, whatever comes after. */
  lemma DenialIsLocal(c: Case, d: Case, base: Base, effectTime: string, v: Verdict)
    requires Judged(c, base, effectTime, v) && v.Deny? && v.stageIndex < |c.edges|
    requires c.protocolValid == d.protocolValid && |d.edges| > v.stageIndex
    requires c.edges[..v.stageIndex + 1] == d.edges[..v.stageIndex + 1]
    ensures Judged(d, base, effectTime, v)
  {
    var j := v.stageIndex;
    assert forall i :: 0 <= i <= j ==> c.edges[i] == c.edges[..j + 1][i] == d.edges[i];
    forall i | 0 <= i <= j
      ensures StageGate(c, base, effectTime, i) == StageGate(d, base, effectTime, i)
    {}
  }

  // ---------------------------------------------------------------- built cases

  const WINDOW_START := "2026-07-25T00:00:00Z"
  const WINDOW_END := "2026-07-26T00:00:00Z"

  function Decimal(n: nat): string {
    if n < 10 then [Digit(n)] else Decimal(n / 10) + [Digit(n % 10)]
  }

  /** `roles[:hops]`, negative counts included. */
  function Hops(roles: seq<string>, hops: int): seq<string> {
    if hops >= |roles| then roles
    else if hops >= 0 then roles[..hops]
    else if |roles| + hops >= 0 then roles[..|roles| + hops]
    else []
  }

  /** The slice is a prefix; a negative count is taken off the end. */
  lemma HopsIsSlice(roles: seq<string>, hops: int)
    ensures Hops(roles, hops) <= roles
    ensures 0 <= hops <= |roles| ==> |Hops(roles, hops)| == hops
    ensures hops > |roles| ==> Hops(roles, hops) == roles
    ensures -|roles| <= hops < 0 ==> |Hops(roles, hops)| == |roles| + hops
    ensures hops < -|roles| ==> Hops(roles, hops) == []
  {}

  function DelegatorAt(base: Base, i: nat): string {
    if i == 0 then base.rootPrincipal else "agent-" + Decimal(i)
  }

  function RoleAt(base: Base, roles: seq<string>, i: nat): string
    requires i <= |roles|
  {
    if i == 0 then base.rootRole else roles[i - 1]
  }

  function BuiltEdge(base: Base, roles: seq<string>, i: nat): Edge
    requires i < |roles|
  {
    Edge("edge-" + Decimal(i), DelegatorAt(base, i), "agent-" + Decimal(i + 1), RoleAt(base, roles, i), roles[i],
         true, "active", WINDOW_START, WINDOW_END, base.scope)
  }

  ghost predicate Built(base: Base, hops: int, effectTime: string, c: Case) {
    var roles := Hops(base.rolePath, hops);
    var action := base.action.(subject := DelegatorAt(base, |roles|), role := RoleAt(base, roles, |roles|));
    && c.protocolValid
    && |c.edges| == |roles|
    && (forall i :: 0 <= i < |roles| ==> c.edges[i] == BuiltEdge(base, roles, i))
    && c.action == action
    && c.receipt == Receipt(true, effectTime, action)
  }

  method BuildCase(base: Base, hops: int, effectTime: string) returns (c: Case)
    ensures Built(base, hops, effectTime, c)
  {
    var roles := Hops(base.rolePath, hops);
    var edges: seq<Edge> := [];
    var delegator := base.rootPrincipal;
    var fromRole := base.rootRole;
    for index := 0 to |roles|
      invariant |edges| == index
      invariant delegator == DelegatorAt(base, index) && fromRole == RoleAt(base, roles, index)
      invariant forall i :: 0 <= i < index ==> edges[i] == BuiltEdge(base, roles, i)
    {
      var delegate := "agent-" + Decimal(index + 1);
      edges := edges + [Edge("edge-" + Decimal(index), delegator, delegate, fromRole, roles[index], true, "active",
                             WINDOW_START, WINDOW_END, base.scope)];
      delegator := delegate;
      fromRole := roles[index];
    }
    var action := base.action.(subject := delegator, role := fromRole);
    c := Case(true, edges, action, Receipt(true, effectTime, action));
  }

  /** The base, the number of hops and the time for which a built case is sound. */
  ghost predicate SoundBase(base: Base, hops: int, effectTime: string) {
    var roles := Hops(base.rolePath, hops);
    && (forall i :: 0 <= i < |roles| ==> roles[i] in AllowedRoles(base, RoleAt(base, roles, i)))
    && (|roles| > 0 ==> Within(WINDOW_START, effectTime, WINDOW_END))
    && (|roles| > 1 ==> base.scope.delegable)
    && ActionGate(base.action, base.action.subject, base.action.role, base.scope) == None
  }

  /** What edge i of a built case needs. */
  ghost predicate SoundEdge(base: Base, roles: seq<string>, effectTime: string, i: nat)
    requires i < |roles|
  {
    && (i > 0 ==> base.scope.delegable) && roles[i] in AllowedRoles(base, RoleAt(base, roles, i))
    && Within(WINDOW_START, effectTime, WINDOW_END)
  }

  lemma BuiltEdgePasses(base: Base, hops: int, effectTime: string, c: Case, i: nat)
    requires Built(base, hops, effectTime, c) && i < |Hops(base.rolePath, hops)|
    ensures StageGate(c, base, effectTime, i) == None <==> SoundEdge(base, Hops(base.rolePath, hops), effectTime, i)
  {
    var roles := Hops(base.rolePath, hops);
    assert c.edges[i] == BuiltEdge(base, roles, i);
    assert i > 0 ==> c.edges[i - 1] == BuiltEdge(base, roles, i - 1);
  }

  lemma BuiltEndPasses(base: Base, hops: int, effectTime: string, c: Case)
    requires Built(base, hops, effectTime, c)
    ensures var n := |c.edges|;
            && (StageGate(c, base, effectTime, n) == None <==>
                ActionGate(base.action, base.action.subject, base.action.role, base.scope) == None)
            && StageGate(c, base, effectTime, n + 1) == None
  {
    var roles, n := Hops(base.rolePath, hops), |c.edges|;
    assert n > 0 ==> c.edges[n - 1] == BuiltEdge(base, roles, n - 1);
  }

  lemma SoundEdges(base: Base, hops: int, effectTime: string)
    ensures var roles := Hops(base.rolePath, hops);
            SoundBase(base, hops, effectTime) <==>
            (forall i :: 0 <= i < |roles| ==> SoundEdge(base, roles, effectTime, i))
            && ActionGate(base.action, base.action.subject, base.action.role, base.scope) == None
  {
    var roles := Hops(base.rolePath, hops);
    if forall i :: 0 <= i < |roles| ==> SoundEdge(base, roles, effectTime, i) {
      assert |roles| > 0 ==> SoundEdge(base, roles, effectTime, 0);
      assert |roles| > 1 ==> SoundEdge(base, roles, effectTime, 1);
      forall i | 0 <= i < |roles| ensures roles[i] in AllowedRoles(base, RoleAt(base, roles, i)) {
        assert SoundEdge(base, roles, effectTime, i);
      }
    }
  }

  /** A built case is allowed exactly when its base is sound. */
  lemma BuiltCaseExactly(base: Base, hops: int, effectTime: string, c: Case)
    requires Built(base, hops, effectTime, c)
    ensures Judged(c, base, effectTime, Allow) <==> SoundBase(base, hops, effectTime)
  {
    var roles := Hops(base.rolePath, hops);
    SoundEdges(base, hops, effectTime);
    BuiltEndPasses(base, hops, effectTime, c);
    forall i | 0 <= i < |roles|
      ensures StageGate(c, base, effectTime, i) == None <==> SoundEdge(base, roles, effectTime, i)
    {
      BuiltEdgePasses(base, hops, effectTime, c, i);
    }
  }

  // ---------------------------------------------------------------- narrowing

  /** Everything a grant permits, its parent permits. */
  predicate Narrows(child: Scope, parent: Scope) {
    && SubsetOf(child.operations, parent.operations) && SubsetOf(child.resources, parent.resources)
    && SubsetOf(child.tools, parent.tools) && SubsetOf(child.audiences, parent.audiences)
    && SubsetOf(child.purposes, parent.purposes) && child.currency == parent.currency
    && child.amountMax.Magnitude() <= parent.amountMax.Magnitude()
  }

  /** On an allowed path the scope after k edges narrows the scope after every i <= k edges. */
  lemma {:induction false} ScopesNarrow(c: Case, base: Base, effectTime: string, i: nat, k: nat)
    requires c.protocolValid && Judged(c, base, effectTime, Allow) && i <= k <= |c.edges|
    ensures Narrows(ParentScope(c, base, k), ParentScope(c, base, i))
    decreases k - i
  {
    if i < k {
      ScopesNarrow(c, base, effectTime, i + 1, k);
      assert StageGate(c, base, effectTime, i) == None;
    }
  }

  // ---------------------------------------------------------------- the names in a built case

  function NumberOf(digits: string): nat
    requires forall i :: 0 <= i < |digits| ==> '0' <= digits[i] <= '9'
  {
    if digits == [] then 0
    else NumberOf(digits[..|digits| - 1]) * 10 + (digits[|digits| - 1] as int - '0' as int)
  }

  /** The decimal text of a number reads as that number, and starts with no zero it does not need. */
  lemma {:induction false} DecimalReads(n: nat)
    ensures forall i :: 0 <= i < |Decimal(n)| ==> '0' <= Decimal(n)[i] <= '9'
    ensures NumberOf(Decimal(n)) == n
    ensures |Decimal(n)| > 0 && (Decimal(n)[0] == '0' ==> n == 0)
  {
    if n < 10 {
      assert Decimal(n)[..0] == [];
    } else {
      DecimalReads(n / 10);
      assert Decimal(n)[..|Decimal(n)| - 1] == Decimal(n / 10);
    }
  }

  /** The case built for two hops, written out. */
  lemma TwoHops(base: Base, effectTime: string, c: Case)
    requires Built(base, 2, effectTime, c) && |base.rolePath| >= 2
    ensures var (r, s) := (base.rolePath[0], base.rolePath[1]);
            && c.edges == [
                 Edge("edge-0", base.rootPrincipal, "agent-1", base.rootRole, r, true, "active", "2026-07-25T00:00:00Z",
                      "2026-07-26T00:00:00Z", base.scope),
                 Edge("edge-1", "agent-1", "agent-2", r, s, true, "active", "2026-07-25T00:00:00Z",
                      "2026-07-26T00:00:00Z", base.scope)]
            && c.action == base.action.(subject := "agent-2", role := s)
            && c.receipt == Receipt(true, effectTime, c.action)
  {
    var roles := Hops(base.rolePath, 2);
    assert roles == base.rolePath[..2];
    assert c.edges[0] == BuiltEdge(base, roles, 0) && c.edges[1] == BuiltEdge(base, roles, 1);
    assert Decimal(0) == "0" && Decimal(1) == "1" && Decimal(2) == "2";
    assert "edge-" + "0" == "edge-0" && "edge-" + "1" == "edge-1";
    assert "agent-" + "1" == "agent-1" && "agent-" + "2" == "agent-2";
  }
}
