/** The composed decision: five layer results and the binding of the subjects they speak about. */
module Composition {
  import opened Wrappers
  import opened Lexicographic
  import opened Delegation

  // ---------------------------------------------------------------- the artefacts and their subjects

  datatype Policy = Policy(requiredEffect: Option<string>, requiredProfile: Option<string>)

  datatype Evidence = Evidence(effect: Option<string>, resource: Option<string>, issuedAt: Option<string>)

  datatype Measurement = Measurement(profileId: Option<string>)

  datatype CanonicalAction = CanonicalAction(
    effect: Option<string>, resource: Option<string>, operation: Option<string>, grantedTools: Option<seq<string>>,
    grantedResources: Option<seq<string>>, authorisedFrom: Option<string>, authorisedUntil: Option<string>,
    profile: Option<string>)

  datatype ObservedEffect = ObservedEffect(effect: Option<string>, resource: Option<string>, issuedAt: Option<string>,
                                           profile: Option<string>)

  datatype Subjects = Subjects(action: CanonicalAction, observed: ObservedEffect)

  function InsertSorted(x: string, sorted: seq<string>): seq<string> {
    if sorted == [] || Le(x, sorted[0]) then [x] + sorted else [sorted[0]] + InsertSorted(x, sorted[1..])
  }

  /** Python's `sorted` on strings. */
  function Sorted(values: seq<string>): seq<string> {
    if values == [] then [] else InsertSorted(values[0], Sorted(values[1..]))
  }

  function NotBefores(edges: seq<Edge>): (r: seq<string>)
    ensures |r| == |edges| && forall i :: 0 <= i < |edges| ==> r[i] == edges[i].notBefore
  {
    seq(|edges|, i requires 0 <= i < |edges| => edges[i].notBefore)
  }

  function ExpiresAts(edges: seq<Edge>): (r: seq<string>)
    ensures |r| == |edges| && forall i :: 0 <= i < |edges| ==> r[i] == edges[i].expiresAt
  {
    seq(|edges|, i requires 0 <= i < |edges| => edges[i].expiresAt)
  }

  /** None stands for the IndexError an empty path raises. */
  function CanonicalActionOf(policy: Option<Policy>, c: Case): Option<CanonicalAction> {
    if c.edges == [] then None
    else
      var terminal := c.edges[|c.edges| - 1].grant;
      Some(CanonicalAction(
        if policy.Some? then policy.value.requiredEffect else None,
        Some(c.action.resource),
        Some(c.action.operation),
        Some(Sorted(terminal.tools)),
        Some(Sorted(terminal.resources)),
        Some(Max(NotBefores(c.edges))),
        Some(Min(ExpiresAts(c.edges))),
        if policy.Some? then policy.value.requiredProfile else None))
  }

  function ObservedEffectOf(evidence: Evidence, measurement: Measurement): ObservedEffect {
    ObservedEffect(evidence.effect, evidence.resource, evidence.issuedAt, measurement.profileId)
  }

  function SubjectsOf(policy: Option<Policy>, c: Case, evidence: Evidence, measurement: Measurement): Option<Subjects> {
    match CanonicalActionOf(policy, c)
    case None => None
    case Some(action) => Some(Subjects(action, ObservedEffectOf(evidence, measurement)))
  }

  // ---------------------------------------------------------------- binding

  datatype Binding = Undetermined | EffectMismatch | ResourceMismatch | TimeMismatch | ProfileMismatch | Bound {
    function Gate(): string {
      match this
      case Undetermined => "binding.undetermined"
      case EffectMismatch => "binding.effect"
      case ResourceMismatch => "binding.resource"
      case TimeMismatch => "binding.time"
      case ProfileMismatch => "binding.measurement_profile"
      case Bound => "binding.verified"
    }
  }

  predicate Complete(s: Subjects) {
    && s.action.effect.Some? && s.action.resource.Some? && s.action.operation.Some? && s.action.grantedTools.Some?
    && s.action.grantedResources.Some? && s.action.authorisedFrom.Some? && s.action.authorisedUntil.Some?
    && s.action.profile.Some?
    && s.observed.effect.Some? && s.observed.resource.Some? && s.observed.issuedAt.Some? && s.observed.profile.Some?
  }

  function Bind(s: Subjects): Binding {
    var a, o := s.action, s.observed;
    if !Complete(s) then Undetermined
    else if !(o.effect == a.effect && o.effect.value in a.grantedTools.value) then EffectMismatch
    else if !(o.resource == a.resource && o.resource.value in a.grantedResources.value) then ResourceMismatch
    else if !Within(a.authorisedFrom.value, o.issuedAt.value, a.authorisedUntil.value) then TimeMismatch
    else if o.profile != a.profile then ProfileMismatch
    else Bound
  }

  // ---------------------------------------------------------------- the composed decision

  datatype Layer = PolicyLayer | EvidenceLayer | StateLayer | AuthorityLayer | MeasurementLayer

  datatype PolicyResult = PolicyPass | PolicyMissing | PolicyStale | PolicySubstituted | PolicyInvalidSignature

  datatype EvidenceResult = EvidencePass | EvidenceTampered | EvidenceReplay

  datatype StateResult = StatePass | StateContraindicated | StateStale | StateReferenceMismatch

  datatype MeasurementResult = MeasurementPass | MeasurementFailPoint | MeasurementFailLcb | MeasurementProfileMismatch

  datatype Layers = Layers(policy: PolicyResult, evidence: EvidenceResult, state: StateResult, authority: Verdict,
                           measurement: MeasurementResult)

  datatype Composed = Composed(allow: bool, firstGate: string, failedLayers: seq<Layer>, binding: Binding)

  predicate LayerPasses(r: Layers, layer: Layer) {
    match layer
    case PolicyLayer => r.policy == PolicyPass
    case EvidenceLayer => r.evidence == EvidencePass
    case StateLayer => r.state == StatePass
    case AuthorityLayer => r.authority == Allow
    case MeasurementLayer => r.measurement == MeasurementPass
  }

  const EVALUATION_ORDER := [PolicyLayer, EvidenceLayer, StateLayer, AuthorityLayer, MeasurementLayer]

  function Failed(r: Layers, order: seq<Layer>): seq<Layer> {
    if order == [] then []
    else (if LayerPasses(r, order[0]) then [] else [order[0]]) + Failed(r, order[1..])
  }

  /** The gate a failing layer reports for itself. */
  function GateOf(r: Layers, layer: Layer): string {
    match layer
    case PolicyLayer =>
      (match r.policy
       case PolicyMissing => "policy.missing"
       case PolicyStale => "policy.stale"
       case PolicySubstituted => "policy.substituted"
       case _ => "policy.signature")
    case EvidenceLayer => if r.evidence == EvidenceTampered then "evidence.integrity" else "evidence.replay"
    case StateLayer =>
      (match r.state
       case StateContraindicated => "state.contraindicated"
       case StateStale => "state.stale"
       case _ => "state.reference")
    case AuthorityLayer => if r.authority.Deny? then r.authority.gate else "verified"
    case MeasurementLayer =>
      (match r.measurement
       case MeasurementFailPoint => "measurement.point"
       case MeasurementFailLcb => "measurement.confidence"
       case _ => "measurement.profile")
  }

  function FirstGate(r: Layers, binding: Binding): string {
    if r.policy != PolicyPass then GateOf(r, PolicyLayer)
    else if r.evidence != EvidencePass then GateOf(r, EvidenceLayer)
    else if r.state != StatePass then GateOf(r, StateLayer)
    else if r.authority != Allow then GateOf(r, AuthorityLayer)
    else if r.measurement != MeasurementPass then GateOf(r, MeasurementLayer)
    else if binding != Bound then binding.Gate()
    else "verified"
  }

  function Compose(r: Layers, s: Subjects): Composed {
    var failed, binding := Failed(r, EVALUATION_ORDER), Bind(s);
    Composed(failed == [] && binding == Bound, FirstGate(r, binding), failed, binding)
  }

  /** One answer for each way subjects that bind can be broken in one place. */
  lemma BrokenBinding(s: Subjects, name: string)
    requires Bind(s) == Bound
    ensures name != s.action.effect.value ==>
              Bind(s.(observed := s.observed.(effect := Some(name)))) == EffectMismatch
    ensures name != s.observed.effect.value ==>
              Bind(s.(action := s.action.(grantedTools := Some([name])))) == EffectMismatch
    ensures name != s.action.resource.value ==>
              Bind(s.(observed := s.observed.(resource := Some(name)))) == ResourceMismatch
    ensures name != s.observed.resource.value ==>
              Bind(s.(action := s.action.(grantedResources := Some([name])))) == ResourceMismatch
    ensures !Within(s.action.authorisedFrom.value, name, s.action.authorisedUntil.value) ==>
              Bind(s.(observed := s.observed.(issuedAt := Some(name)))) == TimeMismatch
    ensures name != s.action.profile.value ==>
              Bind(s.(observed := s.observed.(profile := Some(name)))) == ProfileMismatch
  {}

  /** Nothing is decided about subjects with a missing part, whatever the others say. */
  lemma MissingIsUndetermined(s: Subjects)
    ensures Bind(s) == Undetermined <==>
            || None in [s.action.effect, s.action.resource, s.action.operation, s.action.authorisedFrom,
                        s.action.authorisedUntil, s.action.profile]
            || None in [s.action.grantedTools, s.action.grantedResources]
            || None in [s.observed.effect, s.observed.resource, s.observed.issuedAt, s.observed.profile]
  {}

  /** One layer that fails where all others pass gives the composed decision its own gate. */
  lemma OneFailure(r: Layers, binding: Binding, v: Verdict)
    requires AllPass(r) && v.Deny?
    ensures FirstGate(r.(policy := PolicyMissing), binding) == "policy.missing"
    ensures FirstGate(r.(policy := PolicyStale), binding) == "policy.stale"
    ensures FirstGate(r.(policy := PolicySubstituted), binding) == "policy.substituted"
    ensures FirstGate(r.(policy := PolicyInvalidSignature), binding) == "policy.signature"
    ensures FirstGate(r.(evidence := EvidenceTampered), binding) == "evidence.integrity"
    ensures FirstGate(r.(evidence := EvidenceReplay), binding) == "evidence.replay"
    ensures FirstGate(r.(state := StateContraindicated), binding) == "state.contraindicated"
    ensures FirstGate(r.(state := StateStale), binding) == "state.stale"
    ensures FirstGate(r.(state := StateReferenceMismatch), binding) == "state.reference"
    ensures FirstGate(r.(authority := v), binding) == v.gate
    ensures FirstGate(r.(measurement := MeasurementFailPoint), binding) == "measurement.point"
    ensures FirstGate(r.(measurement := MeasurementFailLcb), binding) == "measurement.confidence"
    ensures FirstGate(r.(measurement := MeasurementProfileMismatch), binding) == "measurement.profile"
  {}

  /** Where every layer passes, the binding alone names the gate. */
  lemma OnlyTheJoinRefuses(r: Layers, s: Subjects)
    requires AllPass(r)
    ensures Compose(r, s).firstGate ==
            match Bind(s)
            case Undetermined => "binding.undetermined"
            case EffectMismatch => "binding.effect"
            case ResourceMismatch => "binding.resource"
            case TimeMismatch => "binding.time"
            case ProfileMismatch => "binding.measurement_profile"
            case Bound => "verified"
    ensures Bind(s) == Bound ==> Compose(r, s).binding.Gate() == "binding.verified"
  {}

  function Rank(layer: Layer): nat {
    match layer
    case PolicyLayer => 0
    case EvidenceLayer => 1
    case StateLayer => 2
    case AuthorityLayer => 3
    case MeasurementLayer => 4
  }

  predicate Ranked(layers: seq<Layer>) {
    forall i, j :: 0 <= i < j < |layers| ==> Rank(layers[i]) < Rank(layers[j])
  }

  lemma {:induction false} FailedKeepsOrder(r: Layers, order: seq<Layer>)
    requires Ranked(order)
    ensures Ranked(Failed(r, order))
  {
    if order != [] {
      FailedKeepsOrder(r, order[1..]);
      FailedExactly(r, order[1..]);
      forall layer | layer in Failed(r, order[1..]) ensures Rank(order[0]) < Rank(layer) {
        assert layer in order[1..];
      }
    }
  }

  /** The failed layers are listed in the order policy, evidence, state, authority, measurement. */
  lemma FailedInOrder(r: Layers, s: Subjects)
    ensures Ranked(Compose(r, s).failedLayers)
  {
    FailedKeepsOrder(r, EVALUATION_ORDER);
  }

  lemma {:induction false} FailedExactly(r: Layers, order: seq<Layer>)
    ensures forall layer :: layer in Failed(r, order) <==> layer in order && !LayerPasses(r, layer)
  {
    if order != [] {
      FailedExactly(r, order[1..]);
    }
  }

  lemma FailedLayersExactly(r: Layers)
    ensures forall layer :: layer in Failed(r, EVALUATION_ORDER) <==> !LayerPasses(r, layer)
    ensures Failed(r, EVALUATION_ORDER) == [] <==> forall layer :: LayerPasses(r, layer)
  {
    FailedExactly(r, EVALUATION_ORDER);
    forall layer: Layer
      ensures layer in EVALUATION_ORDER
    {
      var order := EVALUATION_ORDER;
      match layer {
        case PolicyLayer => assert order[0] == layer;
        case EvidenceLayer => assert order[1] == layer;
        case StateLayer => assert order[2] == layer;
        case AuthorityLayer => assert order[3] == layer;
        case MeasurementLayer => assert order[4] == layer;
      }
    }
    if forall layer :: LayerPasses(r, layer) {
      assert |Failed(r, EVALUATION_ORDER)| > 0 ==> Failed(r, EVALUATION_ORDER)[0] in Failed(r, EVALUATION_ORDER);
    }
  }

  predicate AllPass(r: Layers) {
    && r.policy == PolicyPass && r.evidence == EvidencePass && r.state == StatePass && r.authority == Allow
    && r.measurement == MeasurementPass
  }

  lemma AllPassExactly(r: Layers)
    ensures AllPass(r) <==> forall layer :: LayerPasses(r, layer)
  {
    assert LayerPasses(r, PolicyLayer) <==> r.policy == PolicyPass;
    assert LayerPasses(r, EvidenceLayer) <==> r.evidence == EvidencePass;
    assert LayerPasses(r, StateLayer) <==> r.state == StatePass;
    assert LayerPasses(r, AuthorityLayer) <==> r.authority == Allow;
    assert LayerPasses(r, MeasurementLayer) <==> r.measurement == MeasurementPass;
  }

  /** A caller may report an authority denial under any text, even this one. */
  predicate DeniedAsVerified(r: Layers) {
    && r.policy == PolicyPass && r.evidence == EvidencePass && r.state == StatePass
    && r.authority.Deny? && r.authority.gate == "verified"
  }

  /** When the first gate says "verified". */
  lemma FirstGateExactly(r: Layers, binding: Binding)
    ensures FirstGate(r, binding) == "verified" <==> (AllPass(r) && binding == Bound) || DeniedAsVerified(r)
  {
    var gate := FirstGate(r, binding);
    if r.policy != PolicyPass {
      assert gate[0] == 'p';
    } else if r.evidence != EvidencePass {
      assert gate[0] == 'e';
    } else if r.state != StatePass {
      assert gate[0] == 's';
    } else if r.authority == Allow && r.measurement != MeasurementPass {
      assert gate[0] == 'm';
    } else if r.authority == Allow && binding != Bound {
      assert gate[0] == 'b';
    }
  }

  /**
   * The conjunction cannot be compensated: ALLOW needs every layer and the binding. No failed layer and a
   * denial means the join alone refused; and the first gate says "verified" exactly on ALLOW, or when the
   * authority denial it reports was given that text.
   */
  lemma ComposeExactly(r: Layers, s: Subjects)
    ensures var d := Compose(r, s);
            && (d.allow <==> (forall layer :: LayerPasses(r, layer)) && Bind(s) == Bound)
            && (d.firstGate == "verified" <==> d.allow || DeniedAsVerified(r))
            && (d.failedLayers == [] && !d.allow <==> (forall layer :: LayerPasses(r, layer)) && Bind(s) != Bound)
  {
    FailedLayersExactly(r);
    AllPassExactly(r);
    FirstGateExactly(r, Bind(s));
  }

  lemma EdgeGateStart(base: Base, effectTime: string, index: nat, principal: string, role: string, scope: Scope,
                      edge: Edge)
    ensures var gate := EdgeGate(base, effectTime, index, principal, role, scope, edge);
            gate.Some? ==> |gate.value| > 0 && gate.value[0] == 'e'
  {}

  lemma EndGateStart(action: Action, principal: string, role: string, scope: Scope, receipt: Receipt, effectTime: string)
    ensures var gate := ActionGate(action, principal, role, scope);
            gate.Some? ==> |gate.value| > 0 && gate.value[0] == 'a'
    ensures var gate := EffectGate(receipt, action, effectTime);
            gate.Some? ==> |gate.value| > 0 && gate.value[0] == 'e'
  {}

  /** The path evaluator never denies under the gate "verified". */
  lemma DenialHasItsOwnGate(c: Case, base: Base, effectTime: string, v: Verdict)
    requires Judged(c, base, effectTime, v) && v.Deny?
    ensures v.gate != "verified"
  {
    if !c.protocolValid {
      assert v.gate[0] == 'p';
    } else {
      var j, n := v.stageIndex, |c.edges|;
      if j < n {
        EdgeGateStart(base, effectTime, j, ParentPrincipal(c, base, j), ParentRole(c, base, j), ParentScope(c, base, j),
                      c.edges[j]);
      } else {
        EndGateStart(c.action, ParentPrincipal(c, base, n), ParentRole(c, base, n), ParentScope(c, base, n), c.receipt,
                     effectTime);
      }
    }
  }

  /** With the path evaluator's verdict the first gate says "verified" exactly on ALLOW. */
  lemma VerifiedIsAllow(r: Layers, s: Subjects, c: Case, base: Base, effectTime: string)
    requires Judged(c, base, effectTime, r.authority)
    ensures Compose(r, s).firstGate == "verified" <==> Compose(r, s).allow
  {
    ComposeExactly(r, s);
    if r.authority.Deny? {
      DenialHasItsOwnGate(c, base, effectTime, r.authority);
    }
  }

  lemma FailedHead(r: Layers, layer: Layer, rest: seq<Layer>)
    ensures Failed(r, [layer] + rest) == (if LayerPasses(r, layer) then [] else [layer]) + Failed(r, rest)
  {
    assert ([layer] + rest)[1..] == rest;
  }

  /** The list is empty, or starts with the first layer in evaluation order that fails. */
  lemma FailedStarts(r: Layers)
    ensures var failed := Failed(r, EVALUATION_ORDER);
            if r.policy != PolicyPass then failed != [] && failed[0] == PolicyLayer
            else if r.evidence != EvidencePass then failed != [] && failed[0] == EvidenceLayer
            else if r.state != StatePass then failed != [] && failed[0] == StateLayer
            else if r.authority != Allow then failed != [] && failed[0] == AuthorityLayer
            else if r.measurement != MeasurementPass then failed != [] && failed[0] == MeasurementLayer
            else failed == []
  {
    var l4 := [MeasurementLayer];
    var l3 := [AuthorityLayer] + l4;
    var l2 := [StateLayer] + l3;
    var l1 := [EvidenceLayer] + l2;
    assert EVALUATION_ORDER == [PolicyLayer] + l1;
    assert l4 == [MeasurementLayer] + [];
    FailedHead(r, PolicyLayer, l1);
    FailedHead(r, EvidenceLayer, l2);
    FailedHead(r, StateLayer, l3);
    FailedHead(r, AuthorityLayer, l4);
    FailedHead(r, MeasurementLayer, []);
  }

  /** The first gate is the gate of the first failed layer; the binding speaks only when every layer passes. */
  lemma FirstGateIsOfFirstFailed(r: Layers, s: Subjects)
    ensures var d := Compose(r, s);
            d.firstGate == if d.failedLayers != [] then GateOf(r, d.failedLayers[0])
                           else if d.binding != Bound then d.binding.Gate()
                           else "verified"
  {
    FailedStarts(r);
  }

  // ---------------------------------------------------------------- binding, over the artefacts

  lemma {:induction false} InsertSortedMembers(x: string, sorted: seq<string>)
    ensures forall y :: y in InsertSorted(x, sorted) <==> y == x || y in sorted
  {
    if sorted != [] && !Le(x, sorted[0]) {
      InsertSortedMembers(x, sorted[1..]);
    }
  }

  lemma {:induction false} SortedMembers(values: seq<string>)
    ensures forall y :: y in Sorted(values) <==> y in values
  {
    if values != [] {
      SortedMembers(values[1..]);
      InsertSortedMembers(values[0], Sorted(values[1..]));
    }
  }

  predicate IsSorted(values: seq<string>) {
    forall i, j {:trigger Le(values[i], values[j])} :: 0 <= i < j < |values| ==> Le(values[i], values[j])
  }

  lemma {:induction false} InsertKeepsSorted(x: string, sorted: seq<string>)
    requires IsSorted(sorted)
    ensures IsSorted(InsertSorted(x, sorted)) && multiset(InsertSorted(x, sorted)) == multiset(sorted) + multiset{x}
  {
    if sorted != [] {
      assert sorted == [sorted[0]] + sorted[1..];
      if Le(x, sorted[0]) {
        forall j | 0 <= j < |sorted| ensures Le(x, sorted[j]) {
          LeReflexive(sorted[0]);
          LeTransitive(x, sorted[0], sorted[j]);
        }
      } else {
        InsertKeepsSorted(x, sorted[1..]);
        LeTotal(x, sorted[0]);
        InsertSortedMembers(x, sorted[1..]);
        var rest := InsertSorted(x, sorted[1..]);
        forall j | 0 <= j < |rest| ensures Le(sorted[0], rest[j]) {
          assert rest[j] in rest;
        }
      }
    }
  }

  /** The sorted list is in order, and has every entry as often as the list had it. */
  lemma {:induction false} SortedIsSorted(values: seq<string>)
    ensures IsSorted(Sorted(values)) && multiset(Sorted(values)) == multiset(values)
  {
    if values != [] {
      SortedIsSorted(values[1..]);
      InsertKeepsSorted(values[0], Sorted(values[1..]));
      assert values == [values[0]] + values[1..];
    }
  }

  /** The subjects are taken from the policy, the action, the last grant and the windows of all grants. */
  lemma SubjectsExactly(policy: Option<Policy>, c: Case, evidence: Evidence, measurement: Measurement, time: string)
    ensures SubjectsOf(policy, c, evidence, measurement) == None <==> c.edges == []
    ensures c.edges != [] ==>
              var (a, o) := (SubjectsOf(policy, c, evidence, measurement).value.action,
                             SubjectsOf(policy, c, evidence, measurement).value.observed);
              var terminal := c.edges[|c.edges| - 1].grant;
              && a.resource == Some(c.action.resource) && a.operation == Some(c.action.operation)
              && (policy == None ==> a.effect == None && a.profile == None)
              && (policy.Some? ==> a.effect == policy.value.requiredEffect && a.profile == policy.value.requiredProfile)
              && a.grantedTools.Some? && IsSorted(a.grantedTools.value)
              && multiset(a.grantedTools.value) == multiset(terminal.tools)
              && a.grantedResources.Some? && IsSorted(a.grantedResources.value)
              && multiset(a.grantedResources.value) == multiset(terminal.resources)
              && a.authorisedFrom.Some? && a.authorisedUntil.Some?
              && (Within(a.authorisedFrom.value, time, a.authorisedUntil.value) <==>
                  forall e :: e in c.edges ==> Within(e.notBefore, time, e.expiresAt))
              && o == ObservedEffect(evidence.effect, evidence.resource, evidence.issuedAt, measurement.profileId)
  {
    if c.edges != [] {
      SortedIsSorted(c.edges[|c.edges| - 1].grant.tools);
      SortedIsSorted(c.edges[|c.edges| - 1].grant.resources);
      WindowIsIntersection(c.edges, time);
    }
  }

  /** What binding means for the artefacts: agreement with the policy, the terminal grant, and every window. */
  ghost predicate Agreement(policy: Option<Policy>, c: Case, evidence: Evidence, measurement: Measurement)
    requires c.edges != []
  {
    var terminal := c.edges[|c.edges| - 1].grant;
    && policy.Some? && evidence.effect.Some? && evidence.resource.Some? && evidence.issuedAt.Some?
    && measurement.profileId.Some?
    && policy.value.requiredEffect == evidence.effect
    && policy.value.requiredProfile == measurement.profileId
    && evidence.effect.value in terminal.tools
    && evidence.resource.value == c.action.resource && evidence.resource.value in terminal.resources
    && (forall e :: e in c.edges ==> Within(e.notBefore, evidence.issuedAt.value, e.expiresAt))
  }

  lemma WindowIsIntersection(edges: seq<Edge>, time: string)
    requires edges != []
    ensures Within(Max(NotBefores(edges)), time, Min(ExpiresAts(edges))) <==>
            forall e :: e in edges ==> Within(e.notBefore, time, e.expiresAt)
  {
    MaxBounds(NotBefores(edges), time);
    MinBounds(ExpiresAts(edges), time);
    if forall e :: e in edges ==> Within(e.notBefore, time, e.expiresAt) {
      assert forall i :: 0 <= i < |edges| ==> edges[i] in edges;
    }
  }

  lemma BindExactly(policy: Option<Policy>, c: Case, evidence: Evidence, measurement: Measurement)
    requires c.edges != []
    ensures Bind(SubjectsOf(policy, c, evidence, measurement).value) == Bound <==>
            Agreement(policy, c, evidence, measurement)
  {
    var terminal := c.edges[|c.edges| - 1].grant;
    SortedMembers(terminal.tools);
    SortedMembers(terminal.resources);
    if evidence.issuedAt.Some? {
      WindowIsIntersection(c.edges, evidence.issuedAt.value);
    }
  }

  /** On an allowed path whatever the terminal grant holds, every grant and the root scope hold. */
  lemma TerminalIsEverywhere(c: Case, base: Base, effectTime: string, tool: string, resource: string, i: nat)
    requires c.edges != [] && c.protocolValid && Judged(c, base, effectTime, Allow) && i <= |c.edges|
    requires tool in c.edges[|c.edges| - 1].grant.tools && resource in c.edges[|c.edges| - 1].grant.resources
    ensures tool in ParentScope(c, base, i).tools && resource in ParentScope(c, base, i).resources
  {
    ScopesNarrow(c, base, effectTime, i, |c.edges|);
  }

  lemma EdgeHolds(c: Case, base: Base, effectTime: string, tool: string, resource: string, i: nat)
    requires c.edges != [] && c.protocolValid && Judged(c, base, effectTime, Allow) && i < |c.edges|
    requires tool in c.edges[|c.edges| - 1].grant.tools && resource in c.edges[|c.edges| - 1].grant.resources
    ensures tool in c.edges[i].grant.tools && resource in c.edges[i].grant.resources
    ensures Within(c.edges[i].notBefore, effectTime, c.edges[i].expiresAt)
  {
    TerminalIsEverywhere(c, base, effectTime, tool, resource, i + 1);
    assert StageGate(c, base, effectTime, i) == None;
  }

  lemma AllowAgrees(r: Layers, policy: Option<Policy>, c: Case, evidence: Evidence, measurement: Measurement)
    requires c.edges != [] && Compose(r, SubjectsOf(policy, c, evidence, measurement).value).allow
    ensures r.authority == Allow && Agreement(policy, c, evidence, measurement)
  {
    FailedLayersExactly(r);
    assert LayerPasses(r, AuthorityLayer);
    BindExactly(policy, c, evidence, measurement);
  }

  /**
   * End to end: when the composed decision is ALLOW and its authority verdict is the path evaluator's on the
   * same nonempty path, the observed effect and resource lie in every grant of the path and in the root scope,
   * the evidence was issued inside every edge's window, and effect and profile are those the policy requires.
   */
  lemma AllowIsSafe(r: Layers, policy: Option<Policy>, c: Case, evidence: Evidence, measurement: Measurement,
                    base: Base, effectTime: string)
    requires c.edges != [] && Judged(c, base, effectTime, r.authority)
    requires Compose(r, SubjectsOf(policy, c, evidence, measurement).value).allow
    ensures policy.Some? && policy.value.requiredEffect == evidence.effect
    ensures policy.value.requiredProfile == measurement.profileId
    ensures evidence.effect.Some? && evidence.resource.Some? && evidence.issuedAt.Some?
    ensures evidence.effect.value in base.scope.tools && evidence.resource.value in base.scope.resources
    ensures forall i :: 0 <= i < |c.edges| ==>
              && evidence.effect.value in c.edges[i].grant.tools
              && evidence.resource.value in c.edges[i].grant.resources
              && Within(c.edges[i].notBefore, evidence.issuedAt.value, c.edges[i].expiresAt)
              && Within(c.edges[i].notBefore, effectTime, c.edges[i].expiresAt)
  {
    AllowAgrees(r, policy, c, evidence, measurement);
    var effect, resource := evidence.effect.value, evidence.resource.value;
    assert c.protocolValid;
    TerminalIsEverywhere(c, base, effectTime, effect, resource, 0);
    forall i | 0 <= i < |c.edges|
      ensures effect in c.edges[i].grant.tools && resource in c.edges[i].grant.resources
      ensures Within(c.edges[i].notBefore, evidence.issuedAt.value, c.edges[i].expiresAt)
      ensures Within(c.edges[i].notBefore, effectTime, c.edges[i].expiresAt)
    {
      EdgeHolds(c, base, effectTime, effect, resource, i);
      assert c.edges[i] in c.edges;
    }
  }
}
