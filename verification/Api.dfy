/** The objects of the fleet API group: PipelineConfigs and CollectorGroups (one `Resource`
    type, told apart by the kind in their key), CollectorGroupBindings and their status. */
module Api {

  datatype Option<+T> = None | Some(value: T)

  /* ---- conditions (metav1.Condition) ---- */

  datatype ConditionStatus = ConditionTrue | ConditionFalse | ConditionUnknown

  datatype Condition = Condition(kind: string, status: ConditionStatus, reason: string, observedGeneration: nat)

  const REFS_VALID := "RefsValid"
  const CONTENT_VALID := "ContentValid"

  /** `meta.SetStatusCondition`: replace the entry of that kind, or append one. */
  function SetCondition(cs: seq<Condition>, c: Condition): seq<Condition> {
    if cs == [] then [c]
    else if cs[0].kind == c.kind then [c] + cs[1..]
    else [cs[0]] + SetCondition(cs[1..], c)
  }

  /** `meta.FindStatusCondition`: the first entry of that kind. */
  function FindCondition(cs: seq<Condition>, kind: string): Option<Condition> {
    if cs == [] then None
    else if cs[0].kind == kind then Some(cs[0])
    else FindCondition(cs[1..], kind)
  }

  lemma {:induction false} FindAfterSet(cs: seq<Condition>, c: Condition, kind: string)
    ensures FindCondition(SetCondition(cs, c), kind) == if kind == c.kind then Some(c) else FindCondition(cs, kind)
  {
    if cs != [] && cs[0].kind != c.kind {
      FindAfterSet(cs[1..], c, kind);
      assert SetCondition(cs, c)[1..] == SetCondition(cs[1..], c);
    } else if cs != [] {
      assert SetCondition(cs, c)[1..] == cs[1..];
    }
  }

  /** `c` is the first entry of its kind. */
  predicate FirstOf(cs: seq<Condition>, c: Condition) {
    exists i :: 0 <= i < |cs| && cs[i] == c && forall j :: 0 <= j < i ==> cs[j].kind != c.kind
  }

  /** Looking a condition up finds the first entry of that kind. */
  lemma {:induction false} FindIsFirst(cs: seq<Condition>, kind: string)
    ensures forall c: Condition :: FindCondition(cs, kind) == Some(c) <==> c.kind == kind && FirstOf(cs, c)
  {
    if cs != [] {
      FindIsFirst(cs[1..], kind);
      forall c: Condition ensures FirstOf(cs, c) <==> cs[0] == c || (cs[0].kind != c.kind && FirstOf(cs[1..], c)) {
        FirstOfCons(cs, c);
      }
    }
  }

  lemma FirstOfCons(cs: seq<Condition>, c: Condition)
    requires cs != []
    ensures FirstOf(cs, c) <==> cs[0] == c || (cs[0].kind != c.kind && FirstOf(cs[1..], c))
  {
    if FirstOf(cs, c) {
      var i :| 0 <= i < |cs| && cs[i] == c && forall j :: 0 <= j < i ==> cs[j].kind != c.kind;
      if i > 0 {
        assert cs[1..][i - 1] == c && forall j :: 0 <= j < i - 1 ==> cs[1..][j] == cs[j + 1];
      }
    }
    if cs[0].kind != c.kind && FirstOf(cs[1..], c) {
      var i :| 0 <= i < |cs[1..]| && cs[1..][i] == c && forall j :: 0 <= j < i ==> cs[1..][j].kind != c.kind;
      assert cs[i + 1] == c && forall j :: 0 < j < i + 1 ==> cs[j] == cs[1..][j - 1];
    }
  }

  /** After setting a condition it is the first of its kind, and those of other kinds are as before. */
  lemma SetIsFirst(cs: seq<Condition>, c: Condition)
    ensures FirstOf(SetCondition(cs, c), c)
    ensures forall d: Condition :: d.kind != c.kind ==> (FirstOf(SetCondition(cs, c), d) <==> FirstOf(cs, d))
  {
    FindAfterSet(cs, c, c.kind);
    FindIsFirst(SetCondition(cs, c), c.kind);
    forall d: Condition | d.kind != c.kind ensures FirstOf(SetCondition(cs, c), d) <==> FirstOf(cs, d) {
      FindAfterSet(cs, c, d.kind);
      FindIsFirst(SetCondition(cs, c), d.kind);
      FindIsFirst(cs, d.kind);
    }
  }

  /* ---- shared metadata ---- */

  /** `finalizer` is the object's own protection finalizer; no other finalizers exist in the model. */
  datatype Meta = Meta(generation: nat, finalizer: bool, deleting: bool)

  /* ---- PipelineConfig and CollectorGroup ---- */

  datatype ResourceKind = PipelineConfig | CollectorGroup

  datatype ResourceKey = ResourceKey(kind: ResourceKind, ns: string, name: string)

  datatype ResourceSpec =
    | ConfigSpec(content: string, description: string)
    | GroupSpec(description: string)

  /** `contentHash` and `conditions` are used by PipelineConfigs only. */
  datatype ResourceStatus = ResourceStatus(
    activeBindings: int, observedGeneration: nat, contentHash: string, conditions: seq<Condition>)

  datatype Resource = Resource(meta: Meta, isDefault: bool, spec: ResourceSpec, status: ResourceStatus)

  predicate SpecOfKind(kind: ResourceKind, spec: ResourceSpec) {
    kind.PipelineConfig? <==> spec.ConfigSpec?
  }

  predicate ContentValid(r: Resource) {
    var c := FindCondition(r.status.conditions, CONTENT_VALID);
    c.Some? && c.value.status.ConditionTrue?
  }

  /** The status describes the spec that is stored now. */
  predicate Settled(r: Resource) {
    ContentValid(r) && r.status.observedGeneration == r.meta.generation
  }

  /* ---- CollectorGroupBinding ---- */

  datatype BindingKey = BindingKey(ns: string, name: string)

  datatype BindingSpec = BindingSpec(collectorGroupRef: string, tenantRef: string, pipelineConfigRef: string)

  /** The admission rule of the custom resource definition. */
  predicate ExactlyOneSelector(spec: BindingSpec) {
    (spec.collectorGroupRef != "") != (spec.tenantRef != "")
  }

  datatype Phase = Unset | Pending | Active | Degraded

  datatype Tenant = RegisteredTenant(id: string, collectorId: string, lastSeenAt: int)

  datatype BindingStatus = BindingStatus(
    phase: Phase, configHash: string, lastSyncedAt: int, conditions: seq<Condition>, observedGeneration: nat,
    boundPipelineConfigRef: string, boundCollectorGroupRef: string, registeredTenants: seq<Tenant>)

  datatype Binding = Binding(meta: Meta, spec: BindingSpec, status: BindingStatus)

  const NEW_BINDING_STATUS := BindingStatus(Unset, "", 0, [], 0, "", "", [])
  const NEW_RESOURCE_STATUS := ResourceStatus(0, 0, "", [])

  function DerivePhase(cs: seq<Condition>): Phase {
    var refsValid := FindCondition(cs, REFS_VALID);
    if refsValid.None? then Pending
    else if refsValid.value.status.ConditionTrue? then Active
    else Degraded
  }

  /** What a phase says: Active that the first RefsValid condition is True, Degraded that it is not, and
      Pending that there is none. */
  lemma PhaseMeaning(cs: seq<Condition>)
    ensures DerivePhase(cs).Active? <==> exists c :: FirstOf(cs, c) && c.kind == REFS_VALID && c.status.ConditionTrue?
    ensures DerivePhase(cs).Degraded? <==>
              exists c :: FirstOf(cs, c) && c.kind == REFS_VALID && !c.status.ConditionTrue?
    ensures DerivePhase(cs).Pending? <==> forall c: Condition :: c in cs ==> c.kind != REFS_VALID
  {
    FindIsFirst(cs, REFS_VALID);
    var found := FindCondition(cs, REFS_VALID);
    if found.Some? {
      assert FirstOf(cs, found.value);
      assert found.value in cs;
    } else {
      NoneOfKind(cs, REFS_VALID);
    }
  }

  lemma {:induction false} NoneOfKind(cs: seq<Condition>, kind: string)
    requires FindCondition(cs, kind).None?
    ensures forall c: Condition :: c in cs ==> c.kind != kind
  {
    if cs != [] { NoneOfKind(cs[1..], kind); }
  }

  function ConfigKey(bk: BindingKey, name: string): ResourceKey { ResourceKey(PipelineConfig, bk.ns, name) }
  function GroupKey(bk: BindingKey, name: string): ResourceKey { ResourceKey(CollectorGroup, bk.ns, name) }

  /** A pair of references, held by a binding of namespace `bk.ns`, names resource `k`. */
  predicate Names(bk: BindingKey, configRef: string, groupRef: string, k: ResourceKey) {
    && k.ns == bk.ns
    && k.name != ""
    && k.name == (if k.kind.PipelineConfig? then configRef else groupRef)
  }

  predicate BoundTo(bk: BindingKey, b: Binding, k: ResourceKey) {
    Names(bk, b.status.boundPipelineConfigRef, b.status.boundCollectorGroupRef, k)
  }

  predicate RefersTo(bk: BindingKey, b: Binding, k: ResourceKey) {
    Names(bk, b.spec.pipelineConfigRef, b.spec.collectorGroupRef, k)
  }
}
