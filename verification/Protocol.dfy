/** JSON merge patches (section 2 of RFC 7396) on the status of a binding, as `client.MergeFrom(base)`
    computes them: only the fields that differ from the base are sent, lists are replaced whole,
    and there is no version precondition. */
module MergePatch {
  import opened Api
  import opened Histories

  datatype StatusPatch = StatusPatch(
    phase: Option<Phase>, configHash: Option<string>, lastSyncedAt: Option<int>, conditions: Option<seq<Condition>>,
    observedGeneration: Option<nat>, boundPipelineConfigRef: Option<string>, boundCollectorGroupRef: Option<string>,
    registeredTenants: Option<seq<Tenant>>)

  function Changed<T(==)>(base: T, modified: T): Option<T> { if base == modified then None else Some(modified) }

  function Override<T>(change: Option<T>, current: T): T { if change.Some? then change.value else current }

  function Diff(base: BindingStatus, modified: BindingStatus): StatusPatch {
    StatusPatch(
      Changed(base.phase, modified.phase), Changed(base.configHash, modified.configHash),
      Changed(base.lastSyncedAt, modified.lastSyncedAt), Changed(base.conditions, modified.conditions),
      Changed(base.observedGeneration, modified.observedGeneration),
      Changed(base.boundPipelineConfigRef, modified.boundPipelineConfigRef),
      Changed(base.boundCollectorGroupRef, modified.boundCollectorGroupRef),
      Changed(base.registeredTenants, modified.registeredTenants))
  }

  function Apply(p: StatusPatch, st: BindingStatus): BindingStatus {
    BindingStatus(
      Override(p.phase, st.phase), Override(p.configHash, st.configHash), Override(p.lastSyncedAt, st.lastSyncedAt),
      Override(p.conditions, st.conditions), Override(p.observedGeneration, st.observedGeneration),
      Override(p.boundPipelineConfigRef, st.boundPipelineConfigRef),
      Override(p.boundCollectorGroupRef, st.boundCollectorGroupRef),
      Override(p.registeredTenants, st.registeredTenants))
  }

  /** `Status().Patch`: lands on whatever is stored now; a missing object stays missing. */
  function PatchStatus(h: History<Binding>, base: Binding, modified: Binding): History<Binding> {
    match Latest(h)
    case None => h
    case Some(cur) => Commit(h, Some(cur.(status := Apply(Diff(base.status, modified.status), cur.status))))
  }
}

/** The operator as one interleaved state machine: users, the three reconcilers and the registry
    act on a versioned store.  An event carries every choice the environment makes: which past
    version a read returns, which requests fail, and what time it is. */
module Protocol {
  import opened Api
  import opened Histories
  import opened Tenants
  import opened MergePatch

  datatype Config = Config(hash: string -> string, ttl: nat)

  /* ---- one reconcile attempt of a binding ---- */

  /** A counter write that an attempt intends, and which failures of it the code carries on after. */
  datatype Move = Move(target: ResourceKey, delta: int, toleratesMissing: bool, toleratesErrors: bool)

  datatype FinalWrite = AddFinalizer | RemoveFinalizer | MarkInvalid(reason: string) | Sync(configHash: string)

  /** `obj` is the binding as read at `version`; `next` is the program counter into the plan, and
      `moved` holds the counter writes that committed. */
  datatype Attempt = Attempt(version: nat, obj: Binding, final: FinalWrite, next: nat, moved: map<ResourceKey, int>)

  type Resources = map<ResourceKey, History<Resource>>
  type Bindings = map<BindingKey, History<Binding>>

  /** `dirty` counts the attempts that have ended without being clean. */
  datatype System = System(
    resources: Resources,
    bindings: Bindings,
    attempts: map<BindingKey, Attempt>,
    dirty: nat)

  const INITIAL := System(map[], map[], map[], 0)

  datatype Lookup = At(lag: nat) | Unreachable

  datatype Event =
    | CreateResource(k: ResourceKey, spec: ResourceSpec, isDefault: bool)
    | EditResource(k: ResourceKey, spec: ResourceSpec, isDefault: bool)
    | DeleteResource(k: ResourceKey)
    | CreateBinding(bk: BindingKey, bspec: BindingSpec)
    | EditBinding(bk: BindingKey, bspec: BindingSpec)
    | DeleteBinding(bk: BindingKey)
    | ReconcileResource(k: ResourceKey, lag: nat, fault: Fault)
    | Begin(bk: BindingKey, lag: nat, config: Lookup, group: Lookup)
    | MoveCounter(bk: BindingKey, lag: nat, fault: Fault)
    | Finish(bk: BindingKey, now: int, fault: Fault)
    | Crash(bk: BindingKey)
    | RegisterPatch(bk: BindingKey, lag: nat, tenant: Tenant)
    | UnregisterPatch(bk: BindingKey, lag: nat, collectorId: string)

  function ResourceHistory(m: Resources, k: ResourceKey): History<Resource> {
    if k in m then m[k] else [None]
  }

  function BindingHistory(m: Bindings, bk: BindingKey): History<Binding> {
    if bk in m then m[bk] else [None]
  }

  /** The registered tenants of a binding; none if it is absent. */
  function TenantsOf(bindings: Bindings, bk: BindingKey): seq<Tenant> {
    var b := Latest(BindingHistory(bindings, bk));
    if b.Some? then b.value.status.registeredTenants else []
  }

  /* ---- users ---- */

  function DoCreateResource(s: System, k: ResourceKey, spec: ResourceSpec, isDefault: bool): System {
    var h := ResourceHistory(s.resources, k);
    if Latest(h).Some? || k.name == "" || !SpecOfKind(k.kind, spec) then s
    else
      var r := Resource(Meta(1, false, false), isDefault, spec, NEW_RESOURCE_STATUS);
      s.(resources := s.resources[k := Commit(h, Some(r))])
  }

  function Edited(r: Resource, spec: ResourceSpec, isDefault: bool): Resource {
    r.(spec := spec, isDefault := isDefault,
       meta := r.meta.(generation := r.meta.generation + if spec == r.spec then 0 else 1))
  }

  function DoEditResource(s: System, k: ResourceKey, spec: ResourceSpec, isDefault: bool): System {
    var h := ResourceHistory(s.resources, k);
    if Latest(h).None? || !SpecOfKind(k.kind, spec) then s
    else s.(resources := s.resources[k := Commit(h, Some(Edited(Latest(h).value, spec, isDefault)))])
  }

  function Terminating(m: Meta): Meta {
    if m.deleting then m else m.(deleting := true, generation := m.generation + 1)
  }

  /** Deletion marks an object that has a finalizer and removes one that has none. */
  function DoDeleteResource(s: System, k: ResourceKey): System {
    var h := ResourceHistory(s.resources, k);
    if Latest(h).None? then s
    else
      var r := Latest(h).value;
      s.(resources := s.resources[k := Commit(h, AdmitResource(r.(meta := Terminating(r.meta))))])
  }

  function DoCreateBinding(s: System, bk: BindingKey, spec: BindingSpec): System {
    var h := BindingHistory(s.bindings, bk);
    if Latest(h).Some? || !ExactlyOneSelector(spec) then s
    else s.(bindings := s.bindings[bk := Commit(h, Some(Binding(Meta(1, false, false), spec, NEW_BINDING_STATUS)))])
  }

  function DoEditBinding(s: System, bk: BindingKey, spec: BindingSpec): System {
    var h := BindingHistory(s.bindings, bk);
    if Latest(h).None? || !ExactlyOneSelector(spec) then s
    else
      var b := Latest(h).value;
      var gen := b.meta.generation + if spec == b.spec then 0 else 1;
      s.(bindings := s.bindings[bk := Commit(h, Some(b.(spec := spec, meta := b.meta.(generation := gen))))])
  }

  function DoDeleteBinding(s: System, bk: BindingKey): System {
    var h := BindingHistory(s.bindings, bk);
    if Latest(h).None? then s
    else
      var b := Latest(h).value;
      s.(bindings := s.bindings[bk := Commit(h, AdmitBinding(b.(meta := Terminating(b.meta))))])
  }

  /* ---- the PipelineConfig and CollectorGroup reconcilers ---- */

  function HashedStatus(cfg: Config, r: Resource, content: string): ResourceStatus {
    if content == "" then
      r.status.(
        conditions := SetCondition(r.status.conditions,
                                   Condition(CONTENT_VALID, ConditionFalse, "EmptyContent", r.meta.generation)),
        observedGeneration := r.meta.generation)
    else
      r.status.(
        contentHash := cfg.hash(content),
        conditions := SetCondition(r.status.conditions,
                                   Condition(CONTENT_VALID, ConditionTrue, "ContentValid", r.meta.generation)),
        observedGeneration := r.meta.generation)
  }

  /** The object a reconcile of `r` writes back, if it writes at all. */
  function ReconciledResource(cfg: Config, r: Resource): Option<Resource> {
    if r.meta.deleting then
      if r.status.activeBindings > 0 then None else Some(r.(meta := r.meta.(finalizer := false)))
    else if !r.meta.finalizer then Some(r.(meta := r.meta.(finalizer := true)))
    else match r.spec
      case ConfigSpec(content, _) => Some(r.(status := HashedStatus(cfg, r, content)))
      case GroupSpec(_) => Some(r.(status := r.status.(observedGeneration := r.meta.generation)))
  }

  function DoReconcileResource(cfg: Config, s: System, k: ResourceKey, lag: nat, fault: Fault): System {
    var h := ResourceHistory(s.resources, k);
    if ReadAt(h, lag).None? then s
    else
      var w := ReconciledResource(cfg, ReadAt(h, lag).value);
      if w.None? then s
      else s.(resources := s.resources[k := CompareAndSwap(h, ReadVersion(h, lag), AdmitResource(w.value), fault)])
  }

  /* ---- the binding reconciler ---- */

  /** `manageCounters`: release the old references, then claim the new ones. */
  function RebindPlan(bk: BindingKey, b: Binding): seq<Option<Move>> {
    var prevPC, newPC := b.status.boundPipelineConfigRef, b.spec.pipelineConfigRef;
    var prevCG, newCG := b.status.boundCollectorGroupRef, b.spec.collectorGroupRef;
    [ if prevPC != "" && prevPC != newPC then Some(Move(ConfigKey(bk, prevPC), -1, true, true)) else None,
      if prevCG != "" && prevCG != newCG then Some(Move(GroupKey(bk, prevCG), -1, true, true)) else None,
      if prevPC != newPC then Some(Move(ConfigKey(bk, newPC), 1, false, false)) else None,
      if prevCG != newCG && newCG != "" then Some(Move(GroupKey(bk, newCG), 1, false, false)) else None ]
  }

  /** `handleDeletion`: release both references; a resource that is gone is skipped. */
  function ReleasePlan(bk: BindingKey, b: Binding): seq<Option<Move>> {
    var prevPC, prevCG := b.status.boundPipelineConfigRef, b.status.boundCollectorGroupRef;
    [ if prevPC != "" then Some(Move(ConfigKey(bk, prevPC), -1, true, false)) else None,
      if prevCG != "" then Some(Move(GroupKey(bk, prevCG), -1, true, false)) else None ]
  }

  function Plan(bk: BindingKey, a: Attempt): seq<Option<Move>> {
    match a.final
    case RemoveFinalizer => ReleasePlan(bk, a.obj)
    case Sync(_) => RebindPlan(bk, a.obj)
    case _ => []
  }

  function Lookups(resources: Resources, k: ResourceKey, l: Lookup): Option<Resource> {
    match l
    case At(lag) => ReadAt(ResourceHistory(resources, k), lag)
    case Unreachable => None
  }

  /** `validateRefs` and the branches before it: which write the attempt is heading for. */
  function ChooseFinal(resources: Resources, bk: BindingKey, b: Binding, config: Lookup, group: Lookup): FinalWrite {
    if b.meta.deleting then RemoveFinalizer
    else if !b.meta.finalizer then AddFinalizer
    else
      var pc := Lookups(resources, ConfigKey(bk, b.spec.pipelineConfigRef), config);
      if pc.None? then MarkInvalid(if config.At? then "PipelineConfigNotFound" else "PipelineConfigFetchError")
      else if && b.spec.collectorGroupRef != ""
              && Lookups(resources, GroupKey(bk, b.spec.collectorGroupRef), group).None? then
        MarkInvalid(if group.At? then "CollectorGroupNotFound" else "CollectorGroupFetchError")
      else Sync(pc.value.status.contentHash)
  }

  function DoBegin(s: System, bk: BindingKey, lag: nat, config: Lookup, group: Lookup): System {
    var h := BindingHistory(s.bindings, bk);
    if bk in s.attempts || ReadAt(h, lag).None? then s
    else
      var b := ReadAt(h, lag).value;
      var final := ChooseFinal(s.resources, bk, b, config, group);
      s.(attempts := s.attempts[bk := Attempt(ReadVersion(h, lag), b, final, 0, map[])])
  }

  function EndAttempt(s: System, bk: BindingKey, clean: bool): System {
    s.(attempts := s.attempts - {bk}, dirty := s.dirty + if clean then 0 else 1)
  }

  /** A counter write that did not go through: carry on, or give up the attempt. */
  function Unmoved(s: System, bk: BindingKey, a: Attempt, tolerated: bool): System {
    if tolerated then s.(attempts := s.attempts[bk := a.(next := a.next + 1)])
    else EndAttempt(s, bk, a.moved == map[])
  }

  function Counted(r: Resource, delta: int): Resource {
    r.(status := r.status.(activeBindings := r.status.activeBindings + delta))
  }

  /** One step of the plan. */
  function Advance(s: System, bk: BindingKey, a: Attempt, step: Option<Move>, lag: nat, fault: Fault): System {
    if step.None? then Unmoved(s, bk, a, true)
    else
      var m := step.value;
      var h := ResourceHistory(s.resources, m.target);
      if fault.Rejected? then Unmoved(s, bk, a, m.toleratesErrors)
      else if ReadAt(h, lag).None? then Unmoved(s, bk, a, m.toleratesMissing)
      else if ReadVersion(h, lag) != Version(h) then
        Unmoved(s, bk, a, if Latest(h).None? then m.toleratesMissing else m.toleratesErrors)
      else
        var s' := s.(
          resources := s.resources[m.target := Commit(h, AdmitResource(Counted(ReadAt(h, lag).value, m.delta)))],
          attempts := s.attempts[bk := a.(next := a.next + 1, moved := a.moved[m.target := m.delta])]);
        if fault.ReplyLost? && !m.toleratesErrors then EndAttempt(s', bk, false) else s'
  }

  predicate StepCommits(s: System, step: Option<Move>, lag: nat, fault: Fault) {
    && step.Some?
    && var h := ResourceHistory(s.resources, step.value.target);
    && !fault.Rejected?
    && ReadAt(h, lag).Some?
    && ReadVersion(h, lag) == Version(h)
  }

  function DoMoveCounter(s: System, bk: BindingKey, lag: nat, fault: Fault): System {
    if bk !in s.attempts || s.attempts[bk].next >= |Plan(bk, s.attempts[bk])| then s
    else Advance(s, bk, s.attempts[bk], Plan(bk, s.attempts[bk])[s.attempts[bk].next], lag, fault)
  }

  /** The event makes a counter write that commits. */
  predicate MoveCommits(s: System, bk: BindingKey, lag: nat, fault: Fault) {
    && bk in s.attempts
    && s.attempts[bk].next < |Plan(bk, s.attempts[bk])|
    && StepCommits(s, Plan(bk, s.attempts[bk])[s.attempts[bk].next], lag, fault)
  }

  function FinalObject(cfg: Config, a: Attempt, now: int): Binding {
    var b := a.obj;
    match a.final
    case AddFinalizer => b.(meta := b.meta.(finalizer := true))
    case RemoveFinalizer => b.(meta := b.meta.(finalizer := false))
    case MarkInvalid(reason) =>
      var cs := SetCondition(b.status.conditions, Condition(REFS_VALID, ConditionFalse, reason, b.meta.generation));
      b.(status := b.status.(conditions := cs, phase := DerivePhase(cs), observedGeneration := b.meta.generation))
    case Sync(configHash) =>
      var cs := SetCondition(b.status.conditions,
                             Condition(REFS_VALID, ConditionTrue, "RefsResolved", b.meta.generation));
      b.(status := BindingStatus(
        DerivePhase(cs), configHash, now, cs, b.meta.generation,
        b.spec.pipelineConfigRef, b.spec.collectorGroupRef, Evict(b.status.registeredTenants, cfg.ttl, now)))
  }

  /** Every counter write the attempt owes has committed, or its resource is gone. */
  predicate NothingOwed(resources: Resources, bk: BindingKey, a: Attempt) {
    forall i :: 0 <= i < |Plan(bk, a)| && Plan(bk, a)[i].Some? ==>
      var k := Plan(bk, a)[i].value.target;
      k in a.moved || Latest(ResourceHistory(resources, k)).None?
  }

  predicate Clean(resources: Resources, bk: BindingKey, a: Attempt, committed: bool) {
    if committed then NothingOwed(resources, bk, a) else a.moved == map[]
  }

  function DoFinish(cfg: Config, s: System, bk: BindingKey, now: int, fault: Fault): System {
    if bk !in s.attempts || s.attempts[bk].next < |Plan(bk, s.attempts[bk])| then s
    else
      var a := s.attempts[bk];
      var h := BindingHistory(s.bindings, bk);
      var committed := a.version == Version(h) && !fault.Rejected?;
      var h' := CompareAndSwap(h, a.version, AdmitBinding(FinalObject(cfg, a, now)), fault);
      EndAttempt(s.(bindings := s.bindings[bk := h']), bk, Clean(s.resources, bk, a, committed))
  }

  function DoCrash(s: System, bk: BindingKey): System {
    if bk in s.attempts then EndAttempt(s, bk, s.attempts[bk].moved == map[]) else s
  }

  /* ---- the registry ---- */

  function WithTenants(b: Binding, ts: seq<Tenant>): Binding { b.(status := b.status.(registeredTenants := ts)) }

  function DoPatchTenants(s: System, bk: BindingKey, base: Binding, ts: seq<Tenant>): System {
    s.(bindings := s.bindings[bk := PatchStatus(BindingHistory(s.bindings, bk), base, WithTenants(base, ts))])
  }

  function DoRegister(s: System, bk: BindingKey, lag: nat, tenant: Tenant): System {
    var read := ReadAt(BindingHistory(s.bindings, bk), lag);
    if read.None? then s
    else DoPatchTenants(s, bk, read.value, Upsert(read.value.status.registeredTenants, tenant))
  }

  function DoUnregister(s: System, bk: BindingKey, lag: nat, collectorId: string): System {
    var read := ReadAt(BindingHistory(s.bindings, bk), lag);
    if read.None? then s
    else DoPatchTenants(s, bk, read.value, RemoveCollector(read.value.status.registeredTenants, collectorId))
  }

  /* ---- runs ---- */

  function Step(cfg: Config, s: System, e: Event): System {
    match e
    case CreateResource(k, spec, isDefault) => DoCreateResource(s, k, spec, isDefault)
    case EditResource(k, spec, isDefault) => DoEditResource(s, k, spec, isDefault)
    case DeleteResource(k) => DoDeleteResource(s, k)
    case CreateBinding(bk, spec) => DoCreateBinding(s, bk, spec)
    case EditBinding(bk, spec) => DoEditBinding(s, bk, spec)
    case DeleteBinding(bk) => DoDeleteBinding(s, bk)
    case ReconcileResource(k, lag, fault) => DoReconcileResource(cfg, s, k, lag, fault)
    case Begin(bk, lag, config, group) => DoBegin(s, bk, lag, config, group)
    case MoveCounter(bk, lag, fault) => DoMoveCounter(s, bk, lag, fault)
    case Finish(bk, now, fault) => DoFinish(cfg, s, bk, now, fault)
    case Crash(bk) => DoCrash(s, bk)
    case RegisterPatch(bk, lag, tenant) => DoRegister(s, bk, lag, tenant)
    case UnregisterPatch(bk, lag, collectorId) => DoUnregister(s, bk, lag, collectorId)
  }

  lemma StepOfMove(cfg: Config, s: System, e: Event)
    requires e.MoveCounter?
    ensures Step(cfg, s, e) == DoMoveCounter(s, e.bk, e.lag, e.fault)
  {
  }

  function Run(cfg: Config, s: System, es: seq<Event>): System {
    if es == [] then s else Step(cfg, Run(cfg, s, es[..|es| - 1]), es[|es| - 1])
  }

  lemma {:induction false} RunConcat(cfg: Config, s: System, es: seq<Event>, fs: seq<Event>)
    ensures Run(cfg, s, es + fs) == Run(cfg, Run(cfg, s, es), fs)
  {
    if fs == [] {
      assert es + fs == es;
    } else {
      assert (es + fs)[..|es + fs| - 1] == es + fs[..|fs| - 1];
      RunConcat(cfg, s, es, fs[..|fs| - 1]);
    }
  }

  lemma RunSnoc(cfg: Config, s: System, es: seq<Event>, e: Event)
    ensures Run(cfg, s, es + [e]) == Step(cfg, Run(cfg, s, es), e)
  {
    assert (es + [e])[..|es|] == es;
  }

  lemma RunNext(cfg: Config, s: System, es: seq<Event>, i: nat)
    requires i < |es|
    ensures Run(cfg, s, es[..i + 1]) == Step(cfg, Run(cfg, s, es[..i]), es[i])
  {
    var fs := es[..i + 1];
    assert fs[..|fs| - 1] == es[..i];
  }

  /** A run of one attempt, seen from its ends. */
  lemma RunBracketed(cfg: Config, s: System, begin: Event, moves: seq<Event>, finish: Event)
    ensures Run(cfg, s, [begin] + moves + [finish]) == Step(cfg, Run(cfg, Step(cfg, s, begin), moves), finish)
  {
    RunSnoc(cfg, s, [begin] + moves, finish);
    RunConcat(cfg, s, [begin], moves);
    RunSnoc(cfg, s, [], begin);
    assert [] + [begin] == [begin];
  }

  /* ---- premises on single steps ---- */

  /** A PipelineConfig or CollectorGroup is deleted only once it carries its own finalizer. */
  predicate ProtectedDelete(s: System, e: Event) {
    e.DeleteResource? ==>
      var r := Latest(ResourceHistory(s.resources, e.k));
      r.Some? ==> r.value.meta.finalizer
  }

  /** No resource name is created a second time. */
  predicate NoRecreation(s: System, e: Event) {
    e.CreateResource? ==> Version(ResourceHistory(s.resources, e.k)) == 0
  }

  /** Counter writes are made only by attempts whose binding version is still the stored one. */
  predicate FreshCounterWrite(s: System, e: Event) {
    e.MoveCounter? && MoveCommits(s, e.bk, e.lag, e.fault) ==>
      s.attempts[e.bk].version == Version(BindingHistory(s.bindings, e.bk))
  }
}
