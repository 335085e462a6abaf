/** What single reconciles, writes and failures bring about, said of the stored objects themselves. */
module Outcomes {
  import opened Api
  import opened Histories
  import opened Tenants
  import opened Protocol
  import opened Invariants
  import opened Ledger

  function ResourceOf(s: System, k: ResourceKey): Option<Resource> { Latest(ResourceHistory(s.resources, k)) }

  function BindingOf(s: System, bk: BindingKey): Option<Binding> { Latest(BindingHistory(s.bindings, bk)) }

  /** Nothing but resource `k` has changed. */
  ghost predicate OnlyResource(s: System, s': System, k: ResourceKey) {
    && s'.bindings == s.bindings && s'.attempts == s.attempts && s'.dirty == s.dirty
    && forall x :: x != k ==> ResourceHistory(s'.resources, x) == ResourceHistory(s.resources, x)
  }

  /** Nothing but binding `bk` has changed. */
  ghost predicate OnlyBinding(s: System, s': System, bk: BindingKey) {
    && s'.resources == s.resources && s'.attempts == s.attempts && s'.dirty == s.dirty
    && forall x :: x != bk ==> BindingHistory(s'.bindings, x) == BindingHistory(s.bindings, x)
  }

  /* ---- the PipelineConfig and CollectorGroup reconcilers ---- */

  /** A reconcile that reads what is stored and is not disturbed. */
  function Fresh(k: ResourceKey): Event { ReconcileResource(k, 0, Healthy) }

  predicate LiveResource(s: System, k: ResourceKey) {
    ResourceOf(s, k).Some? && ResourceOf(s, k).value.meta.finalizer && !ResourceOf(s, k).value.meta.deleting
  }

  /** What settled means, over the list of conditions. */
  lemma SettledMeaning(r: Resource)
    ensures Settled(r) <==>
              && r.status.observedGeneration == r.meta.generation
              && exists c :: FirstOf(r.status.conditions, c) && c.kind == CONTENT_VALID && c.status.ConditionTrue?
  {
    FindIsFirst(r.status.conditions, CONTENT_VALID);
  }

  /** Whatever its status was before, a PipelineConfig with content ends up with the hash of that
      content and settled, and is otherwise as it was. */
  lemma ReconcileHashes(cfg: Config, s: System, k: ResourceKey)
    requires LiveResource(s, k) && ResourceOf(s, k).value.spec.ConfigSpec? && ResourceOf(s, k).value.spec.content != ""
    ensures var r, s' := ResourceOf(s, k).value, Step(cfg, s, Fresh(k));
            && OnlyResource(s, s', k) && ResourceOf(s', k).Some?
            && var r' := ResourceOf(s', k).value;
            && r'.spec == r.spec && r'.meta == r.meta && r'.isDefault == r.isDefault
            && r'.status.activeBindings == r.status.activeBindings
            && r'.status.contentHash == cfg.hash(r.spec.content)
            && r'.status.observedGeneration == r.meta.generation
            && FirstOf(r'.status.conditions, Condition(CONTENT_VALID, ConditionTrue, "ContentValid", r.meta.generation))
            && Settled(r')
  {
    var r := ResourceOf(s, k).value;
    SetIsFirst(r.status.conditions, Condition(CONTENT_VALID, ConditionTrue, "ContentValid", r.meta.generation));
    SettledMeaning(ResourceOf(Step(cfg, s, Fresh(k)), k).value);
  }

  /** One without content is flagged, and keeps the hash it had. */
  lemma ReconcileFlagsEmpty(cfg: Config, s: System, k: ResourceKey)
    requires LiveResource(s, k) && ResourceOf(s, k).value.spec.ConfigSpec? && ResourceOf(s, k).value.spec.content == ""
    ensures var r, s' := ResourceOf(s, k).value, Step(cfg, s, Fresh(k));
            && OnlyResource(s, s', k) && ResourceOf(s', k).Some?
            && var r' := ResourceOf(s', k).value;
            && r'.spec == r.spec && r'.meta == r.meta && r'.isDefault == r.isDefault
            && r'.status.activeBindings == r.status.activeBindings
            && r'.status.contentHash == r.status.contentHash
            && r'.status.observedGeneration == r.meta.generation
            && FirstOf(r'.status.conditions,
                       Condition(CONTENT_VALID, ConditionFalse, "EmptyContent", r.meta.generation))
            && !Settled(r')
  {
    var r := ResourceOf(s, k).value;
    SetIsFirst(r.status.conditions, Condition(CONTENT_VALID, ConditionFalse, "EmptyContent", r.meta.generation));
    FindIsFirst(ResourceOf(Step(cfg, s, Fresh(k)), k).value.status.conditions, CONTENT_VALID);
  }

  /** A CollectorGroup is marked as observed, and is otherwise as it was. */
  lemma ReconcileObserves(cfg: Config, s: System, k: ResourceKey)
    requires LiveResource(s, k) && ResourceOf(s, k).value.spec.GroupSpec?
    ensures var r, s' := ResourceOf(s, k).value, Step(cfg, s, Fresh(k));
            && OnlyResource(s, s', k)
            && ResourceOf(s', k) == Some(Resource(r.meta, r.isDefault, r.spec,
                                           ResourceStatus(r.status.activeBindings, r.meta.generation,
                                                          r.status.contentHash, r.status.conditions)))
  {
  }

  /** A new resource of either kind gets its finalizer, and from then on a deletion only marks it. */
  lemma ReconcileFinalizes(cfg: Config, s: System, k: ResourceKey)
    requires ResourceOf(s, k).Some? && !ResourceOf(s, k).value.meta.finalizer && !ResourceOf(s, k).value.meta.deleting
    ensures var r, s' := ResourceOf(s, k).value, Step(cfg, s, Fresh(k));
            && OnlyResource(s, s', k)
            && ResourceOf(s', k) == Some(Resource(Meta(r.meta.generation, true, false), r.isDefault, r.spec, r.status))
            && ResourceOf(Step(cfg, s', DeleteResource(k)), k) ==
               Some(Resource(Meta(r.meta.generation + 1, true, true), r.isDefault, r.spec, r.status))
  {
  }

  /** So two reconciles bring any resource that is not being deleted up to date, and protect it. */
  lemma TwoReconcilesSettle(cfg: Config, s: System, k: ResourceKey)
    requires ResourceOf(s, k).Some? && !ResourceOf(s, k).value.meta.deleting
    ensures var r, t := ResourceOf(s, k).value, Step(cfg, Step(cfg, s, Fresh(k)), Fresh(k));
            && ResourceOf(t, k).Some? && ResourceOf(t, k).value.meta.finalizer
            && ResourceOf(t, k).value.spec == r.spec && ResourceOf(t, k).value.meta.generation == r.meta.generation
            && ResourceOf(t, k).value.status.observedGeneration == r.meta.generation
            && ResourceOf(t, k).value.status.activeBindings == r.status.activeBindings
            && (r.spec.ConfigSpec? && r.spec.content != "" ==>
                 Settled(ResourceOf(t, k).value) &&
                   ResourceOf(t, k).value.status.contentHash == cfg.hash(r.spec.content))
  {
    var s' := Step(cfg, s, Fresh(k));
    if ResourceOf(s, k).value.meta.finalizer { LiveReconciled(cfg, s, k); } else { ReconcileFinalizes(cfg, s, k); }
    LiveReconciled(cfg, s', k);
  }

  lemma LiveReconciled(cfg: Config, s: System, k: ResourceKey)
    requires LiveResource(s, k)
    ensures var r, s' := ResourceOf(s, k).value, Step(cfg, s, Fresh(k));
            && LiveResource(s', k) && ResourceOf(s', k).value.spec == r.spec && ResourceOf(s', k).value.meta == r.meta
            && ResourceOf(s', k).value.status.observedGeneration == r.meta.generation
            && ResourceOf(s', k).value.status.activeBindings == r.status.activeBindings
            && (r.spec.ConfigSpec? && r.spec.content != "" ==>
                 Settled(ResourceOf(s', k).value) &&
                   ResourceOf(s', k).value.status.contentHash == cfg.hash(r.spec.content))
  {
    if ResourceOf(s, k).value.spec.GroupSpec? {
      ReconcileObserves(cfg, s, k);
    } else if ResourceOf(s, k).value.spec.content == "" {
      ReconcileFlagsEmpty(cfg, s, k);
    } else {
      ReconcileHashes(cfg, s, k);
    }
  }

  /** The deletion gate: while bindings are active nothing happens, and else the resource goes. */
  lemma GateDecides(cfg: Config, s: System, k: ResourceKey)
    requires ResourceOf(s, k).Some? && ResourceOf(s, k).value.meta.deleting
    ensures var s' := Step(cfg, s, Fresh(k));
            && OnlyResource(s, s', k)
            && ResourceOf(s', k) == if ResourceOf(s, k).value.status.activeBindings > 0 then ResourceOf(s, k) else None
  {
  }

  /** A reconcile that has read an outdated version, or is refused, changes nothing. */
  lemma StaleReconcileKeeps(cfg: Config, s: System, k: ResourceKey, lag: nat, fault: Fault)
    requires var h := ResourceHistory(s.resources, k); ReadVersion(h, lag) != Version(h) || fault.Rejected?
    ensures var s' := Step(cfg, s, ReconcileResource(k, lag, fault));
            OnlyResource(s, s', k) && ResourceHistory(s'.resources, k) == ResourceHistory(s.resources, k)
  {
  }

  /* ---- users ---- */

  lemma EditStores(cfg: Config, s: System, k: ResourceKey, spec: ResourceSpec, isDefault: bool)
    requires ResourceOf(s, k).Some? && SpecOfKind(k.kind, spec)
    ensures var r, s' := ResourceOf(s, k).value, Step(cfg, s, EditResource(k, spec, isDefault));
            && OnlyResource(s, s', k)
            && var meta := Meta(r.meta.generation + Bit(spec != r.spec), r.meta.finalizer, r.meta.deleting);
               ResourceOf(s', k) == Some(Resource(meta, isDefault, spec, r.status))
  {
  }

  lemma ResourceCreated(cfg: Config, s: System, k: ResourceKey, spec: ResourceSpec, isDefault: bool)
    requires ResourceOf(s, k).None? && k.name != "" && (k.kind.PipelineConfig? <==> spec.ConfigSpec?)
    ensures var s' := Step(cfg, s, CreateResource(k, spec, isDefault));
            && OnlyResource(s, s', k)
            && ResourceOf(s', k) ==
                 Some(Resource(Meta(1, false, false), isDefault, spec, ResourceStatus(0, 0, "", [])))
  {
  }

  /** Deleting a resource removes it if it has no finalizer, else marks it, and once marked does nothing. */
  lemma ResourceDeletion(cfg: Config, s: System, k: ResourceKey)
    requires ResourceOf(s, k).Some?
    ensures var r, s' := ResourceOf(s, k).value, Step(cfg, s, DeleteResource(k));
            && OnlyResource(s, s', k)
            && ResourceOf(s', k) ==
                 if !r.meta.finalizer then None
                 else if r.meta.deleting then Some(r)
                 else Some(Resource(Meta(r.meta.generation + 1, true, true), r.isDefault, r.spec, r.status))
  {
  }

  /** A binding is admitted exactly if it names a group or a tenant, and not both. */
  lemma CreateStores(cfg: Config, s: System, bk: BindingKey, spec: BindingSpec)
    requires BindingOf(s, bk).None?
    ensures var s' := Step(cfg, s, CreateBinding(bk, spec));
            && OnlyBinding(s, s', bk)
            && BindingOf(s', bk) == if (spec.collectorGroupRef == "") == (spec.tenantRef == "") then None
                                 else Some(Binding(Meta(1, false, false), spec, NEW_BINDING_STATUS))
  {
  }

  lemma BindingEditStores(cfg: Config, s: System, bk: BindingKey, spec: BindingSpec)
    requires BindingOf(s, bk).Some?
    ensures var b, s' := BindingOf(s, bk).value, Step(cfg, s, EditBinding(bk, spec));
            && OnlyBinding(s, s', bk)
            && BindingOf(s', bk) ==
                 if (spec.collectorGroupRef == "") == (spec.tenantRef == "") then Some(b)
                 else Some(Binding(Meta(b.meta.generation + Bit(spec != b.spec), b.meta.finalizer, b.meta.deleting),
                                   spec, b.status))
  {
  }

  lemma BindingDeletion(cfg: Config, s: System, bk: BindingKey)
    requires BindingOf(s, bk).Some?
    ensures var b, s' := BindingOf(s, bk).value, Step(cfg, s, DeleteBinding(bk));
            && OnlyBinding(s, s', bk)
            && BindingOf(s', bk) ==
                 if !b.meta.finalizer then None
                 else if b.meta.deleting then Some(b)
                 else Some(Binding(Meta(b.meta.generation + 1, true, true), b.spec, b.status))
  {
  }

  /* ---- which final write an attempt heads for, and what it stores ---- */

  /** The lookup of a reference returns a version of the resource. */
  predicate Finds(resources: Resources, k: ResourceKey, l: Lookup) {
    l.At? && ReadAt(ResourceHistory(resources, k), l.lag).Some?
  }

  /** The final write that an attempt chooses, whatever its lookups return. */
  lemma ChoiceIsExact(resources: Resources, bk: BindingKey, b: Binding, config: Lookup, group: Lookup)
    ensures var final := ChooseFinal(resources, bk, b, config, group);
            var pc, cg := ConfigKey(bk, b.spec.pipelineConfigRef), GroupKey(bk, b.spec.collectorGroupRef);
            var live := b.meta.finalizer && !b.meta.deleting;
            && (final.RemoveFinalizer? <==> b.meta.deleting)
            && (final.AddFinalizer? <==> !b.meta.deleting && !b.meta.finalizer)
            && (final.Sync? <==>
                 live && Finds(resources, pc, config) &&
                   (b.spec.collectorGroupRef == "" || Finds(resources, cg, group)))
            && (final.Sync? ==>
                 final.configHash == ReadAt(ResourceHistory(resources, pc), config.lag).value.status.contentHash)
            && (final.MarkInvalid? ==>
                 final.reason == (if config.Unreachable? then "PipelineConfigFetchError"
                                  else if !Finds(resources, pc, config) then "PipelineConfigNotFound"
                                  else if group.Unreachable? then "CollectorGroupFetchError"
                                  else "CollectorGroupNotFound"))
  {
  }

  /** What a final write stores, field by field. */
  lemma FinalMeans(cfg: Config, a: Attempt, now: int)
    ensures var b, b' := a.obj, FinalObject(cfg, a, now);
            && b'.spec == b.spec
            && (a.final.AddFinalizer? ==>
                 b'.status == b.status && b'.meta == Meta(b.meta.generation, true, b.meta.deleting))
            && (a.final.RemoveFinalizer? ==>
                 b'.status == b.status && b'.meta == Meta(b.meta.generation, false, b.meta.deleting))
            && (a.final.MarkInvalid? ==>
                 && b'.meta == b.meta && b'.status.phase == Degraded
                 && FirstOf(b'.status.conditions,
                            Condition(REFS_VALID, ConditionFalse, a.final.reason, b.meta.generation))
                 && b'.status.observedGeneration == b.meta.generation
                 && b'.status == b.status.(phase := b'.status.phase, conditions := b'.status.conditions,
                                           observedGeneration := b'.status.observedGeneration))
            && (a.final.Sync? ==>
                 && b'.meta == b.meta && b'.status.phase == Active
                 && FirstOf(b'.status.conditions,
                            Condition(REFS_VALID, ConditionTrue, "RefsResolved", b.meta.generation))
                 && b'.status.observedGeneration == b.meta.generation
                 && b'.status.configHash == a.final.configHash && b'.status.lastSyncedAt == now
                 && b'.status.boundPipelineConfigRef == b.spec.pipelineConfigRef
                 && b'.status.boundCollectorGroupRef == b.spec.collectorGroupRef
                 && b'.status.registeredTenants == Evict(b.status.registeredTenants, cfg.ttl, now))
  {
    var b, b' := a.obj, FinalObject(cfg, a, now);
    PhaseMeaning(b'.status.conditions);
    if a.final.Sync? {
      SetIsFirst(b.status.conditions, Condition(REFS_VALID, ConditionTrue, "RefsResolved", b.meta.generation));
    } else if a.final.MarkInvalid? {
      SetIsFirst(b.status.conditions, Condition(REFS_VALID, ConditionFalse, a.final.reason, b.meta.generation));
    }
    FindIsFirst(b'.status.conditions, REFS_VALID);
  }

  /* ---- which failures of a counter write end an attempt ---- */

  /** The attempt's next step writes a counter, to take a claim back or to make one. */
  predicate AtWrite(s: System, bk: BindingKey) {
    bk in s.attempts && s.attempts[bk].next < |Plan(bk, s.attempts[bk])| && NextStep(bk, s.attempts[bk]).Some?
  }

  function Target(s: System, bk: BindingKey): ResourceKey
    requires AtWrite(s, bk)
  {
    NextStep(bk, s.attempts[bk]).value.target
  }

  /** The write takes a claim back, as the attempt owes it. */
  predicate Releases(s: System, bk: BindingKey)
    requires AtWrite(s, bk)
  {
    Due(bk, s.attempts[bk], Target(s, bk)) == -1
  }

  lemma WriteIsDue(s: System, bk: BindingKey)
    requires WellFormed(s) && AtWrite(s, bk)
    ensures NextStep(bk, s.attempts[bk]).value.delta == if Releases(s, bk) then -1 else 1
    ensures Due(bk, s.attempts[bk], Target(s, bk)) == NextStep(bk, s.attempts[bk]).value.delta
    ensures NextStep(bk, s.attempts[bk]).value.toleratesMissing <==> Releases(s, bk)
    ensures NextStep(bk, s.attempts[bk]).value.toleratesErrors <==> Releases(s, bk) && s.attempts[bk].final.Sync?
  {
    var a := s.attempts[bk];
    assert AttemptOk(bk, a, BindingHistory(s.bindings, bk));
    PlanIsDue(bk, a);
    ReleasesAreTolerant(bk, a, a.next);
    ErrorsTolerated(bk, a, a.next);
  }

  lemma ErrorsTolerated(bk: BindingKey, a: Attempt, i: nat)
    requires i < |Plan(bk, a)| && Plan(bk, a)[i].Some?
    ensures Plan(bk, a)[i].value.toleratesErrors <==> Plan(bk, a)[i].value.delta == -1 && a.final.Sync?
  {
  }

  /** The four ways a counter write can come out. */
  predicate Missing(s: System, k: ResourceKey, lag: nat, fault: Fault) {
    var h := ResourceHistory(s.resources, k); !fault.Rejected? && (ReadAt(h, lag).None? || Latest(h).None?)
  }

  predicate Refused(s: System, k: ResourceKey, lag: nat, fault: Fault) {
    var h := ResourceHistory(s.resources, k);
    fault.Rejected? || (ReadAt(h, lag).Some? && Latest(h).Some? && ReadVersion(h, lag) != Version(h))
  }

  /** A refused or conflicting write changes no counter; the attempt goes on only if it takes back a
      claim on the way to new ones, and gives up when it is deleting its binding or claiming. */
  lemma RefusedWrite(cfg: Config, s: System, bk: BindingKey, lag: nat, fault: Fault)
    requires WellFormed(s) && AtWrite(s, bk) && Refused(s, Target(s, bk), lag, fault)
    ensures var s' := Step(cfg, s, MoveCounter(bk, lag, fault));
            && s'.resources == s.resources && s'.bindings == s.bindings
            && (bk in s'.attempts <==> Releases(s, bk) && s.attempts[bk].final.Sync?)
  {
    WriteIsDue(s, bk);
  }

  /** A resource that is not found changes no counter; the attempt goes on exactly if it takes back a
      claim. */
  lemma MissingWrite(cfg: Config, s: System, bk: BindingKey, lag: nat, fault: Fault)
    requires WellFormed(s) && AtWrite(s, bk) && Missing(s, Target(s, bk), lag, fault)
    ensures var s' := Step(cfg, s, MoveCounter(bk, lag, fault));
            && s'.resources == s.resources && s'.bindings == s.bindings
            && (bk in s'.attempts <==> Releases(s, bk))
  {
    WriteIsDue(s, bk);
  }

  /** Any other write moves its counter by one, and no other; the attempt goes on unless the reply is
      lost and it is deleting its binding or claiming. */
  lemma StoredWrite(cfg: Config, s: System, bk: BindingKey, lag: nat, fault: Fault)
    requires WellFormed(s) && AtWrite(s, bk)
    requires !Refused(s, Target(s, bk), lag, fault) && !Missing(s, Target(s, bk), lag, fault)
    ensures var k, s' := Target(s, bk), Step(cfg, s, MoveCounter(bk, lag, fault));
            && Exists(s, k) && Exists(s', k)
            && ActiveBindings(s', k) == ActiveBindings(s, k) + (if Releases(s, bk) then -1 else 1)
            && (forall x :: x != k ==> ResourceHistory(s'.resources, x) == ResourceHistory(s.resources, x))
            && (bk in s'.attempts <==> fault.Healthy? || (Releases(s, bk) && s.attempts[bk].final.Sync?))
  {
    WriteIsDue(s, bk);
    StoredGoesOn(s, bk, lag, fault);
    MoveEffect(s, bk, lag, fault);
    MovedCounts(s, DoMoveCounter(s, bk, lag, fault), bk, NextStep(bk, s.attempts[bk]).value);
  }

  lemma StoredGoesOn(s: System, bk: BindingKey, lag: nat, fault: Fault)
    requires AtWrite(s, bk) && !Refused(s, Target(s, bk), lag, fault) && !Missing(s, Target(s, bk), lag, fault)
    ensures MoveCommits(s, bk, lag, fault)
    ensures bk in DoMoveCounter(s, bk, lag, fault).attempts <==>
              fault.Healthy? || NextStep(bk, s.attempts[bk]).value.toleratesErrors
  {
  }

  lemma MovedCounts(s: System, s': System, bk: BindingKey, m: Move)
    requires WellFormed(s) && Moved(s, s', bk, Some(m), true) && m.delta != 0
    ensures Exists(s, m.target) && Exists(s', m.target)
    ensures ActiveBindings(s', m.target) == ActiveBindings(s, m.target) + m.delta
    ensures forall x :: x != m.target ==> ResourceHistory(s'.resources, x) == ResourceHistory(s.resources, x)
  {
    RecountedExists(s, m);
  }
}
