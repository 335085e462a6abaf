/** What every step of every run keeps, whatever is stale, rejected or lost: histories only grow,
    and attempts in flight agree with the version they read and with their plan. */
module Invariants {
  import opened Api
  import opened Histories
  import opened Tenants
  import opened MergePatch
  import opened Protocol

  /* ---- what an attempt owes ---- */

  function Bit(p: bool): int { if p then 1 else 0 }

  /** The attempt's binding names `k` as bound once its final write has committed. */
  predicate BoundAfter(bk: BindingKey, a: Attempt, k: ResourceKey) {
    match a.final
    case RemoveFinalizer => false
    case Sync(_) => RefersTo(bk, a.obj, k)
    case _ => BoundTo(bk, a.obj, k)
  }

  /** By how much the attempt should move the counter of `k`. */
  function Due(bk: BindingKey, a: Attempt, k: ResourceKey): int {
    Bit(BoundAfter(bk, a, k)) - Bit(BoundTo(bk, a.obj, k))
  }

  predicate SyncNamesConfig(a: Attempt) {
    a.final.Sync? ==> a.obj.spec.pipelineConfigRef != ""
  }

  /** The plan holds exactly the moves that are due, each counter at most once. */
  lemma PlanIsDue(bk: BindingKey, a: Attempt)
    requires SyncNamesConfig(a)
    ensures forall i :: 0 <= i < |Plan(bk, a)| && Plan(bk, a)[i].Some? ==>
              Plan(bk, a)[i].value.delta == Due(bk, a, Plan(bk, a)[i].value.target) != 0
    ensures forall i, j :: 0 <= i < j < |Plan(bk, a)| && Plan(bk, a)[i].Some? && Plan(bk, a)[j].Some? ==>
              Plan(bk, a)[i].value.target != Plan(bk, a)[j].value.target
    ensures forall k :: Due(bk, a, k) != 0 ==>
              exists i :: 0 <= i < |Plan(bk, a)| && Plan(bk, a)[i].Some? && Plan(bk, a)[i].value.target == k
  {
    forall k | Due(bk, a, k) != 0
      ensures exists i :: 0 <= i < |Plan(bk, a)| && Plan(bk, a)[i].Some? && Plan(bk, a)[i].value.target == k
    {
      DueIsPlanned(bk, a, k);
    }
  }

  lemma DueIsPlanned(bk: BindingKey, a: Attempt, k: ResourceKey)
    requires SyncNamesConfig(a) && Due(bk, a, k) != 0
    ensures exists i :: 0 <= i < |Plan(bk, a)| && Plan(bk, a)[i].Some? && Plan(bk, a)[i].value.target == k
  {
    var p := Plan(bk, a);
    var at := if k.kind.PipelineConfig? then 0 else 1;
    if BoundTo(bk, a.obj, k) {
      assert p[at].Some? && p[at].value.target == k;
    } else {
      assert p[at + 2].Some? && p[at + 2].value.target == k;
    }
  }

  /** Claims are taken back before new ones are made, and in both the PipelineConfig comes first. */
  lemma PlanOrder(bk: BindingKey, a: Attempt, i: nat, j: nat)
    requires i < j < |Plan(bk, a)| && Plan(bk, a)[i].Some? && Plan(bk, a)[j].Some?
    ensures var m, n := Plan(bk, a)[i].value, Plan(bk, a)[j].value;
            m.delta < n.delta || (m.delta == n.delta && m.target.kind.PipelineConfig? && n.target.kind.CollectorGroup?)
  {
  }

  /* ---- well-formed systems ---- */

  /** Only finalized bindings are bound, and a binding that is being deleted has its finalizer. */
  predicate BindingOk(b: Binding) {
    && (b.status.boundPipelineConfigRef != "" || b.status.boundCollectorGroupRef != "" ==> b.meta.finalizer)
    && (b.meta.deleting ==> b.meta.finalizer)
  }

  predicate VersionsOk(h: History<Binding>) {
    forall i :: 0 <= i < |h| && h[i].Some? ==> BindingOk(h[i].value)
  }

  predicate ResourceVersionsOk(h: History<Resource>) {
    forall i :: 0 <= i < |h| && h[i].Some? && h[i].value.meta.deleting ==> h[i].value.meta.finalizer
  }

  /** All versions stored under a key have the spec of its kind. */
  predicate KindOk(k: ResourceKey, h: History<Resource>) {
    forall i :: 0 <= i < |h| && h[i].Some? ==> SpecOfKind(k.kind, h[i].value.spec)
  }

  predicate StoredOk(k: ResourceKey, h: History<Resource>) {
    k.name != "" && ResourceVersionsOk(h) && KindOk(k, h)
  }

  predicate FinalOk(a: Attempt) {
    match a.final
    case AddFinalizer => !a.obj.meta.deleting
    case RemoveFinalizer => a.obj.meta.deleting
    case MarkInvalid(_) => a.obj.meta.finalizer
    case Sync(_) => a.obj.meta.finalizer && a.obj.spec.pipelineConfigRef != ""
  }

  predicate MovedOk(bk: BindingKey, a: Attempt) {
    && a.next <= |Plan(bk, a)|
    && (forall k :: k in a.moved ==> a.moved[k] == Due(bk, a, k) != 0)
    && (forall i :: a.next <= i < |Plan(bk, a)| && Plan(bk, a)[i].Some? ==> Plan(bk, a)[i].value.target !in a.moved)
    && (forall i :: 0 <= i < a.next && Plan(bk, a)[i].Some? && Plan(bk, a)[i].value.delta == 1 ==>
         Plan(bk, a)[i].value.target in a.moved)
  }

  predicate AttemptOk(bk: BindingKey, a: Attempt, h: History<Binding>) {
    && a.version < |h|
    && h[a.version] == Some(a.obj)
    && FinalOk(a)
    && MovedOk(bk, a)
  }

  predicate WellFormed(s: System) {
    && (forall k :: k in s.resources ==> StoredOk(k, s.resources[k]))
    && (forall bk :: bk in s.bindings ==> VersionsOk(s.bindings[bk]))
    && (forall bk :: bk in s.attempts ==> AttemptOk(bk, s.attempts[bk], BindingHistory(s.bindings, bk)))
  }

  /* ---- histories only grow ---- */

  lemma BindingHistoriesGrow(cfg: Config, s: System, e: Event, bk: BindingKey)
    ensures BindingHistory(s.bindings, bk) <= BindingHistory(Step(cfg, s, e).bindings, bk)
  {
  }

  lemma ResourceHistoriesGrow(cfg: Config, s: System, e: Event, k: ResourceKey)
    ensures ResourceHistory(s.resources, k) <= ResourceHistory(Step(cfg, s, e).resources, k)
  {
    if e.MoveCounter? {
      if e.bk in s.attempts && s.attempts[e.bk].next < |Plan(e.bk, s.attempts[e.bk])| {
        MoveEffect(s, e.bk, e.lag, e.fault);
      }
    } else if !ActsOnResource(e) {
      OnlyResourceSteps(cfg, s, e);
    }
  }

  lemma OnlyResourceSteps(cfg: Config, s: System, e: Event)
    requires !ActsOnResource(e) && !e.MoveCounter?
    ensures Step(cfg, s, e).resources == s.resources
  {
  }

  /* ---- every step keeps WellFormed ---- */

  lemma BeginOk(s: System, bk: BindingKey, lag: nat, config: Lookup, group: Lookup)
    requires WellFormed(s)
    ensures WellFormed(DoBegin(s, bk, lag, config, group))
  {
    var s' := DoBegin(s, bk, lag, config, group);
    var h := BindingHistory(s.bindings, bk);
    if s' != s {
      var a := s'.attempts[bk];
      assert h[a.version] == Some(a.obj);
      assert BindingOk(a.obj);
      assert FinalOk(a);
    }
  }

  /** The attempt after a counter write that committed, and after one that was carried on without. */
  function AfterMove(bk: BindingKey, a: Attempt, m: Move): Attempt {
    a.(next := a.next + 1, moved := a.moved[m.target := m.delta])
  }

  lemma MovedStays(bk: BindingKey, a: Attempt)
    requires FinalOk(a) && MovedOk(bk, a) && a.next < |Plan(bk, a)|
    ensures var step := Plan(bk, a)[a.next];
            if step.None? then MovedOk(bk, a.(next := a.next + 1))
            else && MovedOk(bk, AfterMove(bk, a, step.value))
                 && (step.value.toleratesMissing ==> MovedOk(bk, a.(next := a.next + 1)))
  {
    var step := Plan(bk, a)[a.next];
    if step.Some? { CountedStays(bk, a); }
    if step.None? || step.value.toleratesMissing { SkippedStays(bk, a); }
  }

  lemma SamePlan(bk: BindingKey, a: Attempt, b: Attempt)
    requires a.obj == b.obj && a.final == b.final
    ensures Plan(bk, a) == Plan(bk, b)
    ensures forall k :: Due(bk, a, k) == Due(bk, b, k)
  {
  }

  lemma SkippedStays(bk: BindingKey, a: Attempt)
    requires MovedOk(bk, a) && a.next < |Plan(bk, a)|
    requires Plan(bk, a)[a.next].None? || Plan(bk, a)[a.next].value.toleratesMissing
    ensures MovedOk(bk, a.(next := a.next + 1))
  {
    SamePlan(bk, a, a.(next := a.next + 1));
    if Plan(bk, a)[a.next].Some? { ReleasesAreTolerant(bk, a, a.next); }
  }

  lemma ReleasesAreTolerant(bk: BindingKey, a: Attempt, i: nat)
    requires i < |Plan(bk, a)| && Plan(bk, a)[i].Some?
    ensures Plan(bk, a)[i].value.toleratesMissing <==> Plan(bk, a)[i].value.delta == -1
    ensures Plan(bk, a)[i].value.delta == 1 || Plan(bk, a)[i].value.delta == -1
  {
  }

  lemma CountedStays(bk: BindingKey, a: Attempt)
    requires FinalOk(a) && MovedOk(bk, a) && a.next < |Plan(bk, a)| && Plan(bk, a)[a.next].Some?
    ensures MovedOk(bk, AfterMove(bk, a, Plan(bk, a)[a.next].value))
  {
    PlanIsDue(bk, a);
    SamePlan(bk, a, AfterMove(bk, a, Plan(bk, a)[a.next].value));
  }

  lemma ToleranceOrder(bk: BindingKey, a: Attempt, i: nat)
    requires i < |Plan(bk, a)| && Plan(bk, a)[i].Some? && Plan(bk, a)[i].value.toleratesErrors
    ensures Plan(bk, a)[i].value.toleratesMissing
  {
  }

  /* ---- what one counter step does ---- */

  function Exists(s: System, k: ResourceKey): bool { Latest(ResourceHistory(s.resources, k)).Some? }

  ghost predicate SameElsewhere(s: System, s': System, bk: BindingKey) {
    && (forall x :: x != bk ==> (x in s.attempts <==> x in s'.attempts))
    && (forall x :: x != bk && x in s.attempts ==> s'.attempts[x] == s.attempts[x])
    && (forall x :: x != bk ==> BindingHistory(s'.bindings, x) == BindingHistory(s.bindings, x))
  }

  function Recounted(s: System, m: Move): Resources
    requires Exists(s, m.target)
  {
    var h := ResourceHistory(s.resources, m.target);
    s.resources[m.target := Commit(h, AdmitResource(Counted(Latest(h).value, m.delta)))]
  }

  lemma RecountedExists(s: System, m: Move)
    requires WellFormed(s) && Exists(s, m.target) && m.delta != 0
    ensures var h := ResourceHistory(s.resources, m.target);
            ResourceHistory(Recounted(s, m), m.target) == h + [Some(Counted(Latest(h).value, m.delta))]
  {
    assert ResourceVersionsOk(ResourceHistory(s.resources, m.target));
  }

  function NextStep(bk: BindingKey, a: Attempt): Option<Move>
    requires a.next < |Plan(bk, a)|
  {
    Plan(bk, a)[a.next]
  }

  /** A counter step ends the attempt, carries on without counting, or counts. */
  ghost predicate Moved(s: System, s': System, bk: BindingKey, step: Option<Move>, commits: bool) {
    && bk in s.attempts && s'.bindings == s.bindings && SameElsewhere(s, s', bk)
    && (commits ==> step.Some? && Exists(s, step.value.target))
    && s'.resources == (if commits then Recounted(s, step.value) else s.resources)
    && var a := s.attempts[bk];
    && if bk !in s'.attempts then s'.dirty == s.dirty + Bit(commits || a.moved != map[])
       else
         && s'.dirty == s.dirty
         && (commits ==> s'.attempts[bk] == AfterMove(bk, a, step.value))
         && (!commits ==> s'.attempts[bk] == a.(next := a.next + 1) && (step.Some? ==> step.value.toleratesMissing))
  }

  lemma AdvanceEffect(s: System, bk: BindingKey, step: Option<Move>, lag: nat, fault: Fault)
    requires bk in s.attempts
    requires step.Some? && step.value.toleratesErrors ==> step.value.toleratesMissing
    ensures Moved(s, Advance(s, bk, s.attempts[bk], step, lag, fault), bk, step, StepCommits(s, step, lag, fault))
  {
  }

  lemma MoveEffect(s: System, bk: BindingKey, lag: nat, fault: Fault)
    requires bk in s.attempts && s.attempts[bk].next < |Plan(bk, s.attempts[bk])|
    ensures Moved(s, DoMoveCounter(s, bk, lag, fault), bk, NextStep(bk, s.attempts[bk]), MoveCommits(s, bk, lag, fault))
  {
    var a := s.attempts[bk];
    var step := NextStep(bk, a);
    if step.Some? && step.value.toleratesErrors { ToleranceOrder(bk, a, a.next); }
    AdvanceEffect(s, bk, step, lag, fault);
  }

  /** The step moves its counter by one, for the first time in this attempt. */
  predicate StepSound(a: Attempt, step: Option<Move>) {
    && (step.Some? ==> (step.value.delta == 1 || step.value.delta == -1) && step.value.target !in a.moved)
    && (a.final.Sync? || a.final.RemoveFinalizer?)
  }

  lemma NextStepSound(bk: BindingKey, a: Attempt)
    requires MovedOk(bk, a) && a.next < |Plan(bk, a)|
    ensures StepSound(a, NextStep(bk, a))
  {
    if NextStep(bk, a).Some? { ReleasesAreTolerant(bk, a, a.next); }
  }

  lemma MovedWellFormed(s: System, s': System, bk: BindingKey, commits: bool)
    requires WellFormed(s) && bk in s.attempts && s.attempts[bk].next < |Plan(bk, s.attempts[bk])|
    requires Moved(s, s', bk, NextStep(bk, s.attempts[bk]), commits)
    ensures WellFormed(s')
  {
    MovedStays(bk, s.attempts[bk]);
    if commits { RecountOk(s, NextStep(bk, s.attempts[bk]).value); }
    ReplacedAttempt(s, s', bk);
  }

  lemma RecountOk(s: System, m: Move)
    requires WellFormed(s) && Exists(s, m.target)
    ensures forall k :: k in Recounted(s, m) ==> StoredOk(k, Recounted(s, m)[k])
  {
    var h := ResourceHistory(s.resources, m.target);
    assert StoredOk(m.target, h);
    assert StoredOk(m.target, Commit(h, AdmitResource(Counted(Latest(h).value, m.delta))));
  }

  lemma MoveCounterOk(s: System, bk: BindingKey, lag: nat, fault: Fault)
    requires WellFormed(s)
    ensures WellFormed(DoMoveCounter(s, bk, lag, fault))
  {
    if bk in s.attempts && s.attempts[bk].next < |Plan(bk, s.attempts[bk])| {
      MoveEffect(s, bk, lag, fault);
      MovedWellFormed(s, DoMoveCounter(s, bk, lag, fault), bk, MoveCommits(s, bk, lag, fault));
    }
  }

  lemma ReplacedAttempt(s: System, s': System, bk: BindingKey)
    requires WellFormed(s)
    requires s'.bindings == s.bindings
    requires forall k :: k in s'.resources ==> StoredOk(k, s'.resources[k])
    requires forall x :: x != bk && x in s'.attempts ==> x in s.attempts && s'.attempts[x] == s.attempts[x]
    requires bk in s'.attempts ==> AttemptOk(bk, s'.attempts[bk], BindingHistory(s.bindings, bk))
    ensures WellFormed(s')
  {
  }

  /** A binding's history may grow by versions that are in order. */
  lemma AppendedOk(s: System, bk: BindingKey, h: History<Binding>)
    requires WellFormed(s) && BindingHistory(s.bindings, bk) <= h && VersionsOk(h)
    ensures WellFormed(s.(bindings := s.bindings[bk := h]))
  {
  }

  lemma CommitOk(h: History<Binding>, x: Option<Binding>)
    requires VersionsOk(h) && (x.Some? ==> BindingOk(x.value))
    ensures h <= Commit(h, x) && VersionsOk(Commit(h, x))
  {
  }

  lemma EndedOk(s: System, bk: BindingKey, clean: bool)
    requires WellFormed(s)
    ensures WellFormed(EndAttempt(s, bk, clean))
  {
  }

  lemma FinalObjectOk(cfg: Config, a: Attempt, now: int)
    requires FinalOk(a) && BindingOk(a.obj)
    ensures var x := AdmitBinding(FinalObject(cfg, a, now)); x.Some? ==> BindingOk(x.value)
  {
  }

  lemma FinishOk(cfg: Config, s: System, bk: BindingKey, now: int, fault: Fault)
    requires WellFormed(s)
    ensures WellFormed(DoFinish(cfg, s, bk, now, fault))
  {
    if bk in s.attempts && s.attempts[bk].next >= |Plan(bk, s.attempts[bk])| {
      var a, h := s.attempts[bk], BindingHistory(s.bindings, bk);
      var committed := a.version == Version(h) && !fault.Rejected?;
      var x := AdmitBinding(FinalObject(cfg, a, now));
      assert BindingOk(a.obj);
      FinalObjectOk(cfg, a, now);
      CommitOk(h, x);
      AppendedOk(s, bk, CompareAndSwap(h, a.version, x, fault));
      EndedOk(s.(bindings := s.bindings[bk := CompareAndSwap(h, a.version, x, fault)]), bk,
              Clean(s.resources, bk, a, committed));
    }
  }

  lemma PatchOk(s: System, bk: BindingKey, base: Binding, ts: seq<Tenant>)
    requires WellFormed(s)
    ensures WellFormed(DoPatchTenants(s, bk, base, ts))
  {
    var h := BindingHistory(s.bindings, bk);
    var h' := PatchStatus(h, base, WithTenants(base, ts));
    assert VersionsOk(h');
    AppendedOk(s, bk, h');
  }

  predicate ActsOnResource(e: Event) {
    e.CreateResource? || e.EditResource? || e.DeleteResource? || e.ReconcileResource?
  }

  predicate ActsOnAttempt(e: Event) {
    e.Begin? || e.MoveCounter? || e.Finish? || e.Crash?
  }

  /** A user edit or a reconcile of a resource appends at most one version to its history. */
  lemma ResourceAppends(cfg: Config, s: System, e: Event)
    requires ActsOnResource(e) && ResourceVersionsOk(ResourceHistory(s.resources, e.k))
    requires KindOk(e.k, ResourceHistory(s.resources, e.k))
    ensures var s', h := Step(cfg, s, e), ResourceHistory(s.resources, e.k);
            && s'.bindings == s.bindings && s'.attempts == s.attempts && s'.dirty == s.dirty
            && (s' != s ==> e.k.name != "" || e.k in s.resources)
            && (s' != s ==> s'.resources == s.resources[e.k := ResourceHistory(s'.resources, e.k)])
            && ResourceVersionsOk(ResourceHistory(s'.resources, e.k))
            && KindOk(e.k, ResourceHistory(s'.resources, e.k))
  {
  }

  lemma ResourceStepOk(cfg: Config, s: System, e: Event)
    requires WellFormed(s) && ActsOnResource(e)
    ensures WellFormed(Step(cfg, s, e))
  {
    ResourceAppends(cfg, s, e);
  }

  lemma RegistryStepOk(cfg: Config, s: System, e: Event)
    requires WellFormed(s) && (e.RegisterPatch? || e.UnregisterPatch?)
    ensures WellFormed(Step(cfg, s, e))
  {
    var read := ReadAt(BindingHistory(s.bindings, e.bk), e.lag);
    if read.Some? && e.RegisterPatch? {
      PatchOk(s, e.bk, read.value, Upsert(read.value.status.registeredTenants, e.tenant));
    } else if read.Some? {
      PatchOk(s, e.bk, read.value, RemoveCollector(read.value.status.registeredTenants, e.collectorId));
    }
  }

  /** What a user's write stores, if it stores anything. */
  function UserWrites(h: History<Binding>, e: Event): Option<Binding>
    requires e.CreateBinding? || e.EditBinding? || e.DeleteBinding?
  {
    if e.CreateBinding? then
      if Latest(h).Some? || !ExactlyOneSelector(e.bspec) then Latest(h)
      else Some(Binding(Meta(1, false, false), e.bspec, NEW_BINDING_STATUS))
    else if Latest(h).None? then None
    else
      var b := Latest(h).value;
      if e.DeleteBinding? then AdmitBinding(b.(meta := Terminating(b.meta)))
      else if !ExactlyOneSelector(e.bspec) then Some(b)
      else
        var generation := b.meta.generation + if e.bspec == b.spec then 0 else 1;
        Some(b.(spec := e.bspec, meta := b.meta.(generation := generation)))
  }

  lemma UserStepCommits(cfg: Config, s: System, e: Event)
    requires e.CreateBinding? || e.EditBinding? || e.DeleteBinding?
    ensures var h := BindingHistory(s.bindings, e.bk);
            Step(cfg, s, e) == s || Step(cfg, s, e) == s.(bindings := s.bindings[e.bk := Commit(h, UserWrites(h, e))])
  {
  }

  lemma UserStepOk(cfg: Config, s: System, e: Event)
    requires WellFormed(s) && (e.CreateBinding? || e.EditBinding? || e.DeleteBinding?)
    ensures WellFormed(Step(cfg, s, e))
  {
    var h := BindingHistory(s.bindings, e.bk);
    UserStepCommits(cfg, s, e);
    assert Latest(h).Some? ==> BindingOk(Latest(h).value);
    CommitOk(h, UserWrites(h, e));
    AppendedOk(s, e.bk, Commit(h, UserWrites(h, e)));
  }

  lemma BindingStepOk(cfg: Config, s: System, e: Event)
    requires WellFormed(s) && !ActsOnResource(e) && !ActsOnAttempt(e)
    ensures WellFormed(Step(cfg, s, e))
  {
    if e.RegisterPatch? || e.UnregisterPatch? {
      RegistryStepOk(cfg, s, e);
    } else {
      UserStepOk(cfg, s, e);
    }
  }

  /** The version stored after a user's or the registry's write is bound as the one before; only an
      unbound binding without its finalizer comes or goes. */
  predicate RefsKept(b: Option<Binding>, b': Option<Binding>) {
    if b.Some? && b'.Some? then
      && b'.value.meta.finalizer == b.value.meta.finalizer
      && b'.value.status.boundPipelineConfigRef == b.value.status.boundPipelineConfigRef
      && b'.value.status.boundCollectorGroupRef == b.value.status.boundCollectorGroupRef
    else Unclaimed(b) && Unclaimed(b')
  }

  predicate Unclaimed(b: Option<Binding>) {
    b.Some? ==>
      && !b.value.meta.finalizer
      && b.value.status.boundPipelineConfigRef == ""
      && b.value.status.boundCollectorGroupRef == ""
  }

  lemma PatchKeepsRefs(s: System, bk: BindingKey, base: Binding, ts: seq<Tenant>)
    ensures RefsKept(Latest(BindingHistory(s.bindings, bk)),
                     Latest(BindingHistory(DoPatchTenants(s, bk, base, ts).bindings, bk)))
  {
  }

  lemma EditKeepsRefs(cfg: Config, s: System, e: Event)
    requires WellFormed(s) && !ActsOnResource(e) && !ActsOnAttempt(e)
    ensures var s' := Step(cfg, s, e);
            && s'.attempts == s.attempts && s'.dirty == s.dirty && s'.resources == s.resources
            && RefsKept(Latest(BindingHistory(s.bindings, e.bk)), Latest(BindingHistory(s'.bindings, e.bk)))
  {
    var h := BindingHistory(s.bindings, e.bk);
    if e.RegisterPatch? || e.UnregisterPatch? {
      var read := ReadAt(h, e.lag);
      if read.Some? {
        var ts := read.value.status.registeredTenants;
        if e.RegisterPatch? {
          PatchKeepsRefs(s, e.bk, read.value, Upsert(ts, e.tenant));
        } else {
          PatchKeepsRefs(s, e.bk, read.value, RemoveCollector(ts, e.collectorId));
        }
      }
    } else {
      UserStepCommits(cfg, s, e);
      assert Latest(h).Some? ==> BindingOk(Latest(h).value);
    }
  }

  lemma WellFormedStep(cfg: Config, s: System, e: Event)
    requires WellFormed(s)
    ensures WellFormed(Step(cfg, s, e))
  {
    if ActsOnResource(e) {
      ResourceStepOk(cfg, s, e);
    } else if !ActsOnAttempt(e) {
      BindingStepOk(cfg, s, e);
    } else {
      match e
      case Begin(bk, lag, config, group) => BeginOk(s, bk, lag, config, group);
      case MoveCounter(bk, lag, fault) => MoveCounterOk(s, bk, lag, fault);
      case Finish(bk, now, fault) => FinishOk(cfg, s, bk, now, fault);
      case Crash(bk) => EndedOk(s, bk, bk in s.attempts && s.attempts[bk].moved == map[]);
    }
  }
}
