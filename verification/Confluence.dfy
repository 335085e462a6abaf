/** Reconciling without interference, with fresh reads and no failures: from any quiescent state,
    however its counters have drifted before, the order and the number of reconciles do not matter. */
module Confluence {
  import opened Api
  import opened Histories
  import opened Tenants
  import opened Protocol
  import opened Invariants
  import opened Ledger
  import opened DeleteSafety

  function CounterSteps(bk: BindingKey, n: nat): seq<Event> {
    if n == 0 then [] else CounterSteps(bk, n - 1) + [MoveCounter(bk, 0, Healthy)]
  }

  /** One undisturbed attempt; counter steps beyond the plan do nothing. */
  function FreshAttempt(bk: BindingKey, now: int): seq<Event> {
    [Begin(bk, 0, At(0), At(0))] + CounterSteps(bk, 4) + [Finish(bk, now, Healthy)]
  }

  datatype Request = Request(bk: BindingKey, now: int)

  function Batch(rs: seq<Request>): seq<Event> {
    if rs == [] then [] else Batch(rs[..|rs| - 1]) + FreshAttempt(rs[|rs| - 1].bk, rs[|rs| - 1].now)
  }

  /** No attempt is in flight.  Counters may be off and bound resources may be gone. */
  predicate Quiescent(s: System) {
    WellFormed(s) && s.attempts == map[]
  }

  function Stored(s: System, bk: BindingKey): Option<Binding> { Latest(BindingHistory(s.bindings, bk)) }

  predicate Live(s: System, bk: BindingKey) {
    var b := Stored(s, bk);
    b.Some? && b.value.meta.finalizer && !b.value.meta.deleting
  }

  predicate Resolvable(s: System, bk: BindingKey) {
    && Stored(s, bk).Some?
    && var spec := Stored(s, bk).value.spec;
    && Exists(s, ConfigKey(bk, spec.pipelineConfigRef))
    && (spec.collectorGroupRef != "" ==> Exists(s, GroupKey(bk, spec.collectorGroupRef)))
  }

  function ContentHash(s: System, k: ResourceKey): string
    requires Exists(s, k)
  {
    Latest(ResourceHistory(s.resources, k)).value.status.contentHash
  }

  function StoredResource(s: System, k: ResourceKey): Option<Resource> { Latest(ResourceHistory(s.resources, k)) }

  /** The same resources exist, and they differ in nothing but their counters. */
  ghost predicate SameResources(s: System, t: System) {
    forall k :: SameResource(s, t, k)
  }

  predicate SameResource(s: System, t: System, k: ResourceKey) {
    && Exists(t, k) == Exists(s, k)
    && (Exists(s, k) ==>
         StoredResource(t, k).value == Counted(StoredResource(s, k).value, ActiveBindings(t, k) - ActiveBindings(s, k)))
  }

  lemma SameResourcesTrans(s: System, t: System, u: System)
    requires SameResources(s, t) && SameResources(t, u)
    ensures SameResources(s, u)
  {
    forall k ensures SameResource(s, u, k) {
      assert SameResource(s, t, k) && SameResource(t, u, k);
    }
  }

  /** The same resources exist, and none of their counters has gained or lost drift. */
  ghost predicate GapsKept(s: System, t: System) {
    forall k :: Exists(s, k) ==> Exists(t, k) && Gap(t, k) == Gap(s, k)
  }

  /** Runs whose attempts have all ended clean lead to quiescent states with exact counters. */
  lemma CleanRunsQuiesce(cfg: Config, es: seq<Event>)
    requires ClaimsNotRemoved(cfg, es) && EndsClean(cfg, es)
    ensures Quiescent(Run(cfg, INITIAL, es)) && Exact(Run(cfg, INITIAL, es))
  {
    CleanRunsHarmless(cfg, es);
    ExactRun(cfg, es);
    WellFormedRun(cfg, es);
  }

  /* ---- one undisturbed attempt ---- */

  /** The attempt of `bk`, begun in `s`, has made its first `j` counter steps, and every one of them
      whose resource exists was counted. */
  ghost predicate Underway(s: System, t: System, bk: BindingKey, final: FinalWrite, j: nat) {
    && WellFormed(t) && t.dirty == s.dirty
    && SameResources(s, t) && GapsKept(s, t) && t.bindings == s.bindings
    && t.attempts.Keys == {bk}
    && var a := t.attempts[bk];
    && a.version == Version(BindingHistory(t.bindings, bk))
    && Stored(s, bk) == Some(a.obj)
    && a.final == final
    && AllMovedSoFar(s, bk, a, j)
  }

  predicate AllMovedSoFar(s: System, bk: BindingKey, a: Attempt, j: nat) {
    && a.next == (if j <= |Plan(bk, a)| then j else |Plan(bk, a)|)
    && (forall i :: 0 <= i < a.next && Plan(bk, a)[i].Some? && Exists(s, Plan(bk, a)[i].value.target) ==>
         Plan(bk, a)[i].value.target in a.moved)
  }

  lemma MovesOneMore(s: System, bk: BindingKey, a: Attempt, a': Attempt, j: nat)
    requires AllMovedSoFar(s, bk, a, j) && j < |Plan(bk, a)|
    requires var step := Plan(bk, a)[j];
             if step.Some? && Exists(s, step.value.target)
             then a' == AfterMove(bk, a, step.value)
             else a' == a.(next := j + 1)
    ensures AllMovedSoFar(s, bk, a', j + 1)
  {
    assert Plan(bk, a') == Plan(bk, a);
  }

  lemma SameAfterRecount(s: System, t: System, t': System, step: Option<Move>, commits: bool)
    requires WellFormed(t) && SameResources(s, t)
    requires commits ==> step.Some? && Exists(t, step.value.target) && step.value.delta != 0
    requires t'.resources == if commits then Recounted(t, step.value) else t.resources
    ensures SameResources(s, t')
  {
    if commits { RecountedExists(t, step.value); }
    forall k ensures SameResource(t, t', k) { }
    SameResourcesTrans(s, t, t');
  }

  lemma Begins(cfg: Config, s: System, bk: BindingKey)
    requires Quiescent(s) && Stored(s, bk).Some?
    ensures var final := ChooseFinal(s.resources, bk, Stored(s, bk).value, At(0), At(0));
            && Underway(s, Step(cfg, s, Begin(bk, 0, At(0), At(0))), bk, final, 0)
            && HeadsFor(s, bk, final)
  {
    var t := DoBegin(s, bk, 0, At(0), At(0));
    BeginOk(s, bk, 0, At(0), At(0));
    BeginAlone(s, bk);
    forall k | Exists(s, k) ensures Exists(t, k) && Gap(t, k) == Gap(s, k) {
      BeginKeepsGap(s, bk, k);
    }
    BegunUnderway(s, t, bk, ChooseFinal(s.resources, bk, Stored(s, bk).value, At(0), At(0)));
    ChoosesFinal(s, bk);
  }

  lemma BegunUnderway(s: System, t: System, bk: BindingKey, final: FinalWrite)
    requires WellFormed(t) && GapsKept(s, t) && Stored(s, bk).Some?
    requires t == s.(attempts := map[bk := Attempt(Version(BindingHistory(s.bindings, bk)), Stored(s, bk).value,
                                                   final, 0, map[])])
    ensures Underway(s, t, bk, final, 0)
  {
    forall k ensures SameResource(s, t, k) { }
  }

  lemma BeginAlone(s: System, bk: BindingKey)
    requires Quiescent(s) && Stored(s, bk).Some?
    ensures var h := BindingHistory(s.bindings, bk);
            var final := ChooseFinal(s.resources, bk, Stored(s, bk).value, At(0), At(0));
            DoBegin(s, bk, 0, At(0), At(0)) ==
              s.(attempts := map[bk := Attempt(Version(h), Latest(h).value, final, 0, map[])])
  {
  }

  lemma BeginKeepsGap(s: System, bk: BindingKey, k: ResourceKey)
    requires Quiescent(s) && Exists(s, k)
    ensures var t := DoBegin(s, bk, 0, At(0), At(0)); Exists(t, k) && Gap(t, k) == Gap(s, k)
  {
    LedgerChange(s, DoBegin(s, bk, 0, At(0), At(0)), bk, k);
  }

  lemma ChoosesFinal(s: System, bk: BindingKey)
    requires Stored(s, bk).Some?
    ensures HeadsFor(s, bk, ChooseFinal(s.resources, bk, Stored(s, bk).value, At(0), At(0)))
  {
  }

  /** Which final write an undisturbed attempt heads for: giving up a binding that is being deleted,
      giving a new one its finalizer, syncing one whose references resolve, and marking any other one. */
  predicate HeadsFor(s: System, bk: BindingKey, final: FinalWrite)
    requires Stored(s, bk).Some?
  {
    var b := Stored(s, bk).value;
    if b.meta.deleting then final == RemoveFinalizer
    else if !b.meta.finalizer then final == AddFinalizer
    else if Resolvable(s, bk) then final == Sync(ContentHash(s, ConfigKey(bk, b.spec.pipelineConfigRef)))
    else final == MarkInvalid(InvalidReason(s, bk))
  }

  function InvalidReason(s: System, bk: BindingKey): string
    requires Stored(s, bk).Some?
  {
    if !Exists(s, ConfigKey(bk, Stored(s, bk).value.spec.pipelineConfigRef)) then "PipelineConfigNotFound"
    else "CollectorGroupNotFound"
  }

  /** Only a release can find its resource gone, and it is passed over: what is claimed has just been
      checked to exist. */
  lemma MissingIsTolerated(s: System, bk: BindingKey, a: Attempt, j: nat)
    requires Stored(s, bk) == Some(a.obj) && HeadsFor(s, bk, a.final)
    requires j < |Plan(bk, a)| && Plan(bk, a)[j].Some? && !Exists(s, Plan(bk, a)[j].value.target)
    ensures Plan(bk, a)[j].value.toleratesMissing
  {
  }

  lemma Moves(s: System, t: System, bk: BindingKey, final: FinalWrite, j: nat)
    requires Stored(s, bk).Some? && HeadsFor(s, bk, final) && Underway(s, t, bk, final, j)
    ensures Underway(s, DoMoveCounter(t, bk, 0, Healthy), bk, final, j + 1)
  {
    if j < |Plan(bk, t.attempts[bk])| {
      MovesNext(s, t, bk, final, j, NextStep(bk, t.attempts[bk]));
    } else {
      NoMoreSteps(s, t, bk, final, j);
    }
  }

  lemma MovesNext(s: System, t: System, bk: BindingKey, final: FinalWrite, j: nat, step: Option<Move>)
    requires Stored(s, bk).Some? && HeadsFor(s, bk, final) && Underway(s, t, bk, final, j)
    requires j < |Plan(bk, t.attempts[bk])| && step == NextStep(bk, t.attempts[bk])
    ensures Underway(s, DoMoveCounter(t, bk, 0, Healthy), bk, final, j + 1)
  {
    var commits := step.Some? && Exists(t, step.value.target);
    NextIsFree(s, t, bk, final, j);
    MoveSucceeds(t, bk);
    MoveCounterOk(t, bk, 0, Healthy);
    MovedOn(s, t, DoMoveCounter(t, bk, 0, Healthy), bk, final, j, step, commits);
  }

  lemma NextIsFree(s: System, t: System, bk: BindingKey, final: FinalWrite, j: nat)
    requires Stored(s, bk).Some? && HeadsFor(s, bk, final) && Underway(s, t, bk, final, j)
    requires j < |Plan(bk, t.attempts[bk])|
    ensures var step := NextStep(bk, t.attempts[bk]);
            step.Some? && !Exists(t, step.value.target) ==> step.value.toleratesMissing
  {
    var step := NextStep(bk, t.attempts[bk]);
    if step.Some? && !Exists(t, step.value.target) {
      assert SameResource(s, t, step.value.target);
      MissingIsTolerated(s, bk, t.attempts[bk], j);
    }
  }

  lemma NoMoreSteps(s: System, t: System, bk: BindingKey, final: FinalWrite, j: nat)
    requires Underway(s, t, bk, final, j) && j >= |Plan(bk, t.attempts[bk])|
    ensures DoMoveCounter(t, bk, 0, Healthy) == t && Underway(s, t, bk, final, j + 1)
  {
  }

  /** The same, from the effect of the step alone. */
  lemma MovedOn(s: System, t: System, t': System, bk: BindingKey, final: FinalWrite, j: nat, step: Option<Move>,
                commits: bool)
    requires Underway(s, t, bk, final, j) && j < |Plan(bk, t.attempts[bk])| && step == NextStep(bk, t.attempts[bk])
    requires commits <==> step.Some? && Exists(t, step.value.target)
    requires WellFormed(t') && Moved(t, t', bk, step, commits) && bk in t'.attempts
    ensures Underway(s, t', bk, final, j + 1)
  {
    NextStepSound(bk, t.attempts[bk]);
    if step.Some? { assert SameResource(s, t, step.value.target); }
    SameAfterRecount(s, t, t', step, commits);
    MovedKeepsGaps(s, t, t', bk, step, commits);
    MovesOneMore(s, bk, t.attempts[bk], t'.attempts[bk], j);
    assert t'.attempts.Keys == {bk};
  }

  lemma MovedKeepsGaps(s: System, t: System, t': System, bk: BindingKey, step: Option<Move>, commits: bool)
    requires WellFormed(t) && GapsKept(s, t) && SameResources(s, t')
    requires Moved(t, t', bk, step, commits) && StepSound(t.attempts[bk], step) && bk in t'.attempts
    ensures GapsKept(s, t')
  {
    forall k | Exists(s, k) ensures Exists(t', k) && Gap(t', k) == Gap(s, k) {
      assert SameResource(s, t', k);
      MovedDrift(t, t', bk, step, commits, k);
    }
  }

  /** A fresh, healthy counter write goes through if its resource exists, and else is passed over. */
  lemma MoveSucceeds(t: System, bk: BindingKey)
    requires bk in t.attempts && t.attempts[bk].next < |Plan(bk, t.attempts[bk])|
    requires var step := NextStep(bk, t.attempts[bk]);
             step.Some? && !Exists(t, step.value.target) ==> step.value.toleratesMissing
    ensures var step, t' := NextStep(bk, t.attempts[bk]), DoMoveCounter(t, bk, 0, Healthy);
            bk in t'.attempts && Moved(t, t', bk, step, step.Some? && Exists(t, step.value.target))
  {
    MoveEffect(t, bk, 0, Healthy);
  }

  /** What an undisturbed attempt does to its binding, and that it does nothing else. */
  ghost predicate Reconciled(s: System, t: System, bk: BindingKey) {
    && Quiescent(t) && t.dirty == s.dirty && SameResources(s, t) && GapsKept(s, t)
    && (forall x :: x != bk ==> Stored(t, x) == Stored(s, x))
    && Live(t, bk) && Live(s, bk)
    && Rebound(s, bk, Stored(t, bk).value)
  }

  /** A resolvable binding is bound to its spec and has the hash; any other stays bound as it was. */
  predicate Rebound(s: System, bk: BindingKey, b': Binding)
    requires Live(s, bk)
  {
    var b := Stored(s, bk).value;
    && b'.spec == b.spec
    && (Resolvable(s, bk) ==>
         && b'.status.boundPipelineConfigRef == b.spec.pipelineConfigRef
         && b'.status.boundCollectorGroupRef == b.spec.collectorGroupRef
         && b'.status.configHash == ContentHash(s, ConfigKey(bk, b.spec.pipelineConfigRef)))
    && (!Resolvable(s, bk) ==>
         && b'.status.boundPipelineConfigRef == b.status.boundPipelineConfigRef
         && b'.status.boundCollectorGroupRef == b.status.boundCollectorGroupRef)
  }

  /** What the status of a live binding says after an undisturbed attempt at time `now`. */
  predicate Reported(cfg: Config, s: System, bk: BindingKey, b': Binding, now: int)
    requires Live(s, bk)
  {
    var b := Stored(s, bk).value;
    && b'.meta == b.meta && b'.spec == b.spec
    && b'.status.observedGeneration == b.meta.generation
    && (Resolvable(s, bk) ==>
         && b'.status.phase == Active
         && FirstOf(b'.status.conditions, Condition(REFS_VALID, ConditionTrue, "RefsResolved", b.meta.generation))
         && b'.status.configHash == ContentHash(s, ConfigKey(bk, b.spec.pipelineConfigRef))
         && b'.status.lastSyncedAt == now
         && b'.status.boundPipelineConfigRef == b.spec.pipelineConfigRef
         && b'.status.boundCollectorGroupRef == b.spec.collectorGroupRef
         && b'.status.registeredTenants == Evict(b.status.registeredTenants, cfg.ttl, now))
    && (!Resolvable(s, bk) ==>
         && b'.status.phase == Degraded
         && FirstOf(b'.status.conditions,
                    Condition(REFS_VALID, ConditionFalse, InvalidReason(s, bk), b.meta.generation))
         && b'.status.configHash == b.status.configHash && b'.status.lastSyncedAt == b.status.lastSyncedAt
         && b'.status.boundPipelineConfigRef == b.status.boundPipelineConfigRef
         && b'.status.boundCollectorGroupRef == b.status.boundCollectorGroupRef
         && b'.status.registeredTenants == b.status.registeredTenants)
  }

  /** The state after an undisturbed attempt: the binding is as its final write leaves it, counters are
      as far off as they were, and nothing else has changed. */
  ghost predicate Finished(s: System, t: System, bk: BindingKey, b: Option<Binding>) {
    && Quiescent(t) && t.dirty == s.dirty && SameResources(s, t) && GapsKept(s, t)
    && Stored(t, bk) == b
    && (forall x :: x != bk ==> Stored(t, x) == Stored(s, x))
  }

  /** The object that an undisturbed attempt writes last. */
  function FinalOf(cfg: Config, b: Binding, final: FinalWrite, now: int): Binding {
    FinalObject(cfg, Attempt(0, b, final, 0, map[]), now)
  }

  lemma Finishes(cfg: Config, s: System, t: System, bk: BindingKey, final: FinalWrite, now: int)
    requires Stored(s, bk).Some? && Underway(s, t, bk, final, 4)
    ensures Finished(s, Step(cfg, t, Finish(bk, now, Healthy)), bk,
                     AdmitBinding(FinalOf(cfg, Stored(s, bk).value, final, now)))
  {
    var a := t.attempts[bk];
    var t' := DoFinish(cfg, t, bk, now, Healthy);
    assert |Plan(bk, a)| <= 4 && a.next == |Plan(bk, a)|;
    OwesNothing(s, t, bk, a);
    FinishEnds(cfg, t, bk, now, Healthy);
    FinishOk(cfg, t, bk, now, Healthy);
    FinishFrame(cfg, t, bk, now, Healthy);
    FinishStores(cfg, t, bk, now, Healthy);
    FinishedKeepsGaps(cfg, s, t, bk, now);
    assert t'.attempts == map[];
    forall x | x != bk ensures Stored(t', x) == Stored(s, x) {
      assert BindingHistory(t'.bindings, x) == BindingHistory(t.bindings, x);
    }
  }

  lemma OwesNothing(s: System, t: System, bk: BindingKey, a: Attempt)
    requires SameResources(s, t) && AllMovedSoFar(s, bk, a, 4) && |Plan(bk, a)| <= 4
    ensures NothingOwed(t.resources, bk, a)
  {
    forall i | 0 <= i < |Plan(bk, a)| && Plan(bk, a)[i].Some?
      ensures Plan(bk, a)[i].value.target in a.moved || !Exists(t, Plan(bk, a)[i].value.target)
    {
      assert SameResource(s, t, Plan(bk, a)[i].value.target);
    }
  }

  lemma FinishedKeepsGaps(cfg: Config, s: System, t: System, bk: BindingKey, now: int)
    requires WellFormed(t) && SameResources(s, t) && GapsKept(s, t)
    requires bk in t.attempts && t.attempts[bk].next == |Plan(bk, t.attempts[bk])|
    requires DoFinish(cfg, t, bk, now, Healthy).dirty == t.dirty
    requires DoFinish(cfg, t, bk, now, Healthy).resources == t.resources
    ensures GapsKept(s, DoFinish(cfg, t, bk, now, Healthy)) && SameResources(s, DoFinish(cfg, t, bk, now, Healthy))
  {
    var t' := DoFinish(cfg, t, bk, now, Healthy);
    forall k | Exists(s, k) ensures Exists(t', k) && Gap(t', k) == Gap(s, k) {
      FinishKeepsGap(cfg, t, bk, now, Healthy, k);
    }
    forall k ensures SameResource(t, t', k) { }
    SameResourcesTrans(s, t, t');
  }

  lemma AllMoves(cfg: Config, s: System, t: System, bk: BindingKey, final: FinalWrite, n: nat)
    requires Stored(s, bk).Some? && HeadsFor(s, bk, final) && Underway(s, t, bk, final, 0)
    ensures Underway(s, Run(cfg, t, CounterSteps(bk, n)), bk, final, n)
  {
    forall u, j: nat | Underway(s, u, bk, final, j)
      ensures Underway(s, DoMoveCounter(u, bk, 0, Healthy), bk, final, j + 1)
    {
      Moves(s, u, bk, final, j);
    }
    StepsLead(cfg, t, bk, n, (u, j: nat) => Underway(s, u, bk, final, j));
  }

  /** What every counter step takes one step further, `n` of them take `n` steps further. */
  lemma {:induction false} StepsLead(cfg: Config, t: System, bk: BindingKey, n: nat, p: (System, nat) -> bool)
    requires p(t, 0) && forall u, j: nat :: p(u, j) ==> p(DoMoveCounter(u, bk, 0, Healthy), j + 1)
    ensures p(Run(cfg, t, CounterSteps(bk, n)), n)
  {
    if n > 0 {
      StepsLead(cfg, t, bk, n - 1, p);
      RunSnoc(cfg, t, CounterSteps(bk, n - 1), MoveCounter(bk, 0, Healthy));
    }
  }

  lemma AttemptFinishes(cfg: Config, s: System, bk: BindingKey, now: int) returns (final: FinalWrite)
    requires Quiescent(s) && Stored(s, bk).Some?
    ensures HeadsFor(s, bk, final)
    ensures Finished(s, Run(cfg, s, FreshAttempt(bk, now)), bk,
                     AdmitBinding(FinalOf(cfg, Stored(s, bk).value, final, now)))
  {
    var begin, moves := Begin(bk, 0, At(0), At(0)), CounterSteps(bk, 4);
    final := ChooseFinal(s.resources, bk, Stored(s, bk).value, At(0), At(0));
    Begins(cfg, s, bk);
    AllMoves(cfg, s, Step(cfg, s, begin), bk, final, 4);
    Finishes(cfg, s, Run(cfg, Step(cfg, s, begin), moves), bk, final, now);
    RunBracketed(cfg, s, begin, moves, Finish(bk, now, Healthy));
  }

  /** An undisturbed attempt on a live binding. */
  lemma AttemptReconciles(cfg: Config, s: System, bk: BindingKey, now: int)
    requires Quiescent(s) && Live(s, bk)
    ensures var t := Run(cfg, s, FreshAttempt(bk, now));
            Reconciled(s, t, bk) && Reported(cfg, s, bk, Stored(t, bk).value, now)
  {
    var final := AttemptFinishes(cfg, s, bk, now);
    FinalReports(cfg, s, bk, final, now);
  }

  lemma FinalReports(cfg: Config, s: System, bk: BindingKey, final: FinalWrite, now: int)
    requires Live(s, bk) && HeadsFor(s, bk, final)
    ensures var b' := FinalOf(cfg, Stored(s, bk).value, final, now);
            AdmitBinding(b') == Some(b') && Rebound(s, bk, b') && Reported(cfg, s, bk, b', now)
  {
    var b := Stored(s, bk).value;
    var b' := FinalOf(cfg, b, final, now);
    if final.Sync? {
      SetIsFirst(b.status.conditions, Condition(REFS_VALID, ConditionTrue, "RefsResolved", b.meta.generation));
    } else {
      SetIsFirst(b.status.conditions, Condition(REFS_VALID, ConditionFalse, final.reason, b.meta.generation));
    }
    PhaseMeaning(b'.status.conditions);
    OnlyFirst(b'.status.conditions);
  }

  lemma OnlyFirst(cs: seq<Condition>)
    ensures forall c: Condition, d: Condition :: FirstOf(cs, c) && FirstOf(cs, d) && c.kind == d.kind ==> c == d
  {
  }

  /** An undisturbed attempt on a new binding gives it its finalizer and does nothing else. */
  lemma AttemptFinalizes(cfg: Config, s: System, bk: BindingKey, now: int)
    requires Quiescent(s) && Stored(s, bk).Some?
    requires !Stored(s, bk).value.meta.deleting && !Stored(s, bk).value.meta.finalizer
    ensures var b, t := Stored(s, bk).value, Run(cfg, s, FreshAttempt(bk, now));
            && Finished(s, t, bk, Some(Binding(Meta(b.meta.generation, true, false), b.spec, b.status)))
            && forall k :: Exists(s, k) ==> ActiveBindings(t, k) == ActiveBindings(s, k)
  {
    var b, t := Stored(s, bk).value, Run(cfg, s, FreshAttempt(bk, now));
    var final := AttemptFinishes(cfg, s, bk, now);
    forall k | Exists(s, k) ensures ActiveBindings(t, k) == ActiveBindings(s, k) {
      SameBoundSameCount(s, t, bk, k);
    }
  }

  /** An undisturbed attempt on a binding that is being deleted removes it and takes it out of the
      counters of what it was bound to. */
  lemma AttemptReleases(cfg: Config, s: System, bk: BindingKey, now: int)
    requires Quiescent(s) && Stored(s, bk).Some? && Stored(s, bk).value.meta.deleting
    ensures var t := Run(cfg, s, FreshAttempt(bk, now));
            && Finished(s, t, bk, None)
            && forall k :: Exists(s, k) ==>
                 ActiveBindings(t, k) == ActiveBindings(s, k) - Bit(IsBound(s.bindings, bk, k))
  {
    var t := Run(cfg, s, FreshAttempt(bk, now));
    var final := AttemptFinishes(cfg, s, bk, now);
    forall k | Exists(s, k) ensures ActiveBindings(t, k) == ActiveBindings(s, k) - Bit(IsBound(s.bindings, bk, k)) {
      SameBoundSameCount(s, t, bk, k);
    }
  }

  /** Where the gap is kept and nothing is in flight, the counter follows what is bound. */
  lemma SameBoundSameCount(s: System, t: System, bk: BindingKey, k: ResourceKey)
    requires Quiescent(s) && Quiescent(t) && Exists(s, k) && GapsKept(s, t)
    requires forall x :: x != bk ==> Stored(t, x) == Stored(s, x)
    ensures Exists(t, k)
    ensures ActiveBindings(t, k) - ActiveBindings(s, k) ==
              Bit(IsBound(t.bindings, bk, k)) - Bit(IsBound(s.bindings, bk, k))
  {
    assert Moving(s.attempts, k, 1) == {} && Moving(s.attempts, k, -1) == {};
    assert Moving(t.attempts, k, 1) == {} && Moving(t.attempts, k, -1) == {};
    forall x | x != bk ensures x in Bound(s.bindings, k) <==> x in Bound(t.bindings, k) {
      assert Stored(t, x) == Stored(s, x);
    }
    CardinalityAt(Bound(s.bindings, k), Bound(t.bindings, k), bk);
  }

  /* ---- batches ---- */

  function Keys(rs: seq<Request>): set<BindingKey> { set i | 0 <= i < |rs| :: rs[i].bk }

  /** Where a binding ends up: at its spec if it was reconciled and resolvable, else where it was. */
  predicate EndsBound(s: System, done: set<BindingKey>, bk: BindingKey, k: ResourceKey) {
    if bk in done && Resolvable(s, bk) then RefersTo(bk, Stored(s, bk).value, k) else IsBound(s.bindings, bk, k)
  }

  function Expected(s: System, done: set<BindingKey>, k: ResourceKey): set<BindingKey> {
    set bk | bk in s.bindings && EndsBound(s, done, bk, k)
  }

  ghost predicate BatchDone(s: System, t: System, done: set<BindingKey>) {
    && Quiescent(t) && t.dirty == s.dirty && SameResources(s, t) && GapsKept(s, t)
    && (forall bk :: Stored(s, bk).Some? == Stored(t, bk).Some?)
    && (forall bk :: Stored(s, bk).Some? ==>
        Stored(t, bk).value.spec == Stored(s, bk).value.spec && Live(s, bk) == Live(t, bk))
    && (forall bk, k :: IsBound(t.bindings, bk, k) == EndsBound(s, done, bk, k))
    && (forall bk :: bk in done && Resolvable(s, bk) ==>
         Stored(t, bk).value.status.configHash ==
           ContentHash(s, ConfigKey(bk, Stored(s, bk).value.spec.pipelineConfigRef)))
  }

  lemma SameResolvable(s: System, t: System)
    requires SameResources(s, t)
    requires forall bk :: Stored(s, bk).Some? == Stored(t, bk).Some?
    requires forall bk :: Stored(s, bk).Some? ==> Stored(t, bk).value.spec == Stored(s, bk).value.spec
    ensures forall bk :: Resolvable(t, bk) == Resolvable(s, bk)
    ensures forall k :: Exists(s, k) ==> Exists(t, k) && ContentHash(t, k) == ContentHash(s, k)
  {
    forall k ensures Exists(s, k) == Exists(t, k) && (Exists(s, k) ==> ContentHash(t, k) == ContentHash(s, k)) {
      assert SameResource(s, t, k);
    }
  }

  lemma BatchStep(s: System, t: System, t': System, done: set<BindingKey>, bk: BindingKey)
    requires Live(s, bk) && BatchDone(s, t, done) && Reconciled(t, t', bk)
    ensures BatchDone(s, t', done + {bk})
  {
    SameResourcesTrans(s, t, t');
    SameResolvable(s, t);
    forall x, k ensures IsBound(t'.bindings, x, k) == EndsBound(s, done + {bk}, x, k) {
      assert IsBound(t.bindings, x, k) == EndsBound(s, done, x, k);
      if x == bk {
        ReboundEnds(t, t', bk, k);
      } else {
        assert Stored(t', x) == Stored(t, x);
      }
    }
  }

  lemma ReboundEnds(t: System, t': System, bk: BindingKey, k: ResourceKey)
    requires Reconciled(t, t', bk)
    ensures IsBound(t'.bindings, bk, k) == EndsBound(t, {bk}, bk, k)
  {
  }

  lemma BatchMore(cfg: Config, s: System, t: System, done: set<BindingKey>, r: Request)
    requires BatchDone(s, t, done) && Live(s, r.bk)
    ensures BatchDone(s, Run(cfg, t, FreshAttempt(r.bk, r.now)), done + {r.bk})
  {
    AttemptReconciles(cfg, t, r.bk, r.now);
    BatchStep(s, t, Run(cfg, t, FreshAttempt(r.bk, r.now)), done, r.bk);
  }

  lemma BatchNone(s: System)
    requires Quiescent(s)
    ensures BatchDone(s, s, {})
  {
  }

  lemma BatchSnoc(cfg: Config, s: System, rs: seq<Request>)
    requires rs != []
    ensures var r := rs[|rs| - 1];
            Run(cfg, s, Batch(rs)) == Run(cfg, Run(cfg, s, Batch(rs[..|rs| - 1])), FreshAttempt(r.bk, r.now))
  {
    RunConcat(cfg, s, Batch(rs[..|rs| - 1]), FreshAttempt(rs[|rs| - 1].bk, rs[|rs| - 1].now));
  }

  lemma {:induction false} BatchReconciles(cfg: Config, s: System, rs: seq<Request>)
    requires Quiescent(s) && forall i :: 0 <= i < |rs| ==> Live(s, rs[i].bk)
    ensures BatchDone(s, Run(cfg, s, Batch(rs)), Keys(rs))
  {
    if rs == [] {
      assert Keys(rs) == {};
      BatchNone(s);
    } else {
      var init := rs[..|rs| - 1];
      BatchReconciles(cfg, s, init);
      BatchLast(cfg, s, rs, Run(cfg, s, Batch(init)), Keys(init));
    }
  }

  lemma BatchLast(cfg: Config, s: System, rs: seq<Request>, t: System, done: set<BindingKey>)
    requires rs != [] && Live(s, rs[|rs| - 1].bk)
    requires t == Run(cfg, s, Batch(rs[..|rs| - 1])) && done == Keys(rs[..|rs| - 1]) && BatchDone(s, t, done)
    ensures BatchDone(s, Run(cfg, s, Batch(rs)), Keys(rs))
  {
    var last := rs[|rs| - 1];
    assert Keys(rs) == done + {last.bk};
    BatchSnoc(cfg, s, rs);
    BatchMore(cfg, s, t, done, last);
  }

  /** After reconciling any bindings in any order, each counter is as far off as before from the
      number of bindings that end up there: reconciled resolvable ones by their spec, all others by
      their old bound refs. */
  lemma BatchCounts(cfg: Config, s: System, rs: seq<Request>, k: ResourceKey)
    requires Quiescent(s) && forall i :: 0 <= i < |rs| ==> Live(s, rs[i].bk)
    ensures var t := Run(cfg, s, Batch(rs));
            && Exists(t, k) == Exists(s, k)
            && (Exists(t, k) ==> ActiveBindings(t, k) == Gap(s, k) + |Expected(s, Keys(rs), k)|)
  {
    BatchReconciles(cfg, s, rs);
    DoneCounts(s, Run(cfg, s, Batch(rs)), Keys(rs), k);
  }

  lemma DoneCounts(s: System, t: System, done: set<BindingKey>, k: ResourceKey)
    requires BatchDone(s, t, done)
    ensures Exists(t, k) == Exists(s, k)
    ensures Exists(t, k) ==> ActiveBindings(t, k) == Gap(s, k) + |Expected(s, done, k)|
  {
    assert SameResource(s, t, k);
    assert Moving(t.attempts, k, 1) == {} && Moving(t.attempts, k, -1) == {};
    forall bk ensures bk in Bound(t.bindings, k) <==> bk in Expected(s, done, k) {
      assert IsBound(t.bindings, bk, k) == EndsBound(s, done, bk, k);
      assert EndsBound(s, done, bk, k) ==> bk in s.bindings;
      assert IsBound(t.bindings, bk, k) ==> bk in t.bindings;
    }
    assert Bound(t.bindings, k) == Expected(s, done, k);
  }

  /** Confluence: two batches over the same bindings, in any order and with any repetitions and
      times, leave the same counters. */
  lemma OrderDoesNotMatter(cfg: Config, s: System, rs: seq<Request>, qs: seq<Request>, k: ResourceKey)
    requires Quiescent(s) && Keys(rs) == Keys(qs) && forall bk :: bk in Keys(rs) ==> Live(s, bk)
    ensures var t, u := Run(cfg, s, Batch(rs)), Run(cfg, s, Batch(qs));
            Exists(t, k) == Exists(u, k) && (Exists(t, k) ==> ActiveBindings(t, k) == ActiveBindings(u, k))
  {
    forall i | 0 <= i < |rs| ensures Live(s, rs[i].bk) { assert rs[i].bk in Keys(rs); }
    forall i | 0 <= i < |qs| ensures Live(s, qs[i].bk) { assert qs[i].bk in Keys(qs); }
    BatchCounts(cfg, s, rs, k);
    BatchCounts(cfg, s, qs, k);
  }

  /** From a state without drift, the counters end up as the plain number of bindings. */
  lemma ExactBatchCounts(cfg: Config, s: System, rs: seq<Request>, k: ResourceKey)
    requires Quiescent(s) && CountsExact(s) && forall i :: 0 <= i < |rs| ==> Live(s, rs[i].bk)
    ensures var t := Run(cfg, s, Batch(rs)); Exists(t, k) ==> ActiveBindings(t, k) == |Expected(s, Keys(rs), k)|
  {
    BatchCounts(cfg, s, rs, k);
  }
}
