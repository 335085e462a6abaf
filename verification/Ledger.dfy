/** Reference counting.  The ledger value of a resource is the number of stored bindings whose
    bound references name it, plus the increments and minus the decrements that attempts still
    in flight have committed.  `activeBindings` may differ from it by at most the number of
    attempts that ended without being clean. */
module Ledger {
  import opened Api
  import opened Histories
  import opened Tenants
  import opened Protocol
  import opened Invariants

  predicate IsBound(bindings: Bindings, bk: BindingKey, k: ResourceKey) {
    var b := Latest(BindingHistory(bindings, bk));
    b.Some? && BoundTo(bk, b.value, k)
  }

  predicate HasMoved(attempts: map<BindingKey, Attempt>, bk: BindingKey, k: ResourceKey, delta: int) {
    bk in attempts && k in attempts[bk].moved && attempts[bk].moved[k] == delta
  }

  function Bound(bindings: Bindings, k: ResourceKey): set<BindingKey> {
    set bk | bk in bindings && IsBound(bindings, bk, k)
  }

  function Moving(attempts: map<BindingKey, Attempt>, k: ResourceKey, delta: int): set<BindingKey> {
    set bk | bk in attempts && HasMoved(attempts, bk, k, delta)
  }

  function LedgerValue(bindings: Bindings, attempts: map<BindingKey, Attempt>, k: ResourceKey): int {
    |Bound(bindings, k)| + |Moving(attempts, k, 1)| - |Moving(attempts, k, -1)|
  }

  function ActiveBindings(s: System, k: ResourceKey): int
    requires Exists(s, k)
  {
    Latest(ResourceHistory(s.resources, k)).value.status.activeBindings
  }

  /** How far the counter of `k` is off. */
  function Gap(s: System, k: ResourceKey): int
    requires Exists(s, k)
  {
    ActiveBindings(s, k) - LedgerValue(s.bindings, s.attempts, k)
  }

  function Abs(x: int): nat { if x < 0 then -x else x }

  /* ---- the ledger changes only at the binding that is written ---- */

  function Share(bindings: Bindings, attempts: map<BindingKey, Attempt>, bk: BindingKey, k: ResourceKey): int {
    Bit(IsBound(bindings, bk, k)) + Bit(HasMoved(attempts, bk, k, 1)) - Bit(HasMoved(attempts, bk, k, -1))
  }

  lemma CardinalityAt<T>(a: set<T>, b: set<T>, x: T)
    requires forall y :: y != x ==> (y in a <==> y in b)
    ensures |b| - |a| == Bit(x in b) - Bit(x in a)
  {
    assert a - {x} == b - {x};
    assert |a| == |a - {x}| + Bit(x in a);
    assert |b| == |b - {x}| + Bit(x in b);
  }

  lemma LedgerChange(s: System, s': System, bk: BindingKey, k: ResourceKey)
    requires SameElsewhere(s, s', bk)
    ensures LedgerValue(s'.bindings, s'.attempts, k) - LedgerValue(s.bindings, s.attempts, k)
         == Share(s'.bindings, s'.attempts, bk, k) - Share(s.bindings, s.attempts, bk, k)
  {
    BoundChange(s, s', bk, k);
    MovingChange(s, s', bk, k, 1);
    MovingChange(s, s', bk, k, -1);
  }

  lemma BoundChange(s: System, s': System, bk: BindingKey, k: ResourceKey)
    requires SameElsewhere(s, s', bk)
    ensures |Bound(s'.bindings, k)| - |Bound(s.bindings, k)| ==
              Bit(IsBound(s'.bindings, bk, k)) - Bit(IsBound(s.bindings, bk, k))
  {
    forall x | x != bk ensures x in Bound(s.bindings, k) <==> x in Bound(s'.bindings, k) {
      assert BindingHistory(s'.bindings, x) == BindingHistory(s.bindings, x);
    }
    CardinalityAt(Bound(s.bindings, k), Bound(s'.bindings, k), bk);
  }

  lemma MovingChange(s: System, s': System, bk: BindingKey, k: ResourceKey, delta: int)
    requires SameElsewhere(s, s', bk)
    ensures |Moving(s'.attempts, k, delta)| - |Moving(s.attempts, k, delta)|
         == Bit(HasMoved(s'.attempts, bk, k, delta)) - Bit(HasMoved(s.attempts, bk, k, delta))
  {
    CardinalityAt(Moving(s.attempts, k, delta), Moving(s'.attempts, k, delta), bk);
  }

  /* ---- which steps touch what ---- */

  /** Only counter writes change a counter: every other step keeps it or starts it at 0.  In
      particular the whole-status write of the PipelineConfig reconciler never disturbs it. */
  lemma OnlyMovesCount(cfg: Config, s: System, e: Event, k: ResourceKey)
    requires !e.MoveCounter? && Exists(Step(cfg, s, e), k)
    ensures Exists(s, k) ==> ActiveBindings(Step(cfg, s, e), k) == ActiveBindings(s, k)
    ensures !Exists(s, k) ==> e.CreateResource? && e.k == k && ActiveBindings(Step(cfg, s, e), k) == 0
  {
  }

  lemma ResourceStepFrame(cfg: Config, s: System, e: Event)
    requires ActsOnResource(e)
    ensures var s' := Step(cfg, s, e); s'.bindings == s.bindings && s'.attempts == s.attempts && s'.dirty == s.dirty
  {
  }

  lemma PatchFrame(s: System, bk: BindingKey, base: Binding, ts: seq<Tenant>)
    ensures SameElsewhere(s, DoPatchTenants(s, bk, base, ts), bk)
  {
  }

  lemma AttemptStepFrame(cfg: Config, s: System, e: Event)
    requires ActsOnAttempt(e)
    ensures SameElsewhere(s, Step(cfg, s, e), e.bk)
  {
    if e.MoveCounter? && e.bk in s.attempts && s.attempts[e.bk].next < |Plan(e.bk, s.attempts[e.bk])| {
      MoveEffect(s, e.bk, e.lag, e.fault);
    } else if e.Finish? {
      FinishFrame(cfg, s, e.bk, e.now, e.fault);
    }
  }

  lemma BindingStepFrame(cfg: Config, s: System, e: Event)
    requires !ActsOnResource(e)
    ensures SameElsewhere(s, Step(cfg, s, e), e.bk)
  {
    if ActsOnAttempt(e) {
      AttemptStepFrame(cfg, s, e);
    } else if e.RegisterPatch? || e.UnregisterPatch? {
      var read := ReadAt(BindingHistory(s.bindings, e.bk), e.lag);
      if read.Some? {
        var ts := read.value.status.registeredTenants;
        if e.RegisterPatch? {
          PatchFrame(s, e.bk, read.value, Upsert(ts, e.tenant));
        } else {
          PatchFrame(s, e.bk, read.value, RemoveCollector(ts, e.collectorId));
        }
      }
    }
  }

  /** User edits of a binding and registry patches leave what is bound alone. */
  lemma BoundKept(cfg: Config, s: System, e: Event, k: ResourceKey)
    requires WellFormed(s) && !ActsOnResource(e) && !ActsOnAttempt(e)
    ensures var s' := Step(cfg, s, e);
            && s'.attempts == s.attempts && s'.dirty == s.dirty && s'.resources == s.resources
            && IsBound(s'.bindings, e.bk, k) == IsBound(s.bindings, e.bk, k)
  {
    EditKeepsRefs(cfg, s, e);
  }

  /* ---- how one step of an attempt moves the gap ---- */

  function Committed(a: Attempt, k: ResourceKey): int { if k in a.moved then a.moved[k] else 0 }

  /** The final write commits. */
  predicate FinishCommits(s: System, bk: BindingKey, fault: Fault) {
    && bk in s.attempts
    && s.attempts[bk].version == Version(BindingHistory(s.bindings, bk))
    && !fault.Rejected?
  }

  lemma FinishFrame(cfg: Config, s: System, bk: BindingKey, now: int, fault: Fault)
    ensures SameElsewhere(s, DoFinish(cfg, s, bk, now, fault), bk)
  {
  }

  /** The object a final write stores is bound as the attempt set out to. */
  lemma FinalBinds(cfg: Config, bk: BindingKey, a: Attempt, now: int, k: ResourceKey)
    requires FinalOk(a) && BindingOk(a.obj)
    ensures var x := AdmitBinding(FinalObject(cfg, a, now));
            (x.Some? && BoundTo(bk, x.value, k)) == BoundAfter(bk, a, k)
  {
  }

  lemma CommitBinds(cfg: Config, s: System, s': System, bk: BindingKey, a: Attempt, now: int, k: ResourceKey)
    requires FinalOk(a) && BindingOk(a.obj) && Latest(BindingHistory(s.bindings, bk)) == Some(a.obj)
    requires Latest(BindingHistory(s'.bindings, bk)) == AdmitBinding(FinalObject(cfg, a, now))
    ensures IsBound(s.bindings, bk, k) == BoundTo(bk, a.obj, k) && IsBound(s'.bindings, bk, k) == BoundAfter(bk, a, k)
  {
    FinalBinds(cfg, bk, a, now, k);
  }

  /** What a final write leaves stored. */
  lemma FinishStores(cfg: Config, s: System, bk: BindingKey, now: int, fault: Fault)
    requires bk in s.attempts && s.attempts[bk].next >= |Plan(bk, s.attempts[bk])|
    ensures var a, s', h := s.attempts[bk], DoFinish(cfg, s, bk, now, fault), BindingHistory(s.bindings, bk);
            var h' := BindingHistory(s'.bindings, bk);
            if FinishCommits(s, bk, fault) then Latest(h') == AdmitBinding(FinalObject(cfg, a, now)) else h' == h
  {
  }

  lemma FinishEnds(cfg: Config, s: System, bk: BindingKey, now: int, fault: Fault)
    requires bk in s.attempts && s.attempts[bk].next >= |Plan(bk, s.attempts[bk])|
    ensures var s' := DoFinish(cfg, s, bk, now, fault);
            && bk !in s'.attempts && s'.resources == s.resources
            && s'.dirty == s.dirty + Bit(!Clean(s.resources, bk, s.attempts[bk], FinishCommits(s, bk, fault)))
  {
  }

  /** If the final write commits, the binding is bound exactly as the attempt set out to. */
  lemma FinishBinds(cfg: Config, s: System, bk: BindingKey, now: int, fault: Fault, k: ResourceKey)
    requires WellFormed(s) && bk in s.attempts && s.attempts[bk].next == |Plan(bk, s.attempts[bk])|
    ensures var a, s' := s.attempts[bk], DoFinish(cfg, s, bk, now, fault);
            && bk !in s'.attempts && s'.resources == s.resources
            && s'.dirty == s.dirty + Bit(!Clean(s.resources, bk, a, FinishCommits(s, bk, fault)))
            && (if FinishCommits(s, bk, fault)
                then && IsBound(s.bindings, bk, k) == BoundTo(bk, a.obj, k)
                     && IsBound(s'.bindings, bk, k) == BoundAfter(bk, a, k)
                else BindingHistory(s'.bindings, bk) == BindingHistory(s.bindings, bk))
  {
    FinishEnds(cfg, s, bk, now, fault);
    FinishStores(cfg, s, bk, now, fault);
    if FinishCommits(s, bk, fault) {
      assert BindingOk(s.attempts[bk].obj);
      CommitBinds(cfg, s, DoFinish(cfg, s, bk, now, fault), bk, s.attempts[bk], now, k);
    }
  }

  /** An attempt has moved a counter by what it owed there, or not at all. */
  lemma CleanSettles(resources: Resources, bk: BindingKey, a: Attempt, k: ResourceKey)
    requires FinalOk(a) && MovedOk(bk, a)
    ensures NothingOwed(resources, bk, a) && Latest(ResourceHistory(resources, k)).Some? ==>
              Committed(a, k) == Due(bk, a, k)
    ensures Committed(a, k) == 0 || Committed(a, k) == Due(bk, a, k)
  {
    PlanIsDue(bk, a);
  }

  /** An attempt that ends moves the ledger by what it leaves unsettled. */
  lemma EndedShare(s: System, s': System, bk: BindingKey, k: ResourceKey)
    requires SameElsewhere(s, s', bk) && bk in s.attempts && bk !in s'.attempts
    requires FinalOk(s.attempts[bk]) && MovedOk(bk, s.attempts[bk])
    ensures LedgerValue(s'.bindings, s'.attempts, k) - LedgerValue(s.bindings, s.attempts, k)
         == Bit(IsBound(s'.bindings, bk, k)) - Bit(IsBound(s.bindings, bk, k)) - Committed(s.attempts[bk], k)
  {
    CleanSettles(s.resources, bk, s.attempts[bk], k);
    LedgerChange(s, s', bk, k);
  }

  /** How much a final write adds to the gap: what the attempt has committed, less what it owed. */
  lemma DriftOfFinish(cfg: Config, s: System, bk: BindingKey, now: int, fault: Fault, k: ResourceKey)
    requires WellFormed(s) && Exists(s, k)
    requires bk in s.attempts && s.attempts[bk].next == |Plan(bk, s.attempts[bk])|
    ensures var a, s' := s.attempts[bk], DoFinish(cfg, s, bk, now, fault);
            && Exists(s', k)
            && Gap(s', k) - Gap(s, k) == Committed(a, k) - (if FinishCommits(s, bk, fault) then Due(bk, a, k) else 0)
  {
    FinishBinds(cfg, s, bk, now, fault, k);
    FinishFrame(cfg, s, bk, now, fault);
    EndedShare(s, DoFinish(cfg, s, bk, now, fault), bk, k);
  }

  /** A release that failed and was passed over costs exactly one count when the final write commits. */
  lemma SwallowedReleaseDrifts(cfg: Config, s: System, bk: BindingKey, now: int, k: ResourceKey)
    requires WellFormed(s) && Exists(s, k)
    requires bk in s.attempts && s.attempts[bk].next == |Plan(bk, s.attempts[bk])|
    requires s.attempts[bk].version == Version(BindingHistory(s.bindings, bk))
    requires Due(bk, s.attempts[bk], k) == -1 && k !in s.attempts[bk].moved
    ensures var s' := DoFinish(cfg, s, bk, now, Healthy);
            Exists(s', k) && Gap(s', k) == Gap(s, k) + 1 && s'.dirty == s.dirty + 1 && !IsBound(s'.bindings, bk, k)
  {
    DriftOfFinish(cfg, s, bk, now, Healthy, k);
    FinishBinds(cfg, s, bk, now, Healthy, k);
    PlanIsDue(bk, s.attempts[bk]);
  }

  /** The share of the attempt's binding follows the counter it moves. */
  lemma MoveShare(s: System, s': System, bk: BindingKey, k: ResourceKey, m: Move)
    requires SameElsewhere(s, s', bk) && s'.bindings == s.bindings && bk in s.attempts && bk in s'.attempts
    requires FinalOk(s.attempts[bk]) && MovedOk(bk, s.attempts[bk])
    requires m.delta == 1 || m.delta == -1
    requires m.target !in s.attempts[bk].moved && s'.attempts[bk].moved == s.attempts[bk].moved[m.target := m.delta]
    ensures LedgerValue(s'.bindings, s'.attempts, k) - LedgerValue(s.bindings, s.attempts, k) ==
              if k == m.target then m.delta else 0
  {
    LedgerChange(s, s', bk, k);
  }

  /** What a counter step adds to the gap: nothing while the attempt goes on, and all that the
      attempt has committed, this write included, when the step ends it. */
  function MoveDrift(s: System, bk: BindingKey, lag: nat, fault: Fault, k: ResourceKey): int {
    if bk !in s.attempts || bk in DoMoveCounter(s, bk, lag, fault).attempts then 0
    else
      var a := s.attempts[bk];
      Committed(a, k) + if MoveCommits(s, bk, lag, fault) then CountOf(NextStep(bk, a), k) else 0
  }

  function CountOf(step: Option<Move>, k: ResourceKey): int {
    if step.Some? && step.value.target == k then step.value.delta else 0
  }

  lemma DriftOfMove(s: System, bk: BindingKey, lag: nat, fault: Fault, k: ResourceKey)
    requires WellFormed(s) && Exists(DoMoveCounter(s, bk, lag, fault), k)
    ensures Exists(s, k)
    ensures var s' := DoMoveCounter(s, bk, lag, fault);
            && Gap(s', k) - Gap(s, k) == MoveDrift(s, bk, lag, fault, k)
            && s'.dirty >= s.dirty && Abs(MoveDrift(s, bk, lag, fault, k)) <= s'.dirty - s.dirty
  {
    if bk in s.attempts && s.attempts[bk].next < |Plan(bk, s.attempts[bk])| {
      MoveEffect(s, bk, lag, fault);
      NextStepSound(bk, s.attempts[bk]);
      MovedDrift(s, DoMoveCounter(s, bk, lag, fault), bk, NextStep(bk, s.attempts[bk]),
                 MoveCommits(s, bk, lag, fault), k);
    }
  }

  /** The same, from the effect alone. */
  lemma MovedDrift(s: System, s': System, bk: BindingKey, step: Option<Move>, commits: bool, k: ResourceKey)
    requires Moved(s, s', bk, step, commits) && StepSound(s.attempts[bk], step)
    requires FinalOk(s.attempts[bk]) && MovedOk(bk, s.attempts[bk])
    requires Exists(s', k)
    ensures Exists(s, k) && s'.dirty >= s.dirty && Abs(Gap(s', k) - Gap(s, k)) <= s'.dirty - s.dirty
    ensures Gap(s', k) - Gap(s, k)
         == if bk in s'.attempts then 0 else Committed(s.attempts[bk], k) + if commits then CountOf(step, k) else 0
  {
    RecountChanges(s, s', step, commits, k);
    if bk !in s'.attempts {
      CleanSettles(s.resources, bk, s.attempts[bk], k);
      EndedShare(s, s', bk, k);
    } else if commits {
      MoveShare(s, s', bk, k, step.value);
    } else {
      LedgerChange(s, s', bk, k);
    }
  }

  lemma RecountChanges(s: System, s': System, step: Option<Move>, commits: bool, k: ResourceKey)
    requires commits ==> step.Some? && Exists(s, step.value.target)
    requires s'.resources == (if commits then Recounted(s, step.value) else s.resources) && Exists(s', k)
    ensures Exists(s, k) && ActiveBindings(s', k) - ActiveBindings(s, k) == if commits then CountOf(step, k) else 0
  {
  }

  lemma DriftOfCrash(s: System, bk: BindingKey, k: ResourceKey)
    requires WellFormed(s) && Exists(s, k) && bk in s.attempts
    ensures var s' := DoCrash(s, bk);
            && Exists(s', k) && Gap(s', k) - Gap(s, k) == Committed(s.attempts[bk], k)
            && s'.dirty >= s.dirty && Abs(Committed(s.attempts[bk], k)) <= s'.dirty - s.dirty
  {
    CleanSettles(s.resources, bk, s.attempts[bk], k);
    EndedShare(s, DoCrash(s, bk), bk, k);
  }

  /** The drift of one step.  Only a step that ends an attempt has any. */
  function Drift(s: System, e: Event, k: ResourceKey): int {
    match e
    case Finish(bk, now, fault) =>
      if bk !in s.attempts || s.attempts[bk].next < |Plan(bk, s.attempts[bk])| then 0
      else Committed(s.attempts[bk], k) - if FinishCommits(s, bk, fault) then Due(bk, s.attempts[bk], k) else 0
    case MoveCounter(bk, lag, fault) => MoveDrift(s, bk, lag, fault, k)
    case Crash(bk) => if bk in s.attempts then Committed(s.attempts[bk], k) else 0
    case _ => 0
  }

  lemma FinishDriftBounded(cfg: Config, s: System, bk: BindingKey, now: int, fault: Fault, k: ResourceKey)
    requires WellFormed(s) && Exists(s, k)
    ensures var s' := DoFinish(cfg, s, bk, now, fault);
            s'.dirty >= s.dirty && Abs(Drift(s, Finish(bk, now, fault), k)) <= s'.dirty - s.dirty
  {
    if bk in s.attempts && s.attempts[bk].next == |Plan(bk, s.attempts[bk])| {
      FinishBinds(cfg, s, bk, now, fault, k);
      CleanSettles(s.resources, bk, s.attempts[bk], k);
    }
  }

  /** Every step moves the gap of a resource by exactly its drift, and the drift is not zero only if
      the step ends an attempt uncleanly; then it is 1 or -1. */
  lemma GapStep(cfg: Config, s: System, e: Event, k: ResourceKey)
    requires WellFormed(s) && Exists(s, k) && Exists(Step(cfg, s, e), k)
    ensures var s' := Step(cfg, s, e);
            && Gap(s', k) - Gap(s, k) == Drift(s, e, k)
            && s'.dirty >= s.dirty && Abs(Drift(s, e, k)) <= s'.dirty - s.dirty
  {
    if e.MoveCounter? {
      DriftOfMove(s, e.bk, e.lag, e.fault, k);
    } else if e.Finish? {
      FinishDriftBounded(cfg, s, e.bk, e.now, e.fault, k);
      if e.bk in s.attempts && s.attempts[e.bk].next == |Plan(e.bk, s.attempts[e.bk])| {
        DriftOfFinish(cfg, s, e.bk, e.now, e.fault, k);
      }
    } else if e.Crash? {
      if e.bk in s.attempts { DriftOfCrash(s, e.bk, k); }
    } else {
      QuietStep(cfg, s, e, k);
    }
  }

  /** The step leaves a drift: anywhere, if it ends its attempt without the final write, and on a stored
      resource if it is that write. */
  ghost predicate LeavesDrift(s: System, e: Event) {
    exists k :: Drift(s, e, k) != 0 && (e.Finish? && FinishCommits(s, e.bk, e.fault) ==> Exists(s, k))
  }

  /** What unclean means: an attempt's end counts as unclean exactly if it leaves a drift. */
  lemma UncleanIffDrifts(cfg: Config, s: System, e: Event)
    requires WellFormed(s) && ActsOnAttempt(e) && e.bk in s.attempts && e.bk !in Step(cfg, s, e).attempts
    ensures Step(cfg, s, e).dirty > s.dirty <==> LeavesDrift(s, e)
  {
    assert AttemptOk(e.bk, s.attempts[e.bk], BindingHistory(s.bindings, e.bk));
    if e.Finish? {
      FinishUnclean(cfg, s, e.bk, e.now, e.fault);
    } else if e.Crash? {
      MovedDrifts(e.bk, s.attempts[e.bk]);
      assert forall k :: Drift(s, e, k) == Committed(s.attempts[e.bk], k);
    } else {
      MoveUnclean(s, e.bk, e.lag, e.fault);
    }
  }

  /** An attempt that has moved a counter has committed something there. */
  lemma MovedDrifts(bk: BindingKey, a: Attempt)
    requires MovedOk(bk, a)
    ensures a.moved != map[] <==> exists k :: Committed(a, k) != 0
  {
    if a.moved != map[] {
      var k :| k in a.moved;
      assert Committed(a, k) != 0;
    }
  }

  lemma FinishUnclean(cfg: Config, s: System, bk: BindingKey, now: int, fault: Fault)
    requires WellFormed(s) && bk in s.attempts && bk !in DoFinish(cfg, s, bk, now, fault).attempts
    ensures DoFinish(cfg, s, bk, now, fault).dirty > s.dirty <==> LeavesDrift(s, Finish(bk, now, fault))
  {
    var a := s.attempts[bk];
    assert AttemptOk(bk, a, BindingHistory(s.bindings, bk));
    FinishEnds(cfg, s, bk, now, fault);
    if FinishCommits(s, bk, fault) {
      OwedDrifts(s, bk, a);
      assert forall k :: Drift(s, Finish(bk, now, fault), k) == Committed(a, k) - Due(bk, a, k);
    } else {
      MovedDrifts(bk, a);
      assert forall k :: Drift(s, Finish(bk, now, fault), k) == Committed(a, k);
    }
  }

  lemma OwedDrifts(s: System, bk: BindingKey, a: Attempt)
    requires FinalOk(a) && MovedOk(bk, a)
    ensures !NothingOwed(s.resources, bk, a) <==> exists k :: Committed(a, k) - Due(bk, a, k) != 0 && Exists(s, k)
  {
    PlanIsDue(bk, a);
    if !NothingOwed(s.resources, bk, a) {
      var i :| 0 <= i < |Plan(bk, a)| && Plan(bk, a)[i].Some? && Plan(bk, a)[i].value.target !in a.moved &&
        Latest(ResourceHistory(s.resources, Plan(bk, a)[i].value.target)).Some?;
      assert Committed(a, Plan(bk, a)[i].value.target) == 0;
    } else {
      forall k | Exists(s, k) ensures Committed(a, k) == Due(bk, a, k) { CleanSettles(s.resources, bk, a, k); }
    }
  }

  lemma MoveUnclean(s: System, bk: BindingKey, lag: nat, fault: Fault)
    requires WellFormed(s) && bk in s.attempts && bk !in DoMoveCounter(s, bk, lag, fault).attempts
    ensures DoMoveCounter(s, bk, lag, fault).dirty > s.dirty <==> LeavesDrift(s, MoveCounter(bk, lag, fault))
  {
    var a, s' := s.attempts[bk], DoMoveCounter(s, bk, lag, fault);
    var step, commits := NextStep(bk, a), MoveCommits(s, bk, lag, fault);
    assert AttemptOk(bk, a, BindingHistory(s.bindings, bk));
    MoveEffect(s, bk, lag, fault);
    NextStepSound(bk, a);
    if commits {
      assert Drift(s, MoveCounter(bk, lag, fault), step.value.target) != 0;
    } else {
      MovedDrifts(bk, a);
      assert forall k :: Drift(s, MoveCounter(bk, lag, fault), k) == Committed(a, k);
    }
  }

  lemma QuietStep(cfg: Config, s: System, e: Event, k: ResourceKey)
    requires WellFormed(s) && !e.MoveCounter? && !e.Finish? && !e.Crash?
    requires Exists(s, k) && Exists(Step(cfg, s, e), k)
    ensures Gap(Step(cfg, s, e), k) == Gap(s, k) && Step(cfg, s, e).dirty == s.dirty
  {
    OnlyMovesCount(cfg, s, e, k);
    if ActsOnResource(e) {
      ResourceStepFrame(cfg, s, e);
    } else {
      BindingStepFrame(cfg, s, e);
      LedgerChange(s, Step(cfg, s, e), e.bk, k);
      if !e.Begin? { BoundKept(cfg, s, e, k); }
    }
  }

  /* ---- names and their creation ---- */

  /** Whatever is bound or counted has been created at some point. */
  ghost predicate OnlyCreatedNames(s: System) {
    && (forall bk, k :: IsBound(s.bindings, bk, k) ==> Version(ResourceHistory(s.resources, k)) > 0)
    && (forall bk, k :: bk in s.attempts && k in s.attempts[bk].moved ==> Version(ResourceHistory(s.resources, k)) > 0)
  }

  lemma OnlyCreatedNamesStep(cfg: Config, s: System, e: Event)
    requires WellFormed(s) && OnlyCreatedNames(s)
    ensures OnlyCreatedNames(Step(cfg, s, e))
  {
    var s' := Step(cfg, s, e);
    forall bk, k | IsBound(s'.bindings, bk, k) ensures Version(ResourceHistory(s'.resources, k)) > 0 {
      BoundWasCreated(cfg, s, e, bk, k);
    }
    forall bk, k | bk in s'.attempts && k in s'.attempts[bk].moved
      ensures Version(ResourceHistory(s'.resources, k)) > 0
    {
      MovedWasCreated(cfg, s, e, bk, k);
    }
  }

  lemma BoundWasCreated(cfg: Config, s: System, e: Event, bk: BindingKey, k: ResourceKey)
    requires WellFormed(s) && OnlyCreatedNames(s) && IsBound(Step(cfg, s, e).bindings, bk, k)
    ensures Version(ResourceHistory(Step(cfg, s, e).resources, k)) > 0
  {
    ResourceHistoriesGrow(cfg, s, e, k);
    if ActsOnResource(e) {
      ResourceStepFrame(cfg, s, e);
      assert IsBound(s.bindings, bk, k);
    } else {
      BindingStepFrame(cfg, s, e);
      if bk == e.bk && !IsBound(s.bindings, bk, k) {
        BoundOnlyByFinish(cfg, s, e, k);
      } else {
        assert IsBound(s.bindings, bk, k);
      }
    }
  }

  lemma NewlyMoved(cfg: Config, s: System, e: Event, k: ResourceKey)
    requires WellFormed(s) && !ActsOnResource(e)
    requires var s' := Step(cfg, s, e); e.bk in s'.attempts && k in s'.attempts[e.bk].moved
    requires !(e.bk in s.attempts && k in s.attempts[e.bk].moved)
    ensures e.MoveCounter? && MoveCommits(s, e.bk, e.lag, e.fault)
    ensures Exists(Step(cfg, s, e), k) && Version(ResourceHistory(Step(cfg, s, e).resources, k)) > 0
  {
    OnlyMoveCounterMoves(cfg, s, e, k);
    MovedExists(s, e.bk, e.lag, e.fault, k);
  }

  lemma MovedExists(s: System, bk: BindingKey, lag: nat, fault: Fault, k: ResourceKey)
    requires WellFormed(s) && bk in s.attempts && s.attempts[bk].next < |Plan(bk, s.attempts[bk])| &&
              k !in s.attempts[bk].moved
    requires var s' := DoMoveCounter(s, bk, lag, fault); bk in s'.attempts && k in s'.attempts[bk].moved
    ensures MoveCommits(s, bk, lag, fault)
    ensures var s' := DoMoveCounter(s, bk, lag, fault); Exists(s', k) && Version(ResourceHistory(s'.resources, k)) > 0
  {
    MoveEffect(s, bk, lag, fault);
    NextStepSound(bk, s.attempts[bk]);
    NewlyCounted(s, DoMoveCounter(s, bk, lag, fault), bk, NextStep(bk, s.attempts[bk]),
                 MoveCommits(s, bk, lag, fault), k);
  }

  lemma NewlyCounted(s: System, s': System, bk: BindingKey, step: Option<Move>, commits: bool, k: ResourceKey)
    requires WellFormed(s) && Moved(s, s', bk, step, commits) && StepSound(s.attempts[bk], step)
    requires k !in s.attempts[bk].moved && bk in s'.attempts && k in s'.attempts[bk].moved
    ensures commits && Exists(s', k) && Version(ResourceHistory(s'.resources, k)) > 0
  {
    if commits { RecountedExists(s, step.value); }
  }

  lemma OnlyMoveCounterMoves(cfg: Config, s: System, e: Event, k: ResourceKey)
    requires !ActsOnResource(e)
    requires var s' := Step(cfg, s, e); e.bk in s'.attempts && k in s'.attempts[e.bk].moved
    requires !(e.bk in s.attempts && k in s.attempts[e.bk].moved)
    ensures e.MoveCounter? && e.bk in s.attempts && s.attempts[e.bk].next < |Plan(e.bk, s.attempts[e.bk])|
  {
  }

  lemma MovedWasCreated(cfg: Config, s: System, e: Event, bk: BindingKey, k: ResourceKey)
    requires WellFormed(s) && OnlyCreatedNames(s)
    requires var s' := Step(cfg, s, e); bk in s'.attempts && k in s'.attempts[bk].moved
    ensures Version(ResourceHistory(Step(cfg, s, e).resources, k)) > 0
  {
    ResourceHistoriesGrow(cfg, s, e, k);
    if ActsOnResource(e) {
      ResourceStepFrame(cfg, s, e);
    } else {
      BindingStepFrame(cfg, s, e);
      if !(bk in s.attempts && k in s.attempts[bk].moved) {
        assert bk == e.bk;
        NewlyMoved(cfg, s, e, k);
      }
    }
  }

  /** A binding becomes bound to `k` only by an attempt that has counted itself there. */
  lemma BoundOnlyByFinish(cfg: Config, s: System, e: Event, k: ResourceKey)
    requires WellFormed(s) && !ActsOnResource(e)
    requires IsBound(Step(cfg, s, e).bindings, e.bk, k) && !IsBound(s.bindings, e.bk, k)
    ensures e.Finish? && HasMoved(s.attempts, e.bk, k, 1)
  {
    if e.Finish? && e.bk in s.attempts && s.attempts[e.bk].next == |Plan(e.bk, s.attempts[e.bk])| {
      var a := s.attempts[e.bk];
      FinishBinds(cfg, s, e.bk, e.now, e.fault, k);
      PlanIsDue(e.bk, a);
      assert Due(e.bk, a, k) == 1;
    } else if !ActsOnAttempt(e) {
      BoundKept(cfg, s, e, k);
    } else if e.MoveCounter? && e.bk in s.attempts && s.attempts[e.bk].next < |Plan(e.bk, s.attempts[e.bk])| {
      MoveEffect(s, e.bk, e.lag, e.fault);
    }
  }

  lemma {:induction false} WellFormedRun(cfg: Config, es: seq<Event>)
    ensures WellFormed(Run(cfg, INITIAL, es)) && OnlyCreatedNames(Run(cfg, INITIAL, es))
  {
    if es != [] {
      var s := Run(cfg, INITIAL, es[..|es| - 1]);
      WellFormedRun(cfg, es[..|es| - 1]);
      WellFormedStep(cfg, s, es[|es| - 1]);
      OnlyCreatedNamesStep(cfg, s, es[|es| - 1]);
    }
  }

  lemma DirtyGrows(cfg: Config, s: System, e: Event)
    ensures Step(cfg, s, e).dirty >= s.dirty
  {
  }

  lemma {:induction false} DirtyGrowsAlong(cfg: Config, s: System, es: seq<Event>, i: nat)
    requires i <= |es|
    ensures Run(cfg, s, es[..i]).dirty <= Run(cfg, s, es).dirty
  {
    if i == |es| {
      assert es[..i] == es;
    } else {
      var init := es[..|es| - 1];
      assert init[..i] == es[..i];
      DirtyGrowsAlong(cfg, s, init, i);
      DirtyGrows(cfg, Run(cfg, s, init), es[|es| - 1]);
    }
  }

  /** What follows for a step from the states around it holds of every step of a run. */
  lemma StepByStep(cfg: Config, es: seq<Event>, p: System -> bool, q: (System, Event) -> bool)
    requires forall i :: 0 <= i <= |es| ==> p(Run(cfg, INITIAL, es[..i]))
    requires forall s, e :: WellFormed(s) && p(s) && p(Step(cfg, s, e)) ==> q(s, e)
    ensures forall i :: 0 <= i < |es| ==> q(Run(cfg, INITIAL, es[..i]), es[i])
  {
    forall i | 0 <= i < |es| ensures q(Run(cfg, INITIAL, es[..i]), es[i]) {
      WellFormedRun(cfg, es[..i]);
      RunNext(cfg, INITIAL, es, i);
    }
  }

  /** What each step keeps under a condition on it holds throughout a run that meets the condition. */
  lemma {:induction false} KeptAlong(cfg: Config, es: seq<Event>, p: System -> bool, q: (System, Event) -> bool)
    requires p(INITIAL) && forall s, e :: WellFormed(s) && p(s) && q(s, e) ==> p(Step(cfg, s, e))
    requires forall i :: 0 <= i < |es| ==> q(Run(cfg, INITIAL, es[..i]), es[i])
    ensures forall i :: 0 <= i <= |es| ==> p(Run(cfg, INITIAL, es[..i]))
  {
    forall i | 0 <= i <= |es| ensures p(Run(cfg, INITIAL, es[..i])) {
      KeptUntil(cfg, es, p, q, i);
    }
  }

  lemma {:induction false} KeptUntil(cfg: Config, es: seq<Event>, p: System -> bool, q: (System, Event) -> bool, i: nat)
    requires p(INITIAL) && forall s, e :: WellFormed(s) && p(s) && q(s, e) ==> p(Step(cfg, s, e))
    requires i <= |es| && forall j :: 0 <= j < i ==> q(Run(cfg, INITIAL, es[..j]), es[j])
    ensures p(Run(cfg, INITIAL, es[..i]))
  {
    if i > 0 {
      KeptUntil(cfg, es, p, q, i - 1);
      WellFormedRun(cfg, es[..i - 1]);
      RunNext(cfg, INITIAL, es, i - 1);
    }
  }

  /* ---- creation ---- */

  /** The step creates a resource. */
  predicate Creates(s: System, e: Event) {
    e.CreateResource? && !Exists(s, e.k) && e.k.name != "" && SpecOfKind(e.k.kind, e.spec)
  }

  lemma OnlyCreationCreates(cfg: Config, s: System, e: Event, k: ResourceKey)
    requires WellFormed(s)
    ensures !Exists(s, k) && Exists(Step(cfg, s, e), k) <==> Creates(s, e) && e.k == k
  {
    if e.MoveCounter? {
      if Exists(Step(cfg, s, e), k) { DriftOfMove(s, e.bk, e.lag, e.fault, k); }
    } else if Exists(Step(cfg, s, e), k) {
      OnlyMovesCount(cfg, s, e, k);
    }
  }

  /** A created resource starts at 0, so its gap is the ledger value its name has at that moment. */
  lemma CreationGap(cfg: Config, s: System, e: Event)
    requires WellFormed(s) && Creates(s, e)
    ensures var s' := Step(cfg, s, e);
            && Exists(s', e.k) && Gap(s', e.k) == -LedgerValue(s.bindings, s.attempts, e.k)
            && s'.dirty == s.dirty
  {
    OnlyMovesCount(cfg, s, e, e.k);
    ResourceStepFrame(cfg, s, e);
  }

  /* ---- drift over whole runs ---- */

  /** The gap a run has given the counter of `k`: it starts with the ledger value of the name when `k`
      is created, and adds the drift of every step that `k` is there for. */
  function TotalDrift(cfg: Config, es: seq<Event>, k: ResourceKey): int {
    if es == [] then 0
    else
      var s, e := Run(cfg, INITIAL, es[..|es| - 1]), es[|es| - 1];
      if Exists(s, k) then TotalDrift(cfg, es[..|es| - 1], k) + Drift(s, e, k)
      else -LedgerValue(s.bindings, s.attempts, k)
  }

  /** The drift to the last count, in every run: the gap of a stored resource is what its name was owed
      when it was created, and what each attempt that has ended since then has left there. */
  lemma {:induction false} ExactDrift(cfg: Config, es: seq<Event>, k: ResourceKey)
    requires Exists(Run(cfg, INITIAL, es), k)
    ensures Gap(Run(cfg, INITIAL, es), k) == TotalDrift(cfg, es, k)
  {
    if es != [] {
      var init, e := es[..|es| - 1], es[|es| - 1];
      var s := Run(cfg, INITIAL, init);
      WellFormedRun(cfg, init);
      if Exists(s, k) {
        ExactDrift(cfg, init, k);
        GapStep(cfg, s, e, k);
      } else {
        OnlyCreationCreates(cfg, s, e, k);
        CreationGap(cfg, s, e);
      }
    }
  }

  ghost predicate DriftBounded(s: System) {
    forall k :: Exists(s, k) ==> Abs(Gap(s, k)) <= s.dirty
  }

  ghost predicate CountsExact(s: System) {
    forall k :: Exists(s, k) ==> ActiveBindings(s, k) == LedgerValue(s.bindings, s.attempts, k)
  }

  /** A name is not created while more is owed to it than attempts have ended unclean. */
  predicate WithinDrift(s: System, e: Event) {
    Creates(s, e) ==> Abs(LedgerValue(s.bindings, s.attempts, e.k)) <= s.dirty
  }

  /** A name is not created while anything is owed to it. */
  predicate UnclaimedCreation(s: System, e: Event) {
    Creates(s, e) ==> LedgerValue(s.bindings, s.attempts, e.k) == 0
  }

  /** Where drift is bounded, a step keeps it bounded if and only if it creates no name out of bounds. */
  lemma DriftStep(cfg: Config, s: System, e: Event)
    requires WellFormed(s) && DriftBounded(s)
    ensures DriftBounded(Step(cfg, s, e)) <==> WithinDrift(s, e)
  {
    var s' := Step(cfg, s, e);
    if Creates(s, e) { CreationGap(cfg, s, e); }
    if WithinDrift(s, e) {
      forall k | Exists(s', k) ensures Abs(Gap(s', k)) <= s'.dirty {
        OnlyCreationCreates(cfg, s, e, k);
        if Exists(s, k) { GapStep(cfg, s, e, k); }
      }
    }
  }

  ghost predicate CreationsWithinDrift(cfg: Config, es: seq<Event>) {
    forall i :: 0 <= i < |es| ==> WithinDrift(Run(cfg, INITIAL, es[..i]), es[i])
  }

  ghost predicate CreationsUnclaimed(cfg: Config, es: seq<Event>) {
    forall i :: 0 <= i < |es| ==> UnclaimedCreation(Run(cfg, INITIAL, es[..i]), es[i])
  }

  ghost predicate AlwaysBounded(cfg: Config, es: seq<Event>) {
    forall i :: 0 <= i <= |es| ==> DriftBounded(Run(cfg, INITIAL, es[..i]))
  }

  ghost predicate AlwaysExact(cfg: Config, es: seq<Event>) {
    forall i :: 0 <= i <= |es| ==> CountsExact(Run(cfg, INITIAL, es[..i]))
  }

  /** The exact condition for bounded drift, over all runs: every counter is off by at most the number
      of unclean attempts at every moment if and only if no name is created while more is owed to it. */
  lemma BoundedIffCreationsWithin(cfg: Config, es: seq<Event>)
    ensures AlwaysBounded(cfg, es) <==> CreationsWithinDrift(cfg, es)
  {
    forall s, e | WellFormed(s) && DriftBounded(s) ensures DriftBounded(Step(cfg, s, e)) <==> WithinDrift(s, e) {
      DriftStep(cfg, s, e);
    }
    if AlwaysBounded(cfg, es) {
      StepByStep(cfg, es, s => DriftBounded(s), (s, e) => WithinDrift(s, e));
    }
    if CreationsWithinDrift(cfg, es) {
      KeptAlong(cfg, es, s => DriftBounded(s), (s, e) => WithinDrift(s, e));
    }
  }

  /** Bounded drift: after any run, with any pattern of stale reads, rejected writes, lost replies
      and crashes, `activeBindings` is off by at most the number of unclean attempts. */
  lemma BoundedDrift(cfg: Config, es: seq<Event>, k: ResourceKey)
    requires CreationsWithinDrift(cfg, es) && Exists(Run(cfg, INITIAL, es), k)
    ensures Abs(Gap(Run(cfg, INITIAL, es), k)) <= Run(cfg, INITIAL, es).dirty
  {
    forall s, e | WellFormed(s) && DriftBounded(s) && WithinDrift(s, e) ensures DriftBounded(Step(cfg, s, e)) {
      DriftStep(cfg, s, e);
    }
    KeptUntil(cfg, es, s => DriftBounded(s), (s, e) => WithinDrift(s, e), |es|);
    assert es[..|es|] == es;
  }

  /** Without unclean ends, counters are exact at every moment if and only if no name is created while
      anything is owed to it. */
  lemma ExactIffCreationsUnclaimed(cfg: Config, es: seq<Event>)
    requires Run(cfg, INITIAL, es).dirty == 0
    ensures AlwaysExact(cfg, es) <==> CreationsUnclaimed(cfg, es)
  {
    forall i | 0 <= i <= |es|
      ensures DriftBounded(Run(cfg, INITIAL, es[..i])) == CountsExact(Run(cfg, INITIAL, es[..i]))
      ensures i < |es| ==>
                WithinDrift(Run(cfg, INITIAL, es[..i]), es[i]) == UnclaimedCreation(Run(cfg, INITIAL, es[..i]), es[i])
    {
      DirtyGrowsAlong(cfg, INITIAL, es, i);
      ExactIsZeroBound(Run(cfg, INITIAL, es[..i]));
    }
    BoundedIffCreationsWithin(cfg, es);
  }

  lemma ExactIsZeroBound(s: System)
    requires s.dirty == 0
    ensures DriftBounded(s) == CountsExact(s)
    ensures forall e :: WithinDrift(s, e) == UnclaimedCreation(s, e)
  {
  }

  ghost predicate NamesNotReused(cfg: Config, es: seq<Event>) {
    forall i :: 0 <= i < |es| ==> NoRecreation(Run(cfg, INITIAL, es[..i]), es[i])
  }

  /** Nothing is owed to a name that has never been created: runs that reuse no name meet the
      conditions by themselves. */
  lemma NewNamesUnclaimed(cfg: Config, es: seq<Event>)
    requires NamesNotReused(cfg, es)
    ensures CreationsUnclaimed(cfg, es) && CreationsWithinDrift(cfg, es)
  {
    forall i | 0 <= i < |es|
      ensures UnclaimedCreation(Run(cfg, INITIAL, es[..i]), es[i]) && WithinDrift(Run(cfg, INITIAL, es[..i]), es[i])
    {
      WellFormedRun(cfg, es[..i]);
      NewNameUnclaimed(Run(cfg, INITIAL, es[..i]), es[i]);
    }
  }

  lemma NewNameUnclaimed(s: System, e: Event)
    requires OnlyCreatedNames(s) && NoRecreation(s, e)
    ensures UnclaimedCreation(s, e) && WithinDrift(s, e)
  {
    if Creates(s, e) {
      assert Version(ResourceHistory(s.resources, e.k)) == 0;
      assert Bound(s.bindings, e.k) == {};
      assert Moving(s.attempts, e.k, 1) == {} && Moving(s.attempts, e.k, -1) == {};
    }
  }
}
