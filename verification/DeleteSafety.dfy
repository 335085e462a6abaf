/** Exact counting and delete protection.  As long as every attempt that ends is clean, every counter
    is the number of claims on its resource and nothing that is claimed is ever removed, at every moment
    of a run, if and only if the run makes no stray release and deletes nothing unprotected that is
    claimed. */
module DeleteSafety {
  import opened Api
  import opened Histories
  import opened Protocol
  import opened Invariants
  import opened Ledger

  /** The binding has a claim on `k`: it is bound to it and has not given it up, or its attempt
      in flight has already counted itself there. */
  predicate Holds(s: System, bk: BindingKey, k: ResourceKey) {
    || (IsBound(s.bindings, bk, k) && !HasMoved(s.attempts, bk, k, -1))
    || HasMoved(s.attempts, bk, k, 1)
  }

  /** The number of claims on `k`. */
  function Claims(s: System, k: ResourceKey): nat {
    |Bound(s.bindings, k) - Moving(s.attempts, k, -1)| + |Moving(s.attempts, k, 1)|
  }

  /** Attempts in flight have released only what their bindings are bound to. */
  ghost predicate ReleasesBound(s: System) {
    forall bk, k :: HasMoved(s.attempts, bk, k, -1) ==> IsBound(s.bindings, bk, k)
  }

  ghost predicate CountsClaims(s: System) {
    forall k :: Exists(s, k) ==> ActiveBindings(s, k) == Claims(s, k)
  }

  /** Every counter is the number of claims on its resource, and whatever is claimed exists. */
  ghost predicate Safe(s: System) {
    CountsClaims(s) && HeldExists(s)
  }

  ghost predicate HeldExists(s: System) {
    forall bk, k :: Holds(s, bk, k) ==> Exists(s, k)
  }

  ghost predicate Exact(s: System) {
    ReleasesBound(s) && CountsExact(s) && HeldExists(s)
  }

  /** A counter write that takes a claim away is made for a binding that is bound there. */
  ghost predicate OwnRelease(s: System, e: Event) {
    forall k :: !StrayRelease(s, e, k)
  }

  /** The step commits a decrement of `k` for a binding whose stored version is not bound to `k`. */
  predicate StrayRelease(s: System, e: Event, k: ResourceKey) {
    && e.MoveCounter?
    && MoveCommits(s, e.bk, e.lag, e.fault)
    && CountOf(NextStep(e.bk, s.attempts[e.bk]), k) == -1
    && !IsBound(s.bindings, e.bk, k)
  }

  /** The step deletes a claimed resource that does not carry its finalizer, which removes it at once. */
  predicate RemovesClaimed(s: System, e: Event) {
    && e.DeleteResource? && Exists(s, e.k)
    && !Latest(ResourceHistory(s.resources, e.k)).value.meta.finalizer
    && Claims(s, e.k) > 0
  }

  ghost predicate Harmless(s: System, e: Event) {
    OwnRelease(s, e) && !RemovesClaimed(s, e)
  }

  lemma ProtectedRemovesNothing(s: System, e: Event)
    requires ProtectedDelete(s, e)
    ensures !RemovesClaimed(s, e)
  {
  }

  /* ---- the ledger value is the number of claims ---- */

  lemma MemberOfSets(s: System, bk: BindingKey, k: ResourceKey)
    ensures bk in Bound(s.bindings, k) <==> IsBound(s.bindings, bk, k)
    ensures bk in Moving(s.attempts, k, 1) <==> HasMoved(s.attempts, bk, k, 1)
    ensures bk in Moving(s.attempts, k, -1) <==> HasMoved(s.attempts, bk, k, -1)
  {
  }

  lemma Overlap<T>(a: set<T>, b: set<T>)
    ensures |a| - |b| <= |a - b|
    ensures |a| - |b| == |a - b| <==> b <= a
  {
    assert a == (a - b) + (a * b) && b == (b - a) + (a * b);
    assert |a| == |a - b| + |a * b| && |b| == |b - a| + |a * b|;
    assert b - a == {} <==> b <= a;
  }

  /** The ledger value never exceeds the number of claims, and is that number exactly when all that
      attempts in flight have released is bound; the number is 0 exactly when nothing has a claim. */
  lemma LedgerCountsClaims(s: System, k: ResourceKey)
    ensures LedgerValue(s.bindings, s.attempts, k) <= Claims(s, k)
    ensures LedgerValue(s.bindings, s.attempts, k) == Claims(s, k) <==>
              forall bk :: HasMoved(s.attempts, bk, k, -1) ==> IsBound(s.bindings, bk, k)
    ensures Claims(s, k) == 0 <==> forall bk :: !Holds(s, bk, k)
  {
    var bound, inc, dec := Bound(s.bindings, k), Moving(s.attempts, k, 1), Moving(s.attempts, k, -1);
    forall bk
      ensures Holds(s, bk, k) <==> bk in bound - dec || bk in inc
      ensures HasMoved(s.attempts, bk, k, -1) <==> bk in dec
      ensures IsBound(s.bindings, bk, k) <==> bk in bound
    {
      MemberOfSets(s, bk, k);
    }
    Overlap(bound, dec);
    SomeMember(bound - dec, inc);
  }

  lemma SomeMember<T(!new)>(a: set<T>, b: set<T>)
    ensures |a| + |b| == 0 <==> forall x :: !(x in a || x in b)
  {
    if x :| x in a || x in b {
      assert a != {} || b != {};
    } else {
      assert a == {} && b == {};
    }
  }

  lemma ExactCountsClaims(s: System)
    requires Exact(s)
    ensures CountsClaims(s)
  {
    forall k | Exists(s, k) ensures ActiveBindings(s, k) == Claims(s, k) {
      LedgerCountsClaims(s, k);
    }
  }

  /* ---- the deletion gate ---- */

  /** A stored resource disappears only through the gate, and then its stored counter is not
      positive, however stale the read that the gate decided on; or by a deletion before it has got its
      finalizer. */
  lemma GateIsShut(cfg: Config, s: System, e: Event, k: ResourceKey)
    requires WellFormed(s) && Exists(s, k) && !Exists(Step(cfg, s, e), k)
    ensures || (e.ReconcileResource? && e.k == k && ActiveBindings(s, k) <= 0)
            || (e.DeleteResource? && e.k == k && !Latest(ResourceHistory(s.resources, k)).value.meta.finalizer)
  {
    assert ResourceVersionsOk(ResourceHistory(s.resources, k));
    if e.MoveCounter? {
      MovesRemoveNothing(s, e.bk, e.lag, e.fault, k);
    } else if !ActsOnResource(e) {
      OnlyResourceSteps(cfg, s, e);
    }
  }

  lemma MovesRemoveNothing(s: System, bk: BindingKey, lag: nat, fault: Fault, k: ResourceKey)
    requires WellFormed(s) && Exists(s, k)
    ensures Exists(DoMoveCounter(s, bk, lag, fault), k)
  {
    if bk in s.attempts && s.attempts[bk].next < |Plan(bk, s.attempts[bk])| {
      MoveEffect(s, bk, lag, fault);
      NextStepSound(bk, s.attempts[bk]);
      if MoveCommits(s, bk, lag, fault) { RecountedExists(s, NextStep(bk, s.attempts[bk]).value); }
    }
  }

  lemma ResourceStepExact(cfg: Config, s: System, e: Event)
    requires WellFormed(s) && Exact(s) && ActsOnResource(e) && !RemovesClaimed(s, e)
    ensures Exact(Step(cfg, s, e))
  {
    var s' := Step(cfg, s, e);
    ResourceStepFrame(cfg, s, e);
    forall k | Exists(s', k) ensures ActiveBindings(s', k) == LedgerValue(s'.bindings, s'.attempts, k) {
      OnlyMovesCount(cfg, s, e, k);
      LedgerCountsClaims(s, k);
    }
    forall bk, k | Holds(s', bk, k) ensures Exists(s', k) {
      assert Holds(s, bk, k);
      if !Exists(s', k) {
        GateIsShut(cfg, s, e, k);
        LedgerCountsClaims(s, k);
        assert false;
      }
    }
  }

  /* ---- claims along the other steps ---- */

  lemma BindingStepExact(cfg: Config, s: System, e: Event)
    requires WellFormed(s) && Exact(s) && !ActsOnResource(e) && !ActsOnAttempt(e)
    ensures Exact(Step(cfg, s, e))
  {
    var s' := Step(cfg, s, e);
    BindingStepFrame(cfg, s, e);
    EditKeepsRefs(cfg, s, e);
    forall bk, k ensures IsBound(s'.bindings, bk, k) == IsBound(s.bindings, bk, k) {
      if bk == e.bk {
        BoundKept(cfg, s, e, k);
      } else {
        assert BindingHistory(s'.bindings, bk) == BindingHistory(s.bindings, bk);
      }
    }
    SameClaimsExact(s, s');
  }

  /** A step that changes neither what is bound nor what is counted keeps counters exact. */
  lemma SameClaimsExact(s: System, s': System)
    requires Exact(s) && s'.resources == s.resources
    requires forall bk, k :: IsBound(s'.bindings, bk, k) == IsBound(s.bindings, bk, k)
    requires forall bk, k, d :: HasMoved(s'.attempts, bk, k, d) == HasMoved(s.attempts, bk, k, d)
    ensures Exact(s')
  {
    forall k | Exists(s', k) ensures ActiveBindings(s', k) == LedgerValue(s'.bindings, s'.attempts, k) {
      assert Exists(s, k);
      SameLedger(s, s', k);
    }
    forall bk, k | Holds(s', bk, k) ensures Exists(s', k) { assert Holds(s, bk, k); }
  }

  lemma SameLedger(s: System, s': System, k: ResourceKey)
    requires forall bk :: IsBound(s'.bindings, bk, k) == IsBound(s.bindings, bk, k)
    requires forall bk, d :: HasMoved(s'.attempts, bk, k, d) == HasMoved(s.attempts, bk, k, d)
    ensures LedgerValue(s'.bindings, s'.attempts, k) == LedgerValue(s.bindings, s.attempts, k)
  {
    forall bk
      ensures bk in Bound(s.bindings, k) <==> bk in Bound(s'.bindings, k)
      ensures bk in Moving(s.attempts, k, 1) <==> bk in Moving(s'.attempts, k, 1)
      ensures bk in Moving(s.attempts, k, -1) <==> bk in Moving(s'.attempts, k, -1)
    {
      MemberOfSets(s, bk, k);
      MemberOfSets(s', bk, k);
    }
    assert Bound(s.bindings, k) == Bound(s'.bindings, k);
    assert Moving(s.attempts, k, 1) == Moving(s'.attempts, k, 1) &&
        Moving(s.attempts, k, -1) == Moving(s'.attempts, k, -1);
  }

  lemma BeginExact(s: System, bk: BindingKey, lag: nat, config: Lookup, group: Lookup)
    requires Exact(s)
    ensures Exact(DoBegin(s, bk, lag, config, group))
  {
    SameClaimsExact(s, DoBegin(s, bk, lag, config, group));
  }

  lemma MoveExact(s: System, bk: BindingKey, lag: nat, fault: Fault)
    requires WellFormed(s) && Exact(s) && OwnRelease(s, MoveCounter(bk, lag, fault))
    requires DoMoveCounter(s, bk, lag, fault).dirty == s.dirty
    ensures Exact(DoMoveCounter(s, bk, lag, fault))
  {
    if bk in s.attempts && s.attempts[bk].next < |Plan(bk, s.attempts[bk])| {
      var step, commits := NextStep(bk, s.attempts[bk]), MoveCommits(s, bk, lag, fault);
      MoveEffect(s, bk, lag, fault);
      NextStepSound(bk, s.attempts[bk]);
      if commits && step.value.delta == -1 {
        assert !StrayRelease(s, MoveCounter(bk, lag, fault), step.value.target);
      }
      MovedExact(s, DoMoveCounter(s, bk, lag, fault), bk, step, commits);
    }
  }

  lemma MovedExact(s: System, s': System, bk: BindingKey, step: Option<Move>, commits: bool)
    requires WellFormed(s) && Exact(s) && Moved(s, s', bk, step, commits) && StepSound(s.attempts[bk], step)
    requires commits && step.value.delta == -1 ==> IsBound(s.bindings, bk, step.value.target)
    requires s'.dirty == s.dirty
    ensures Exact(s')
  {
    MovedReleasesBound(s, s', bk, step, commits);
    MovedHeldExists(s, s', bk, step, commits);
    forall k | Exists(s', k) ensures ActiveBindings(s', k) == LedgerValue(s'.bindings, s'.attempts, k) {
      MovedDrift(s, s', bk, step, commits, k);
    }
  }

  lemma MovedReleasesBound(s: System, s': System, bk: BindingKey, step: Option<Move>, commits: bool)
    requires ReleasesBound(s) && Moved(s, s', bk, step, commits)
    requires commits && step.value.delta == -1 ==> IsBound(s.bindings, bk, step.value.target)
    ensures ReleasesBound(s')
  {
    forall x, k | HasMoved(s'.attempts, x, k, -1) ensures IsBound(s'.bindings, x, k) {
      if !(x == bk && commits && k == step.value.target) {
        assert HasMoved(s.attempts, x, k, -1);
      }
    }
  }

  lemma MovedHeldExists(s: System, s': System, bk: BindingKey, step: Option<Move>, commits: bool)
    requires WellFormed(s) && HeldExists(s) && Moved(s, s', bk, step, commits) && StepSound(s.attempts[bk], step)
    requires s'.dirty == s.dirty
    ensures HeldExists(s')
  {
    if commits { RecountedExists(s, step.value); }
    forall x, k | Holds(s', x, k) ensures Exists(s', k) {
      if !(x == bk && commits && k == step.value.target) {
        assert Holds(s, x, k);
      }
    }
  }

  lemma FinishExact(cfg: Config, s: System, bk: BindingKey, now: int, fault: Fault)
    requires WellFormed(s) && Exact(s) && DoFinish(cfg, s, bk, now, fault).dirty == s.dirty
    ensures Exact(DoFinish(cfg, s, bk, now, fault))
  {
    var s' := DoFinish(cfg, s, bk, now, fault);
    if bk in s.attempts && s.attempts[bk].next == |Plan(bk, s.attempts[bk])| {
      FinishFrame(cfg, s, bk, now, fault);
      FinishEnds(cfg, s, bk, now, fault);
      forall k ensures Holds(s', bk, k) ==> Holds(s, bk, k) {
        FinishBinds(cfg, s, bk, now, fault, k);
        FinishHolds(s, s', bk, FinishCommits(s, bk, fault), k);
      }
      forall k | Exists(s, k) ensures Gap(s', k) == Gap(s, k) {
        FinishKeepsGap(cfg, s, bk, now, fault, k);
      }
      EndExact(s, s', bk);
    }
  }

  lemma FinishKeepsGap(cfg: Config, s: System, bk: BindingKey, now: int, fault: Fault, k: ResourceKey)
    requires WellFormed(s) && DoFinish(cfg, s, bk, now, fault).dirty == s.dirty && Exists(s, k)
    requires bk in s.attempts && s.attempts[bk].next == |Plan(bk, s.attempts[bk])|
    ensures Exists(DoFinish(cfg, s, bk, now, fault), k) && Gap(DoFinish(cfg, s, bk, now, fault), k) == Gap(s, k)
  {
    DriftOfFinish(cfg, s, bk, now, fault, k);
    FinishDriftBounded(cfg, s, bk, now, fault, k);
  }

  /** A clean end leaves its binding no claim it did not have. */
  lemma FinishHolds(s: System, s': System, bk: BindingKey, committed: bool, k: ResourceKey)
    requires bk in s.attempts && bk !in s'.attempts && FinalOk(s.attempts[bk]) && MovedOk(bk, s.attempts[bk])
    requires s.attempts[bk].next == |Plan(bk, s.attempts[bk])| && Clean(s.resources, bk, s.attempts[bk], committed)
    requires if committed
             then && IsBound(s.bindings, bk, k) == BoundTo(bk, s.attempts[bk].obj, k)
                  && IsBound(s'.bindings, bk, k) == BoundAfter(bk, s.attempts[bk], k)
             else BindingHistory(s'.bindings, bk) == BindingHistory(s.bindings, bk)
    ensures Holds(s', bk, k) ==> Holds(s, bk, k)
  {
    var a := s.attempts[bk];
    if committed && BoundAfter(bk, a, k) && !BoundTo(bk, a.obj, k) {
      PlanIsDue(bk, a);
      assert Due(bk, a, k) == 1;
      var i :| 0 <= i < |Plan(bk, a)| && Plan(bk, a)[i].Some? && Plan(bk, a)[i].value.target == k;
      assert Plan(bk, a)[i].value.delta == 1;
      assert HasMoved(s.attempts, bk, k, 1);
    }
  }

  lemma EndExact(s: System, s': System, bk: BindingKey)
    requires Exact(s) && SameElsewhere(s, s', bk) && bk !in s'.attempts && s'.resources == s.resources
    requires forall k :: Holds(s', bk, k) ==> Holds(s, bk, k)
    requires forall k :: Exists(s, k) ==> Gap(s', k) == Gap(s, k)
    ensures Exact(s')
  {
    forall x, k | HasMoved(s'.attempts, x, k, -1) ensures IsBound(s'.bindings, x, k) {
      assert HasMoved(s.attempts, x, k, -1);
      assert BindingHistory(s'.bindings, x) == BindingHistory(s.bindings, x);
    }
    forall k | Exists(s', k) ensures ActiveBindings(s', k) == LedgerValue(s'.bindings, s'.attempts, k) {
      assert Gap(s', k) == Gap(s, k);
    }
    forall x, k | Holds(s', x, k) ensures Exists(s', k) {
      assert x != bk ==> BindingHistory(s'.bindings, x) == BindingHistory(s.bindings, x);
      assert Holds(s, x, k);
    }
  }

  lemma CrashExact(s: System, bk: BindingKey)
    requires WellFormed(s) && Exact(s) && DoCrash(s, bk).dirty == s.dirty
    ensures Exact(DoCrash(s, bk))
  {
    if bk in s.attempts {
      forall k | Exists(s, k) ensures Gap(DoCrash(s, bk), k) == Gap(s, k) {
        DriftOfCrash(s, bk, k);
      }
      EndExact(s, DoCrash(s, bk), bk);
    }
  }

  lemma ExactStep(cfg: Config, s: System, e: Event)
    requires WellFormed(s) && Exact(s) && Harmless(s, e)
    requires Step(cfg, s, e).dirty == s.dirty
    ensures Exact(Step(cfg, s, e))
  {
    if ActsOnResource(e) {
      ResourceStepExact(cfg, s, e);
    } else if e.Begin? {
      BeginExact(s, e.bk, e.lag, e.config, e.group);
    } else if e.MoveCounter? {
      MoveExact(s, e.bk, e.lag, e.fault);
    } else if e.Finish? {
      FinishExact(cfg, s, e.bk, e.now, e.fault);
    } else if e.Crash? {
      CrashExact(s, e.bk);
    } else {
      BindingStepExact(cfg, s, e);
    }
  }

  /* ---- what a stray release does ---- */

  /** Where a counter is the number of claims, a stray release leaves it one below. */
  lemma StrayReleaseUndercounts(cfg: Config, s: System, e: Event, k: ResourceKey)
    requires WellFormed(s) && StrayRelease(s, e, k)
    ensures Exists(s, k) && Exists(Step(cfg, s, e), k)
    ensures ResourceAfter(cfg, s, e, k) == Counted(Latest(ResourceHistory(s.resources, k)).value, -1)
    ensures Claims(Step(cfg, s, e), k) == Claims(s, k)
    ensures ActiveBindings(s, k) == Claims(s, k) ==> ActiveBindings(Step(cfg, s, e), k) == Claims(Step(cfg, s, e), k) - 1
  {
    StepOfMove(cfg, s, e);
    StrayMove(s, e.bk, e.lag, e.fault, k);
  }

  function ResourceAfter(cfg: Config, s: System, e: Event, k: ResourceKey): Resource
    requires Exists(Step(cfg, s, e), k)
  {
    Latest(ResourceHistory(Step(cfg, s, e).resources, k)).value
  }

  lemma StrayMove(s: System, bk: BindingKey, lag: nat, fault: Fault, k: ResourceKey)
    requires WellFormed(s) && StrayRelease(s, MoveCounter(bk, lag, fault), k)
    ensures var r, s' := Latest(ResourceHistory(s.resources, k)), DoMoveCounter(s, bk, lag, fault);
            && r.Some? && Latest(ResourceHistory(s'.resources, k)) == Some(Counted(r.value, -1))
            && Claims(s', k) == Claims(s, k)
  {
    MoveEffect(s, bk, lag, fault);
    NextStepSound(bk, s.attempts[bk]);
    StrayMoved(s, DoMoveCounter(s, bk, lag, fault), bk, NextStep(bk, s.attempts[bk]), k);
  }

  lemma StrayMoved(s: System, s': System, bk: BindingKey, step: Option<Move>, k: ResourceKey)
    requires WellFormed(s) && Moved(s, s', bk, step, true) && StepSound(s.attempts[bk], step)
    requires CountOf(step, k) == -1 && !IsBound(s.bindings, bk, k)
    ensures Latest(ResourceHistory(s.resources, k)).Some?
    ensures Latest(ResourceHistory(s'.resources, k)) == Some(Counted(Latest(ResourceHistory(s.resources, k)).value, -1))
    ensures Claims(s', k) == Claims(s, k)
  {
    RecountedExists(s, step.value);
    forall x
      ensures HasMoved(s'.attempts, x, k, 1) == HasMoved(s.attempts, x, k, 1)
      ensures x != bk ==> HasMoved(s'.attempts, x, k, -1) == HasMoved(s.attempts, x, k, -1)
    {
      StrayMovedAt(s, s', bk, step, k, x);
    }
    SameClaims(s, s', bk, k);
  }

  lemma StrayMovedAt(s: System, s': System, bk: BindingKey, step: Option<Move>, k: ResourceKey, x: BindingKey)
    requires Moved(s, s', bk, step, true) && StepSound(s.attempts[bk], step) && CountOf(step, k) == -1
    ensures HasMoved(s'.attempts, x, k, 1) == HasMoved(s.attempts, x, k, 1)
    ensures x != bk ==> HasMoved(s'.attempts, x, k, -1) == HasMoved(s.attempts, x, k, -1)
  {
  }

  lemma SameClaims(s: System, s': System, bk: BindingKey, k: ResourceKey)
    requires s'.bindings == s.bindings && !IsBound(s.bindings, bk, k)
    requires forall x :: HasMoved(s'.attempts, x, k, 1) == HasMoved(s.attempts, x, k, 1)
    requires forall x :: x != bk ==> HasMoved(s'.attempts, x, k, -1) == HasMoved(s.attempts, x, k, -1)
    ensures Claims(s', k) == Claims(s, k)
  {
    forall x ensures x in Moving(s'.attempts, k, 1) <==> x in Moving(s.attempts, k, 1) {
      MemberOfSets(s, x, k);
      MemberOfSets(s', x, k);
    }
    assert Moving(s'.attempts, k, 1) == Moving(s.attempts, k, 1);
    forall x | x != bk ensures x in Moving(s'.attempts, k, -1) <==> x in Moving(s.attempts, k, -1) {
      MemberOfSets(s, x, k);
      MemberOfSets(s', x, k);
    }
    SameDifference(Bound(s.bindings, k), Moving(s.attempts, k, -1), Moving(s'.attempts, k, -1), bk);
  }

  lemma SameDifference<T(!new)>(a: set<T>, d: set<T>, d': set<T>, x: T)
    requires x !in a && forall y :: y != x ==> (y in d' <==> y in d)
    ensures a - d == a - d'
  {
  }

  /** If that was the last count, the gate stands open: a protected deletion and one reconcile remove
      the resource although a binding still has its claim on it. */
  lemma StrayReleaseRemovesHeld(cfg: Config, s: System, e: Event, k: ResourceKey)
    requires WellFormed(s) && StrayRelease(s, e, k)
    requires Exists(s, k) && Latest(ResourceHistory(s.resources, k)).value.meta.finalizer
    requires ActiveBindings(s, k) == Claims(s, k) == 1
    ensures ProtectedDelete(Step(cfg, s, e), DeleteResource(k))
    ensures var t := Step(cfg, Step(cfg, Step(cfg, s, e), DeleteResource(k)), ReconcileResource(k, 0, Healthy));
            !Exists(t, k) && exists bk :: Holds(t, bk, k)
  {
    StrayReleaseUndercounts(cfg, s, e, k);
    GateOpens(cfg, Step(cfg, s, e), k);
  }

  /** A counter at 0 does not protect a claim. */
  lemma GateOpens(cfg: Config, s: System, k: ResourceKey)
    requires Exists(s, k) && Latest(ResourceHistory(s.resources, k)).value.meta.finalizer && ActiveBindings(s, k) <= 0
    requires Claims(s, k) > 0
    ensures var t := Step(cfg, Step(cfg, s, DeleteResource(k)), ReconcileResource(k, 0, Healthy));
            !Exists(t, k) && exists bk :: Holds(t, bk, k)
  {
    LedgerCountsClaims(s, k);
    var bk :| Holds(s, bk, k);
    GateRemoves(cfg, s, k);
    assert Holds(Step(cfg, Step(cfg, s, DeleteResource(k)), ReconcileResource(k, 0, Healthy)), bk, k);
  }

  lemma GateRemoves(cfg: Config, s: System, k: ResourceKey)
    requires Exists(s, k) && Latest(ResourceHistory(s.resources, k)).value.meta.finalizer && ActiveBindings(s, k) <= 0
    ensures var t := Step(cfg, Step(cfg, s, DeleteResource(k)), ReconcileResource(k, 0, Healthy));
            !Exists(t, k) && t.bindings == s.bindings && t.attempts == s.attempts
  {
    var t := DoDeleteResource(s, k);
    assert Latest(ResourceHistory(t.resources, k)).value.meta.deleting;
  }

  /* ---- whole runs ---- */

  ghost predicate DeletesProtected(cfg: Config, es: seq<Event>) {
    forall i :: 0 <= i < |es| ==> ProtectedDelete(Run(cfg, INITIAL, es[..i]), es[i])
  }

  ghost predicate ReleasesOwn(cfg: Config, es: seq<Event>) {
    forall i :: 0 <= i < |es| ==> OwnRelease(Run(cfg, INITIAL, es[..i]), es[i])
  }

  ghost predicate CounterWritesFresh(cfg: Config, es: seq<Event>) {
    forall i :: 0 <= i < |es| ==> FreshCounterWrite(Run(cfg, INITIAL, es[..i]), es[i])
  }

  lemma InitialExact()
    ensures Exact(INITIAL)
  {
    forall k ensures LedgerValue(INITIAL.bindings, INITIAL.attempts, k) == 0 {
      assert Bound(INITIAL.bindings, k) == {};
      assert Moving(INITIAL.attempts, k, 1) == {} && Moving(INITIAL.attempts, k, -1) == {};
    }
  }

  ghost predicate OnlyHarmless(cfg: Config, es: seq<Event>) {
    forall i :: 0 <= i < |es| ==> Harmless(Run(cfg, INITIAL, es[..i]), es[i])
  }

  ghost predicate ClaimsNotRemoved(cfg: Config, es: seq<Event>) {
    forall i :: 0 <= i < |es| ==> !RemovesClaimed(Run(cfg, INITIAL, es[..i]), es[i])
  }

  ghost predicate AlwaysSafe(cfg: Config, es: seq<Event>) {
    forall i :: 0 <= i <= |es| ==> Safe(Run(cfg, INITIAL, es[..i]))
  }

  /** Exact counting and delete safety after every run whose ended attempts are all clean and whose
      steps are harmless.  Counter writes may be as stale as they like otherwise, and resource names may
      be deleted and created again. */
  lemma {:induction false} ExactRun(cfg: Config, es: seq<Event>)
    requires OnlyHarmless(cfg, es) && Run(cfg, INITIAL, es).dirty == 0
    ensures Exact(Run(cfg, INITIAL, es))
  {
    if es == [] {
      InitialExact();
    } else {
      var init := es[..|es| - 1];
      assert forall i :: 0 <= i < |init| ==> init[..i] == es[..i];
      DirtyGrowsAlong(cfg, INITIAL, es, |es| - 1);
      ExactRun(cfg, init);
      WellFormedRun(cfg, init);
      ExactStep(cfg, Run(cfg, INITIAL, init), es[|es| - 1]);
    }
  }

  /** The condition is exact: in every run whose ended attempts are clean, every counter is the number of
      claims and every claimed resource exists, at every moment, if and only if no step is a stray
      release or a deletion that removes a claimed resource at once. */
  lemma SafeIffHarmless(cfg: Config, es: seq<Event>)
    requires Run(cfg, INITIAL, es).dirty == 0
    ensures AlwaysSafe(cfg, es) <==> OnlyHarmless(cfg, es)
  {
    if OnlyHarmless(cfg, es) { HarmlessIsSafe(cfg, es); }
    if AlwaysSafe(cfg, es) { SafeIsHarmless(cfg, es); }
  }

  lemma HarmlessIsSafe(cfg: Config, es: seq<Event>)
    requires OnlyHarmless(cfg, es) && Run(cfg, INITIAL, es).dirty == 0
    ensures AlwaysSafe(cfg, es)
  {
    forall i | 0 <= i <= |es| ensures Safe(Run(cfg, INITIAL, es[..i])) {
      ExactPrefix(cfg, es, i);
      ExactCountsClaims(Run(cfg, INITIAL, es[..i]));
    }
  }

  lemma SafeIsHarmless(cfg: Config, es: seq<Event>)
    requires AlwaysSafe(cfg, es)
    ensures OnlyHarmless(cfg, es)
  {
    forall s, e | WellFormed(s) && Safe(s) && Safe(Step(cfg, s, e)) ensures Harmless(s, e) {
      SafeStepIsHarmless(cfg, s, e);
    }
    StepByStep(cfg, es, s => Safe(s), (s, e) => Harmless(s, e));
  }

  lemma SafeStepIsHarmless(cfg: Config, s: System, e: Event)
    requires WellFormed(s) && Safe(s) && Safe(Step(cfg, s, e))
    ensures Harmless(s, e)
  {
    forall k ensures !StrayRelease(s, e, k) {
      if StrayRelease(s, e, k) {
        StrayReleaseUndercounts(cfg, s, e, k);
        assert false;
      }
    }
    if RemovesClaimed(s, e) { RemovalExposes(cfg, s, e); }
  }

  /** Deleting a claimed resource before it has its finalizer leaves a claim on nothing. */
  lemma RemovalExposes(cfg: Config, s: System, e: Event)
    requires RemovesClaimed(s, e)
    ensures var s' := Step(cfg, s, e); !Exists(s', e.k) && exists bk :: Holds(s', bk, e.k)
  {
    DeletionRemoves(cfg, s, e.k);
    LedgerCountsClaims(s, e.k);
    var bk :| Holds(s, bk, e.k);
    assert Holds(Step(cfg, s, e), bk, e.k);
  }

  lemma DeletionRemoves(cfg: Config, s: System, k: ResourceKey)
    requires Exists(s, k) && !Latest(ResourceHistory(s.resources, k)).value.meta.finalizer
    ensures var s' := Step(cfg, s, DeleteResource(k));
            !Exists(s', k) && s'.bindings == s.bindings && s'.attempts == s.attempts
  {
  }

  lemma ExactPrefix(cfg: Config, es: seq<Event>, i: nat)
    requires i <= |es| && OnlyHarmless(cfg, es) && Run(cfg, INITIAL, es).dirty == 0
    ensures Exact(Run(cfg, INITIAL, es[..i]))
  {
    DirtyGrowsAlong(cfg, INITIAL, es, i);
    assert forall j :: 0 <= j < i ==> es[..i][..j] == es[..j];
    ExactRun(cfg, es[..i]);
  }

  /** Where deletions are protected, nothing claimed is removed at once. */
  lemma ProtectedClaimsStay(cfg: Config, es: seq<Event>)
    requires DeletesProtected(cfg, es)
    ensures ClaimsNotRemoved(cfg, es)
  {
    forall i | 0 <= i < |es| ensures !RemovesClaimed(Run(cfg, INITIAL, es[..i]), es[i]) {
      ProtectedRemovesNothing(Run(cfg, INITIAL, es[..i]), es[i]);
    }
  }

  /* ---- a run that ends clean has made only fresh counter writes ---- */

  /** An attempt whose binding version is the stored one releases what is bound. */
  lemma FreshIsOwn(s: System, e: Event)
    requires WellFormed(s) && FreshCounterWrite(s, e)
    ensures OwnRelease(s, e)
  {
    forall k ensures !StrayRelease(s, e, k) {
      if StrayRelease(s, e, k) { ReleasesItsOwn(e.bk, s.attempts[e.bk], k); }
    }
  }

  lemma ReleasesItsOwn(bk: BindingKey, a: Attempt, k: ResourceKey)
    requires FinalOk(a) && a.next < |Plan(bk, a)| && CountOf(NextStep(bk, a), k) == -1
    ensures BoundTo(bk, a.obj, k)
  {
    PlanIsDue(bk, a);
    assert Due(bk, a, k) == -1;
  }

  /** The attempt has moved a counter but its binding has moved on: its final write must fail. */
  predicate Doomed(s: System, bk: BindingKey) {
    && bk in s.attempts
    && s.attempts[bk].moved != map[]
    && s.attempts[bk].version < Version(BindingHistory(s.bindings, bk))
  }

  lemma DoomedStep(cfg: Config, s: System, e: Event, bk: BindingKey)
    requires WellFormed(s) && Doomed(s, bk)
    ensures Doomed(Step(cfg, s, e), bk) || Step(cfg, s, e).dirty > s.dirty
  {
    if ActsOnResource(e) {
      ResourceStepFrame(cfg, s, e);
    } else if e.bk != bk {
      BindingStepFrame(cfg, s, e);
      assert BindingHistory(Step(cfg, s, e).bindings, bk) == BindingHistory(s.bindings, bk);
    } else if ActsOnAttempt(e) {
      DoomedAttempt(cfg, s, e);
    } else {
      BindingHistoriesGrow(cfg, s, e, bk);
      BoundKept(cfg, s, e, ConfigKey(bk, ""));
    }
  }

  lemma DoomedAttempt(cfg: Config, s: System, e: Event)
    requires ActsOnAttempt(e) && Doomed(s, e.bk)
    ensures Doomed(Step(cfg, s, e), e.bk) || Step(cfg, s, e).dirty > s.dirty
  {
    if e.MoveCounter? && s.attempts[e.bk].next < |Plan(e.bk, s.attempts[e.bk])| {
      MoveEffect(s, e.bk, e.lag, e.fault);
      MovedStaysDoomed(s, DoMoveCounter(s, e.bk, e.lag, e.fault), e.bk, NextStep(e.bk, s.attempts[e.bk]),
                       MoveCommits(s, e.bk, e.lag, e.fault));
    }
  }

  lemma MovedStaysDoomed(s: System, s': System, bk: BindingKey, step: Option<Move>, commits: bool)
    requires Moved(s, s', bk, step, commits) && s.attempts[bk].version < Version(BindingHistory(s.bindings, bk))
    requires commits || s.attempts[bk].moved != map[]
    ensures Doomed(s', bk) || s'.dirty > s.dirty
  {
    if bk in s'.attempts && commits {
      assert step.value.target in s'.attempts[bk].moved;
    }
  }

  lemma StaleWriteDooms(cfg: Config, s: System, e: Event)
    requires WellFormed(s) && !FreshCounterWrite(s, e)
    ensures Doomed(Step(cfg, s, e), e.bk) || Step(cfg, s, e).dirty > s.dirty
  {
    MoveEffect(s, e.bk, e.lag, e.fault);
    assert s.attempts[e.bk].version < |BindingHistory(s.bindings, e.bk)|;
    MovedStaysDoomed(s, DoMoveCounter(s, e.bk, e.lag, e.fault), e.bk, NextStep(e.bk, s.attempts[e.bk]), true);
  }

  /** The attempt of `bk` is doomed, or some attempt has ended unclean. */
  predicate Spoilt(s: System, bk: BindingKey) {
    Doomed(s, bk) || s.dirty > 0
  }

  lemma SpoiltStep(cfg: Config, s: System, e: Event, bk: BindingKey)
    requires WellFormed(s) && Spoilt(s, bk)
    ensures WellFormed(Step(cfg, s, e)) && Spoilt(Step(cfg, s, e), bk)
  {
    WellFormedStep(cfg, s, e);
    DirtyGrows(cfg, s, e);
    if s.dirty == 0 { DoomedStep(cfg, s, e, bk); }
  }

  lemma {:induction false} SpoiltForGood(cfg: Config, s: System, es: seq<Event>, bk: BindingKey)
    requires WellFormed(s) && Spoilt(s, bk)
    ensures WellFormed(Run(cfg, s, es)) && Spoilt(Run(cfg, s, es), bk)
  {
    if es != [] {
      SpoiltForGood(cfg, s, es[..|es| - 1], bk);
      SpoiltStep(cfg, Run(cfg, s, es[..|es| - 1]), es[|es| - 1], bk);
    }
  }

  /** The run ends with no attempt in flight, and every attempt it made was clean. */
  predicate EndsClean(cfg: Config, es: seq<Event>) {
    Run(cfg, INITIAL, es).attempts == map[] && Run(cfg, INITIAL, es).dirty == 0
  }

  lemma StaleWriteEndsUnclean(cfg: Config, s: System, e: Event, es: seq<Event>)
    requires WellFormed(s) && !FreshCounterWrite(s, e)
    ensures var t := Run(cfg, Step(cfg, s, e), es); t.attempts != map[] || t.dirty > 0
  {
    StaleWriteDooms(cfg, s, e);
    WellFormedStep(cfg, s, e);
    SpoiltForGood(cfg, Step(cfg, s, e), es, e.bk);
  }

  lemma RunAround(cfg: Config, s: System, es: seq<Event>, e: Event, fs: seq<Event>)
    ensures Run(cfg, s, es + [e] + fs) == Run(cfg, Step(cfg, Run(cfg, s, es), e), fs)
  {
    RunSnoc(cfg, s, es, e);
    RunConcat(cfg, s, es + [e], fs);
  }

  /** A stale counter write anywhere in a run shows at its end. */
  lemma StaleWriteShows(cfg: Config, es: seq<Event>, e: Event, fs: seq<Event>)
    requires !FreshCounterWrite(Run(cfg, INITIAL, es), e)
    ensures !EndsClean(cfg, es + [e] + fs)
  {
    WellFormedRun(cfg, es);
    RunAround(cfg, INITIAL, es, e, fs);
    StaleWriteEndsUnclean(cfg, Run(cfg, INITIAL, es), e, fs);
  }

  lemma CleanRunsWriteFresh(cfg: Config, es: seq<Event>)
    requires EndsClean(cfg, es)
    ensures CounterWritesFresh(cfg, es)
  {
    forall i | 0 <= i < |es| ensures FreshCounterWrite(Run(cfg, INITIAL, es[..i]), es[i]) {
      WritesFreshAt(cfg, es, i);
    }
  }

  lemma WritesFreshAt(cfg: Config, es: seq<Event>, i: nat)
    requires EndsClean(cfg, es) && i < |es|
    ensures FreshCounterWrite(Run(cfg, INITIAL, es[..i]), es[i])
  {
    assert es[..i] + [es[i]] + es[i + 1..] == es;
    if !FreshCounterWrite(Run(cfg, INITIAL, es[..i]), es[i]) {
      StaleWriteShows(cfg, es[..i], es[i], es[i + 1..]);
      assert false;
    }
  }

  lemma CleanRunsReleaseOwn(cfg: Config, es: seq<Event>)
    requires EndsClean(cfg, es)
    ensures ReleasesOwn(cfg, es)
  {
    CleanRunsWriteFresh(cfg, es);
    forall i | 0 <= i < |es| ensures OwnRelease(Run(cfg, INITIAL, es[..i]), es[i]) {
      WellFormedRun(cfg, es[..i]);
      FreshIsOwn(Run(cfg, INITIAL, es[..i]), es[i]);
    }
  }

  lemma CleanRunsHarmless(cfg: Config, es: seq<Event>)
    requires EndsClean(cfg, es)
    ensures OnlyHarmless(cfg, es) <==> ClaimsNotRemoved(cfg, es)
  {
    CleanRunsReleaseOwn(cfg, es);
  }

  /** A run all of whose attempts end clean is safe at every moment if and only if it deletes nothing
      unprotected that is claimed. */
  lemma CleanRunsSafeIff(cfg: Config, es: seq<Event>)
    requires EndsClean(cfg, es)
    ensures AlwaysSafe(cfg, es) <==> ClaimsNotRemoved(cfg, es)
  {
    CleanRunsHarmless(cfg, es);
    SafeIffHarmless(cfg, es);
  }

  /** In such a run, every counter is exact at every moment, and a bound resource exists at every moment
      unless the binding's own attempt in flight has released it. */
  lemma CleanRunsAreSafe(cfg: Config, es: seq<Event>, i: nat, bk: BindingKey, k: ResourceKey)
    requires ClaimsNotRemoved(cfg, es) && EndsClean(cfg, es) && i <= |es|
    ensures var s := Run(cfg, INITIAL, es[..i]);
            && (Exists(s, k) ==>
                 ActiveBindings(s, k) ==
                   |Bound(s.bindings, k)| + |Moving(s.attempts, k, 1)| - |Moving(s.attempts, k, -1)|)
            && (IsBound(s.bindings, bk, k) ==> Exists(s, k) || HasMoved(s.attempts, bk, k, -1))
            && (HasMoved(s.attempts, bk, k, 1) ==> Exists(s, k))
  {
    CleanRunsHarmless(cfg, es);
    ExactPrefix(cfg, es, i);
    var s := Run(cfg, INITIAL, es[..i]);
    assert IsBound(s.bindings, bk, k) && !HasMoved(s.attempts, bk, k, -1) ==> Holds(s, bk, k);
    assert HasMoved(s.attempts, bk, k, 1) ==> Holds(s, bk, k);
  }
}
