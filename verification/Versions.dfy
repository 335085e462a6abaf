/** Invariants of every version ever stored, in every run: the settled hash of a PipelineConfig,
    the status of a binding and the uniqueness of its tenant IDs.  They range over the whole
    history because any past version may still be read and patched from. */
module Versions {
  import opened Api
  import opened Histories
  import opened Tenants
  import opened MergePatch
  import opened Protocol
  import opened Invariants

  ghost predicate NonEmptyHashes(cfg: Config) { forall c :: cfg.hash(c) != "" }

  ghost predicate Injective(hash: string -> string) {
    forall a, b :: hash(a) == hash(b) ==> a == b
  }

  /* ---- PipelineConfigs ---- */

  predicate HashSettled(cfg: Config, r: Resource) {
    Settled(r) && r.spec.ConfigSpec? ==> r.status.contentHash == cfg.hash(r.spec.content)
  }

  predicate GoodResource(cfg: Config, r: Resource) {
    && r.status.observedGeneration <= r.meta.generation
    && (r.meta.deleting ==> r.status.observedGeneration < r.meta.generation)
    && HashSettled(cfg, r)
  }

  /** The next version of the same object does not lose a hash. */
  ghost predicate KeepsHash(cfg: Config, older: Option<Resource>, newer: Option<Resource>) {
    NonEmptyHashes(cfg) && older.Some? && newer.Some? && older.value.status.contentHash != "" ==>
      newer.value.status.contentHash != ""
  }

  /** The object of version `j` has had, in version `i`, the content that `hash` is the hash of. */
  predicate HashedFrom(cfg: Config, h: History<Resource>, hash: string, i: nat, j: nat)
    requires i <= j < |h|
  {
    && (forall n :: i <= n <= j ==> h[n].Some?)
    && h[i].value.spec.ConfigSpec? && h[i].value.spec.content != ""
    && hash == cfg.hash(h[i].value.spec.content)
  }

  /** A hash in version `j` is the hash of some content the same object has had by then. */
  ghost predicate HashHasOrigin(cfg: Config, h: History<Resource>, j: nat)
    requires j < |h|
  {
    h[j].Some? && h[j].value.status.contentHash != "" ==>
      exists i :: 0 <= i <= j && HashedFrom(cfg, h, h[j].value.status.contentHash, i, j)
  }

  ghost predicate GoodResources(cfg: Config, h: History<Resource>) {
    && (forall i :: 0 <= i < |h| && h[i].Some? ==> GoodResource(cfg, h[i].value))
    && (forall i :: 0 < i < |h| ==> KeepsHash(cfg, h[i - 1], h[i]))
    && (forall i :: 0 < i < |h| ==> HashFollows(cfg, h[i - 1], h[i]))
    && (forall j :: 0 <= j < |h| ==> HashHasOrigin(cfg, h, j))
  }

  /** The hash of the next version is that of its own content, or the one there was. */
  predicate HashFollows(cfg: Config, older: Option<Resource>, newer: Option<Resource>) {
    newer.Some? ==>
      var hash := newer.value.status.contentHash;
      || hash == (if older.Some? then older.value.status.contentHash else "")
      || (newer.value.spec.ConfigSpec? && newer.value.spec.content != "" && hash == cfg.hash(newer.value.spec.content))
  }

  lemma GoodCommit(cfg: Config, h: History<Resource>, x: Option<Resource>)
    requires GoodResources(cfg, h) && (x.Some? ==> GoodResource(cfg, x.value)) && KeepsHash(cfg, Latest(h), x)
    requires HashFollows(cfg, Latest(h), x)
    ensures GoodResources(cfg, Commit(h, x))
  {
    var h' := h + [x];
    forall j | 0 <= j < |h'| ensures HashHasOrigin(cfg, h', j) {
      if j < |h| {
        OriginStays(cfg, h, x, j);
      } else {
        OriginOfNew(cfg, h, x);
      }
    }
  }

  lemma OriginStays(cfg: Config, h: History<Resource>, x: Option<Resource>, j: nat)
    requires j < |h| && HashHasOrigin(cfg, h, j)
    ensures HashHasOrigin(cfg, h + [x], j)
  {
    if h[j].Some? && h[j].value.status.contentHash != "" {
      var i :| 0 <= i <= j && HashedFrom(cfg, h, h[j].value.status.contentHash, i, j);
      assert HashedFrom(cfg, h + [x], h[j].value.status.contentHash, i, j);
    }
  }

  lemma OriginOfNew(cfg: Config, h: History<Resource>, x: Option<Resource>)
    requires HashHasOrigin(cfg, h, |h| - 1) && HashFollows(cfg, Latest(h), x)
    ensures HashHasOrigin(cfg, h + [x], |h|)
  {
    if x.Some? && x.value.status.contentHash != "" {
      var hash := x.value.status.contentHash;
      if Latest(h).Some? && hash == Latest(h).value.status.contentHash {
        var i :| 0 <= i <= |h| - 1 && HashedFrom(cfg, h, hash, i, |h| - 1);
        assert HashedFrom(cfg, h + [x], hash, i, |h|);
      } else {
        assert HashedFrom(cfg, h + [x], hash, |h|, |h|);
      }
    }
  }

  lemma ReconcileGood(cfg: Config, r: Resource)
    requires GoodResource(cfg, r)
    ensures var w := ReconciledResource(cfg, r);
            w.Some? ==> GoodResource(cfg, w.value) && KeepsHash(cfg, Some(r), w) && HashFollows(cfg, Some(r), w)
  {
    if r.spec.ConfigSpec? {
      var g := r.meta.generation;
      FindAfterSet(r.status.conditions, Condition(CONTENT_VALID, ConditionFalse, "EmptyContent", g), CONTENT_VALID);
      FindAfterSet(r.status.conditions, Condition(CONTENT_VALID, ConditionTrue, "ContentValid", g), CONTENT_VALID);
    }
  }

  lemma ResourceStepGood(cfg: Config, s: System, e: Event)
    requires ActsOnResource(e) && GoodResources(cfg, ResourceHistory(s.resources, e.k))
    ensures GoodResources(cfg, ResourceHistory(Step(cfg, s, e).resources, e.k))
  {
    if e.ReconcileResource? {
      ReconcileStepGood(cfg, s, e);
    } else {
      UserWriteGood(cfg, s, e);
    }
  }

  lemma ReconcileStepGood(cfg: Config, s: System, e: Event)
    requires e.ReconcileResource? && GoodResources(cfg, ResourceHistory(s.resources, e.k))
    ensures GoodResources(cfg, ResourceHistory(Step(cfg, s, e).resources, e.k))
  {
    var h := ResourceHistory(s.resources, e.k);
    if Latest(h).Some? {
      ReconcileGood(cfg, Latest(h).value);
      var w := ReconciledResource(cfg, Latest(h).value);
      if w.Some? { GoodCommit(cfg, h, AdmitResource(w.value)); }
    }
  }

  lemma UserWriteGood(cfg: Config, s: System, e: Event)
    requires e.CreateResource? || e.EditResource? || e.DeleteResource?
    requires GoodResources(cfg, ResourceHistory(s.resources, e.k))
    ensures GoodResources(cfg, ResourceHistory(Step(cfg, s, e).resources, e.k))
  {
    var h := ResourceHistory(s.resources, e.k);
    if e.CreateResource? {
      if Latest(h).None? {
        GoodCommit(cfg, h, Some(Resource(Meta(1, false, false), e.isDefault, e.spec, NEW_RESOURCE_STATUS)));
      }
    } else if Latest(h).Some? {
      var r := Latest(h).value;
      if e.EditResource? {
        GoodCommit(cfg, h, Some(Edited(r, e.spec, e.isDefault)));
      } else {
        GoodCommit(cfg, h, AdmitResource(r.(meta := Terminating(r.meta))));
      }
    }
  }

  lemma MoveGood(cfg: Config, s: System, bk: BindingKey, lag: nat, fault: Fault, k: ResourceKey)
    requires GoodResources(cfg, ResourceHistory(s.resources, k))
    ensures GoodResources(cfg, ResourceHistory(DoMoveCounter(s, bk, lag, fault).resources, k))
  {
    if bk in s.attempts && s.attempts[bk].next < |Plan(bk, s.attempts[bk])| {
      MoveEffect(s, bk, lag, fault);
      var step := Plan(bk, s.attempts[bk])[s.attempts[bk].next];
      if MoveCommits(s, bk, lag, fault) && step.value.target == k {
        var h := ResourceHistory(s.resources, k);
        GoodCommit(cfg, h, AdmitResource(Counted(Latest(h).value, step.value.delta)));
      }
    }
  }

  /* ---- bindings ---- */

  /** The status of a binding makes sense. */
  predicate GoodBinding(b: Binding) {
    && (b.spec.collectorGroupRef == "") != (b.spec.tenantRef == "")
    && UniqueIds(b.status.registeredTenants)
    && !b.status.phase.Pending?
    && (!b.status.phase.Unset? ==> b.status.phase == DerivePhase(b.status.conditions))
    && b.status.observedGeneration <= b.meta.generation
    && (b.status.phase.Active? && b.status.observedGeneration == b.meta.generation ==>
         && b.status.boundPipelineConfigRef == b.spec.pipelineConfigRef
         && b.status.boundCollectorGroupRef == b.spec.collectorGroupRef)
  }

  predicate GoodBindings(h: History<Binding>) {
    forall i :: 0 <= i < |h| && h[i].Some? ==> GoodBinding(h[i].value)
  }

  lemma FinalGood(cfg: Config, a: Attempt, now: int)
    requires GoodBinding(a.obj)
    ensures GoodBinding(FinalObject(cfg, a, now))
  {
    var b := a.obj;
    match a.final
    case AddFinalizer =>
    case RemoveFinalizer =>
    case MarkInvalid(reason) =>
      FindAfterSet(b.status.conditions, Condition(REFS_VALID, ConditionFalse, reason, b.meta.generation), REFS_VALID);
    case Sync(configHash) =>
      FindAfterSet(b.status.conditions, Condition(REFS_VALID, ConditionTrue, "RefsResolved", b.meta.generation),
                   REFS_VALID);
      EvictKeepsUnique(b.status.registeredTenants, cfg.ttl, now);
  }

  lemma FinishGood(cfg: Config, s: System, bk: BindingKey, now: int, fault: Fault)
    requires GoodBindings(BindingHistory(s.bindings, bk))
    requires bk in s.attempts ==> GoodBinding(s.attempts[bk].obj)
    ensures GoodBindings(BindingHistory(DoFinish(cfg, s, bk, now, fault).bindings, bk))
  {
    if bk in s.attempts {
      FinalGood(cfg, s.attempts[bk], now);
    }
  }

  lemma PatchGood(s: System, bk: BindingKey, base: Binding, ts: seq<Tenant>)
    requires GoodBindings(BindingHistory(s.bindings, bk)) && UniqueIds(ts)
    ensures GoodBindings(BindingHistory(DoPatchTenants(s, bk, base, ts).bindings, bk))
  {
    var h := BindingHistory(s.bindings, bk);
    if Latest(h).Some? {
      var cur := Latest(h).value;
      var next := cur.(status := Apply(Diff(base.status, WithTenants(base, ts).status), cur.status));
      assert next == WithTenants(cur, next.status.registeredTenants);
      assert GoodBinding(next);
    }
  }

  lemma RegistryStepGood(cfg: Config, s: System, e: Event)
    requires (e.RegisterPatch? || e.UnregisterPatch?) && GoodBindings(BindingHistory(s.bindings, e.bk))
    ensures GoodBindings(BindingHistory(Step(cfg, s, e).bindings, e.bk))
  {
    var read := ReadAt(BindingHistory(s.bindings, e.bk), e.lag);
    if read.Some? {
      var ts := read.value.status.registeredTenants;
      if e.RegisterPatch? {
        UpsertKeepsUnique(ts, e.tenant);
        PatchGood(s, e.bk, read.value, Upsert(ts, e.tenant));
      } else {
        RemoveKeepsUnique(ts, e.collectorId);
        PatchGood(s, e.bk, read.value, RemoveCollector(ts, e.collectorId));
      }
    }
  }

  lemma MoveKeepsBindings(s: System, bk: BindingKey, lag: nat, fault: Fault)
    ensures DoMoveCounter(s, bk, lag, fault).bindings == s.bindings
  {
  }

  lemma BindingStepGood(cfg: Config, s: System, e: Event)
    requires !ActsOnResource(e) && GoodBindings(BindingHistory(s.bindings, e.bk))
    requires e.bk in s.attempts ==> GoodBinding(s.attempts[e.bk].obj)
    ensures GoodBindings(BindingHistory(Step(cfg, s, e).bindings, e.bk))
  {
    if e.Finish? {
      FinishGood(cfg, s, e.bk, e.now, e.fault);
    } else if e.RegisterPatch? || e.UnregisterPatch? {
      RegistryStepGood(cfg, s, e);
    } else if e.MoveCounter? {
      MoveKeepsBindings(s, e.bk, e.lag, e.fault);
    } else {
      UserStepGood(cfg, s, e);
    }
  }

  lemma UserStepGood(cfg: Config, s: System, e: Event)
    requires e.CreateBinding? || e.EditBinding? || e.DeleteBinding? || e.Begin? || e.Crash?
    requires GoodBindings(BindingHistory(s.bindings, e.bk))
    ensures GoodBindings(BindingHistory(Step(cfg, s, e).bindings, e.bk))
  {
  }

  /* ---- all runs ---- */

  ghost predicate GoodVersions(cfg: Config, s: System) {
    && (forall k :: GoodResources(cfg, ResourceHistory(s.resources, k)))
    && (forall bk :: GoodBindings(BindingHistory(s.bindings, bk)))
  }

  /** A step changes at most the history of the one object it acts on. */
  lemma OtherHistories(cfg: Config, s: System, e: Event)
    ensures forall k :: !e.MoveCounter? && !(ActsOnResource(e) && e.k == k) ==>
              ResourceHistory(Step(cfg, s, e).resources, k) == ResourceHistory(s.resources, k)
    ensures forall bk :: !(!ActsOnResource(e) && e.bk == bk) ==>
              BindingHistory(Step(cfg, s, e).bindings, bk) == BindingHistory(s.bindings, bk)
  {
  }

  lemma GoodVersionsStep(cfg: Config, s: System, e: Event)
    requires WellFormed(s) && GoodVersions(cfg, s)
    ensures GoodVersions(cfg, Step(cfg, s, e))
  {
    OtherHistories(cfg, s, e);
    if e.MoveCounter? {
      forall k ensures GoodResources(cfg, ResourceHistory(Step(cfg, s, e).resources, k)) {
        MoveGood(cfg, s, e.bk, e.lag, e.fault, k);
      }
    }
    if ActsOnResource(e) {
      ResourceStepGood(cfg, s, e);
    } else {
      if e.bk in s.attempts {
        assert AttemptOk(e.bk, s.attempts[e.bk], BindingHistory(s.bindings, e.bk));
      }
      BindingStepGood(cfg, s, e);
    }
  }

  lemma {:induction false} VersionsStayGood(cfg: Config, es: seq<Event>)
    ensures WellFormed(Run(cfg, INITIAL, es)) && GoodVersions(cfg, Run(cfg, INITIAL, es))
  {
    if es != [] {
      var s := Run(cfg, INITIAL, es[..|es| - 1]);
      VersionsStayGood(cfg, es[..|es| - 1]);
      WellFormedStep(cfg, s, es[|es| - 1]);
      GoodVersionsStep(cfg, s, es[|es| - 1]);
    }
  }

  /** Settled-hash invariant: in every version ever stored, a PipelineConfig whose status says it is
      valid and up to date carries the hash of its own content. */
  lemma SettledHash(cfg: Config, es: seq<Event>, k: ResourceKey, i: nat)
    requires var h := ResourceHistory(Run(cfg, INITIAL, es).resources, k);
             i < |h| && h[i].Some? && h[i].value.spec.ConfigSpec? && Settled(h[i].value)
    ensures var r := ResourceHistory(Run(cfg, INITIAL, es).resources, k)[i].value;
            r.status.contentHash == cfg.hash(r.spec.content)
  {
    VersionsStayGood(cfg, es);
  }

  /** Once hashed, an object stays hashed for as long as it exists. */
  lemma {:induction false} HashPersists(cfg: Config, es: seq<Event>, k: ResourceKey, i: nat, j: nat)
    requires NonEmptyHashes(cfg)
    requires var h := ResourceHistory(Run(cfg, INITIAL, es).resources, k);
             && i <= j < |h|
             && (forall n :: i <= n <= j ==> h[n].Some?)
             && h[i].value.status.contentHash != ""
    ensures ResourceHistory(Run(cfg, INITIAL, es).resources, k)[j].value.status.contentHash != ""
    decreases j - i
  {
    if i < j {
      VersionsStayGood(cfg, es);
      var h := ResourceHistory(Run(cfg, INITIAL, es).resources, k);
      assert GoodResources(cfg, h);
      assert KeepsHash(cfg, h[i + 1 - 1], h[i + 1]);
      HashPersists(cfg, es, k, i + 1, j);
    }
  }

  /** Where a hash comes from: in every version ever stored, a hash is that of a non-empty content which
      the same object has had in this or an earlier version. */
  lemma HashOrigin(cfg: Config, es: seq<Event>, k: ResourceKey, j: nat) returns (i: nat)
    requires var h := ResourceHistory(Run(cfg, INITIAL, es).resources, k);
             j < |h| && h[j].Some? && h[j].value.status.contentHash != ""
    ensures var h := ResourceHistory(Run(cfg, INITIAL, es).resources, k);
            && i <= j
            && (forall n :: i <= n <= j ==> h[n].Some?)
            && h[i].value.spec.ConfigSpec? && h[i].value.spec.content != ""
            && h[j].value.status.contentHash == cfg.hash(h[i].value.spec.content)
  {
    VersionsStayGood(cfg, es);
    i := OriginOf(cfg, ResourceHistory(Run(cfg, INITIAL, es).resources, k), j);
  }

  /** Whether a stored hash is the right one: exactly if the content is the one it was hashed from. */
  lemma HashMatchesIff(cfg: Config, es: seq<Event>, k: ResourceKey, j: nat) returns (i: nat)
    requires var h := ResourceHistory(Run(cfg, INITIAL, es).resources, k);
             j < |h| && h[j].Some? && h[j].value.spec.ConfigSpec? && h[j].value.status.contentHash != ""
    requires Injective(cfg.hash)
    ensures var h := ResourceHistory(Run(cfg, INITIAL, es).resources, k);
            && i <= j && HashedFrom(cfg, h, h[j].value.status.contentHash, i, j)
            && (HashMatches(cfg, h[j].value) <==> h[j].value.spec.content == h[i].value.spec.content)
  {
    VersionsStayGood(cfg, es);
    i := OriginOf(cfg, ResourceHistory(Run(cfg, INITIAL, es).resources, k), j);
  }

  /** The hash is that of the content. */
  predicate HashMatches(cfg: Config, r: Resource) {
    r.spec.ConfigSpec? && r.status.contentHash == cfg.hash(r.spec.content)
  }

  /** A hash that matches goes on matching for as long as the content is not edited, whatever else
      happens to the object. */
  lemma MatchPersists(cfg: Config, es: seq<Event>, k: ResourceKey, i: nat, j: nat)
    requires var h := ResourceHistory(Run(cfg, INITIAL, es).resources, k);
             && i <= j < |h| && SameContent(h, i, j) && HashMatches(cfg, h[i].value)
    ensures HashMatches(cfg, ResourceHistory(Run(cfg, INITIAL, es).resources, k)[j].value)
  {
    VersionsStayGood(cfg, es);
    MatchKept(cfg, ResourceHistory(Run(cfg, INITIAL, es).resources, k), i, j);
  }

  predicate SameContent(h: History<Resource>, i: nat, j: nat)
    requires i <= j < |h|
  {
    && h[i].Some? && h[i].value.spec.ConfigSpec?
    && forall n :: i <= n <= j ==>
         h[n].Some? && h[n].value.spec.ConfigSpec? && h[n].value.spec.content == h[i].value.spec.content
  }

  lemma {:induction false} MatchKept(cfg: Config, h: History<Resource>, i: nat, j: nat)
    requires GoodResources(cfg, h) && i <= j < |h| && SameContent(h, i, j) && HashMatches(cfg, h[i].value)
    ensures HashMatches(cfg, h[j].value)
    decreases j
  {
    if i < j {
      MatchKept(cfg, h, i, j - 1);
      assert HashFollows(cfg, h[j - 1], h[j]);
    }
  }

  /** An object that is being deleted never counts as settled again, but one that was settled keeps the
      right hash for as long as it is there and its content is not edited. */
  lemma DeletedStillMatches(cfg: Config, es: seq<Event>, k: ResourceKey, i: nat, j: nat)
    requires var h := ResourceHistory(Run(cfg, INITIAL, es).resources, k);
             i <= j < |h| && SameContent(h, i, j) && Settled(h[i].value) && h[j].value.meta.deleting
    ensures var r := ResourceHistory(Run(cfg, INITIAL, es).resources, k)[j].value;
            !Settled(r) && HashMatches(cfg, r)
  {
    VersionsStayGood(cfg, es);
    var h := ResourceHistory(Run(cfg, INITIAL, es).resources, k);
    assert GoodResource(cfg, h[i].value) && GoodResource(cfg, h[j].value);
    MatchKept(cfg, h, i, j);
  }

  lemma OriginOf(cfg: Config, h: History<Resource>, j: nat) returns (i: nat)
    requires GoodResources(cfg, h) && j < |h| && h[j].Some? && h[j].value.status.contentHash != ""
    ensures i <= j && HashedFrom(cfg, h, h[j].value.status.contentHash, i, j)
  {
    assert HashHasOrigin(cfg, h, j);
    i :| 0 <= i <= j && HashedFrom(cfg, h, h[j].value.status.contentHash, i, j);
  }

  /** Tenant IDs are unique and the status is consistent in every version of every binding:
      the phase is unset, Active exactly if the first RefsValid condition is True, or Degraded exactly if
      it is not; an up-to-date Active binding is bound to exactly what its spec names, and every binding
      names a group or a tenant and not both. */
  lemma BindingStatusConsistent(cfg: Config, es: seq<Event>, bk: BindingKey, i: nat)
    requires var h := BindingHistory(Run(cfg, INITIAL, es).bindings, bk); i < |h| && h[i].Some?
    ensures var b := BindingHistory(Run(cfg, INITIAL, es).bindings, bk)[i].value;
            && UniqueIds(b.status.registeredTenants)
            && (b.spec.collectorGroupRef == "") != (b.spec.tenantRef == "")
            && (b.status.phase.Unset? || b.status.phase.Active? || b.status.phase.Degraded?)
            && (!b.status.phase.Unset? ==>
                 (b.status.phase.Active? <==>
                   exists c :: FirstOf(b.status.conditions, c) && c.kind == REFS_VALID && c.status.ConditionTrue?))
            && (b.status.phase.Degraded? ==>
                 exists c :: FirstOf(b.status.conditions, c) && c.kind == REFS_VALID && !c.status.ConditionTrue?)
            && (b.status.phase.Active? && b.status.observedGeneration == b.meta.generation ==>
                 && b.status.boundPipelineConfigRef == b.spec.pipelineConfigRef
                 && b.status.boundCollectorGroupRef == b.spec.collectorGroupRef)
  {
    VersionsStayGood(cfg, es);
    var h := BindingHistory(Run(cfg, INITIAL, es).bindings, bk);
    assert GoodBindings(h);
    PhaseMeaning(h[i].value.status.conditions);
  }
}
