/** Runs that show why the premises of the main results are there. */
module Counterexamples {
  import opened Api
  import opened Histories
  import opened Protocol
  import opened Invariants
  import opened Ledger
  import opened DeleteSafety
  import opened Confluence

  const X := ResourceKey(PipelineConfig, "n", "x")
  const B1 := BindingKey("n", "b1")
  const B2 := BindingKey("n", "b2")

  function TenantSpec(tenant: string): BindingSpec { BindingSpec("", tenant, "x") }

  function NewBinding(tenant: string, finalizer: bool): Binding {
    Binding(Meta(1, finalizer, false), TenantSpec(tenant), NEW_BINDING_STATUS)
  }

  function NewConfig(finalizer: bool): Resource {
    Resource(Meta(1, finalizer, false), false, ConfigSpec("c", ""), NEW_RESOURCE_STATUS)
  }

  lemma Extend(cfg: Config, es: seq<Event>, e: Event)
    requires DeletesProtected(cfg, es) && ProtectedDelete(Run(cfg, INITIAL, es), e)
    ensures DeletesProtected(cfg, es + [e]) && Run(cfg, INITIAL, es + [e]) == Step(cfg, Run(cfg, INITIAL, es), e)
  {
    RunSnoc(cfg, INITIAL, es, e);
    forall i | 0 <= i < |es + [e]| ensures ProtectedDelete(Run(cfg, INITIAL, (es + [e])[..i]), (es + [e])[i]) {
      assert (es + [e])[..i] == es[..i];
      assert i == |es| ==> es[..i] == es;
    }
  }

  predicate DeletesNothing(es: seq<Event>) {
    forall i :: 0 <= i < |es| ==> !es[i].DeleteResource?
  }

  lemma ExtendMany(cfg: Config, es: seq<Event>, fs: seq<Event>)
    requires DeletesProtected(cfg, es) && DeletesNothing(fs)
    ensures DeletesProtected(cfg, es + fs) && Run(cfg, INITIAL, es + fs) == Run(cfg, Run(cfg, INITIAL, es), fs)
  {
    RunConcat(cfg, INITIAL, es, fs);
    forall i | 0 <= i < |es + fs| ensures ProtectedDelete(Run(cfg, INITIAL, (es + fs)[..i]), (es + fs)[i]) {
      if i < |es| {
        assert (es + fs)[..i] == es[..i];
      } else {
        assert (es + fs)[i] == fs[i - |es|];
      }
    }
  }

  /** One config and two finalized bindings to it that have not been counted yet. */
  predicate Ready(s: System, finalizer: bool) {
    && s.attempts == map[] && s.dirty == 0
    && s.bindings.Keys == {B1, B2}
    && Latest(ResourceHistory(s.resources, X)) == Some(NewConfig(finalizer))
    && Latest(BindingHistory(s.bindings, B1)) == Some(NewBinding("t1", true))
    && Latest(BindingHistory(s.bindings, B2)) == Some(NewBinding("t2", true))
  }

  lemma RunTwo(cfg: Config, s: System, e: Event, f: Event)
    ensures Run(cfg, s, [e, f]) == Step(cfg, Step(cfg, s, e), f)
  {
    assert [e, f][..1] == [e] && [e][..0] == [];
    assert Run(cfg, s, [e]) == Step(cfg, s, e);
  }

  lemma Finalizes(cfg: Config, s: System, bk: BindingKey, tenant: string)
    requires s.attempts == map[] && s.dirty == 0 &&
              Latest(BindingHistory(s.bindings, bk)) == Some(NewBinding(tenant, false))
    ensures var t := Run(cfg, s, [Begin(bk, 0, At(0), At(0)), Finish(bk, 0, Healthy)]);
            && t.attempts == map[] && t.dirty == 0 && t.resources == s.resources
            && Latest(BindingHistory(t.bindings, bk)) == Some(NewBinding(tenant, true))
            && (forall x :: x != bk ==> BindingHistory(t.bindings, x) == BindingHistory(s.bindings, x))
            && t.bindings.Keys == s.bindings.Keys + {bk}
  {
    RunTwo(cfg, s, Begin(bk, 0, At(0), At(0)), Finish(bk, 0, Healthy));
    var t := DoBegin(s, bk, 0, At(0), At(0));
    assert t.attempts.Keys == {bk};
    var u := DoFinish(cfg, t, bk, 0, Healthy);
    assert u.attempts.Keys == {};
    assert u.attempts == map[];
  }

  function CreateConfig(finalizer: bool): seq<Event> {
    [CreateResource(X, ConfigSpec("c", ""), false)] + if finalizer then [ReconcileResource(X, 0, Healthy)] else []
  }

  lemma ConfigCreated(cfg: Config, finalizer: bool)
    ensures var s := Run(cfg, INITIAL, CreateConfig(finalizer));
            && Latest(ResourceHistory(s.resources, X)) == Some(NewConfig(finalizer))
            && s.bindings == map[] && s.attempts == map[] && s.dirty == 0
  {
    var e := CreateResource(X, ConfigSpec("c", ""), false);
    assert [e][..0] == [];
    assert Run(cfg, INITIAL, [e]) == Step(cfg, INITIAL, e);
    if finalizer {
      RunTwo(cfg, INITIAL, e, ReconcileResource(X, 0, Healthy));
      assert CreateConfig(finalizer) == [e, ReconcileResource(X, 0, Healthy)];
    } else {
      assert CreateConfig(finalizer) == [e];
    }
  }

  const CREATE_BINDINGS := [CreateBinding(B1, TenantSpec("t1")), CreateBinding(B2, TenantSpec("t2"))]

  lemma BindingsCreated(cfg: Config, s: System)
    requires s.bindings == map[]
    ensures var t := Run(cfg, s, CREATE_BINDINGS);
            && t == s.(bindings := t.bindings) && t.bindings.Keys == {B1, B2}
            && Latest(BindingHistory(t.bindings, B1)) == Some(NewBinding("t1", false))
            && Latest(BindingHistory(t.bindings, B2)) == Some(NewBinding("t2", false))
  {
    RunTwo(cfg, s, CREATE_BINDINGS[0], CREATE_BINDINGS[1]);
  }

  function Finalize(bk: BindingKey): seq<Event> { [Begin(bk, 0, At(0), At(0)), Finish(bk, 0, Healthy)] }

  function SetUp(finalizer: bool): seq<Event> {
    CreateConfig(finalizer) + CREATE_BINDINGS + Finalize(B1) + Finalize(B2)
  }

  lemma RunFour(cfg: Config, a: seq<Event>, b: seq<Event>, c: seq<Event>, d: seq<Event>)
    requires DeletesNothing(a) && DeletesNothing(b) && DeletesNothing(c) && DeletesNothing(d)
    ensures Run(cfg, INITIAL, a + b + c + d) == Run(cfg, Run(cfg, Run(cfg, Run(cfg, INITIAL, a), b), c), d)
    ensures DeletesProtected(cfg, a + b + c + d)
  {
    RunConcat(cfg, INITIAL, a, b);
    RunConcat(cfg, INITIAL, a + b, c);
    RunConcat(cfg, INITIAL, a + b + c, d);
    ExtendMany(cfg, [], a + b + c + d);
    assert [] + (a + b + c + d) == a + b + c + d;
  }

  lemma SetUpIsReady(cfg: Config, finalizer: bool)
    ensures DeletesProtected(cfg, SetUp(finalizer)) && Ready(Run(cfg, INITIAL, SetUp(finalizer)), finalizer)
  {
    RunFour(cfg, CreateConfig(finalizer), CREATE_BINDINGS, Finalize(B1), Finalize(B2));
    ConfigCreated(cfg, finalizer);
    ReadyFrom(cfg, Run(cfg, INITIAL, CreateConfig(finalizer)), finalizer);
  }

  lemma ReadyFrom(cfg: Config, s: System, finalizer: bool)
    requires Latest(ResourceHistory(s.resources, X)) == Some(NewConfig(finalizer))
    requires s.bindings == map[] && s.attempts == map[] && s.dirty == 0
    ensures Ready(Run(cfg, Run(cfg, Run(cfg, s, CREATE_BINDINGS), Finalize(B1)), Finalize(B2)), finalizer)
  {
    BindingsCreated(cfg, s);
    var t := Run(cfg, s, CREATE_BINDINGS);
    Finalizes(cfg, t, B1, "t1");
    Finalizes(cfg, Run(cfg, t, Finalize(B1)), B2, "t2");
  }

  /* ---- both bindings counted ---- */

  const BOTH := [Confluence.Request(B1, 0), Confluence.Request(B2, 0)]

  lemma {:induction false} StepsDeleteNothing(bk: BindingKey, n: nat)
    ensures DeletesNothing(CounterSteps(bk, n))
  {
    if n > 0 { StepsDeleteNothing(bk, n - 1); }
  }

  lemma {:induction false} BatchDeletesNothing(rs: seq<Request>)
    ensures DeletesNothing(Batch(rs))
  {
    if rs != [] {
      BatchDeletesNothing(rs[..|rs| - 1]);
      StepsDeleteNothing(rs[|rs| - 1].bk, 4);
    }
  }

  /** Both bindings are bound to the config, and it counts two. */
  ghost predicate BoundTwice(s: System, finalizer: bool) {
    && Quiescent(s) && s.dirty == 0
    && StoredResource(s, X) == Some(Counted(NewConfig(finalizer), 2)) && Gap(s, X) == 0
    && IsBound(s.bindings, B1, X) && IsBound(s.bindings, B2, X)
    && Live(s, B1)
    && Stored(s, B1).value.status.boundPipelineConfigRef == "x" &&
       Stored(s, B1).value.status.boundCollectorGroupRef == ""
  }

  lemma ReadyIsExact(s: System, finalizer: bool)
    requires Ready(s, finalizer)
    ensures Gap(s, X) == 0
  {
    assert Bound(s.bindings, X) == {} && Moving(s.attempts, X, 1) == {} && Moving(s.attempts, X, -1) == {};
  }

  lemma BatchBindsBoth(cfg: Config, s: System, rs: seq<Request>, finalizer: bool)
    requires Quiescent(s) && Ready(s, finalizer) && Keys(rs) == {B1, B2}
    ensures BoundTwice(Run(cfg, s, Batch(rs)), finalizer)
  {
    forall i | 0 <= i < |rs| ensures Live(s, rs[i].bk) { assert rs[i].bk in Keys(rs); }
    BatchReconciles(cfg, s, rs);
    BothEndBound(s, Run(cfg, s, Batch(rs)), finalizer);
  }

  lemma BothEndBound(s: System, t: System, finalizer: bool)
    requires Ready(s, finalizer) && BatchDone(s, t, {B1, B2})
    ensures BoundTwice(t, finalizer)
  {
    assert Resolvable(s, B1) && Resolvable(s, B2);
    assert IsBound(t.bindings, B1, X) == EndsBound(s, {B1, B2}, B1, X);
    assert IsBound(t.bindings, B2, X) == EndsBound(s, {B1, B2}, B2, X);
    BoundOnlyToX(s, t);
    CountsBoth(s, t, finalizer);
  }

  lemma CountsBoth(s: System, t: System, finalizer: bool)
    requires Ready(s, finalizer) && BatchDone(s, t, {B1, B2})
    ensures StoredResource(t, X) == Some(Counted(NewConfig(finalizer), 2)) && Gap(t, X) == 0
  {
    ReadyIsExact(s, finalizer);
    ExpectedBoth(s, finalizer);
    DoneCounts(s, t, {B1, B2}, X);
    assert SameResource(s, t, X);
  }

  lemma ExpectedBoth(s: System, finalizer: bool)
    requires Ready(s, finalizer)
    ensures Expected(s, {B1, B2}, X) == {B1, B2}
  {
    assert Resolvable(s, B1) && Resolvable(s, B2);
  }

  lemma BoundOnlyToX(s: System, t: System)
    requires BatchDone(s, t, {B1, B2}) && Resolvable(s, B1) && Live(s, B1)
    requires Stored(s, B1).value.spec == TenantSpec("t1")
    ensures Stored(t, B1).value.status.boundPipelineConfigRef == "x" &&
              Stored(t, B1).value.status.boundCollectorGroupRef == ""
  {
    assert IsBound(t.bindings, B1, X) == EndsBound(s, {B1, B2}, B1, X);
    var g := GroupKey(B1, Stored(t, B1).value.status.boundCollectorGroupRef);
    assert IsBound(t.bindings, B1, g) == EndsBound(s, {B1, B2}, B1, g);
  }

  lemma BothBoundAfter(cfg: Config, es: seq<Event>, rs: seq<Request>, finalizer: bool)
    requires DeletesProtected(cfg, es) && Ready(Run(cfg, INITIAL, es), finalizer) && Keys(rs) == {B1, B2}
    ensures DeletesProtected(cfg, es + Batch(rs)) && BoundTwice(Run(cfg, INITIAL, es + Batch(rs)), finalizer)
  {
    WellFormedRun(cfg, es);
    BatchDeletesNothing(rs);
    ExtendMany(cfg, es, Batch(rs));
    BatchBindsBoth(cfg, Run(cfg, INITIAL, es), rs, finalizer);
  }

  lemma BothBound(cfg: Config, finalizer: bool)
    ensures var es := SetUp(finalizer) + Batch(BOTH);
            DeletesProtected(cfg, es) && BoundTwice(Run(cfg, INITIAL, es), finalizer)
  {
    SetUpIsReady(cfg, finalizer);
    assert Keys(BOTH) == {B1, B2} by {
      assert BOTH[0].bk in Keys(BOTH) && BOTH[1].bk in Keys(BOTH);
    }
    BothBoundAfter(cfg, SetUp(finalizer), BOTH, finalizer);
  }

  /** Without the finalizer premise: all attempts clean, yet a bound config is gone. */
  lemma UnprotectedDeleteDangles(cfg: Config)
    ensures var es := SetUp(false) + Batch(BOTH) + [DeleteResource(X)];
            var s := Run(cfg, INITIAL, es);
            EndsClean(cfg, es) && IsBound(s.bindings, B1, X) && !Exists(s, X)
  {
    BothBound(cfg, false);
    DanglesAfter(cfg, SetUp(false) + Batch(BOTH));
  }

  lemma DanglesAfter(cfg: Config, es: seq<Event>)
    requires BoundTwice(Run(cfg, INITIAL, es), false)
    ensures var s := Run(cfg, INITIAL, es + [DeleteResource(X)]);
            EndsClean(cfg, es + [DeleteResource(X)]) && IsBound(s.bindings, B1, X) && !Exists(s, X)
  {
    RunSnoc(cfg, INITIAL, es, DeleteResource(X));
  }

  predicate DriftsByTwo(s: System) { s.dirty == 0 && Exists(s, X) && Gap(s, X) == -2 }

  /** And if the name is created again, the new object starts at 0 while two bindings are bound to
      it: a name created while it is claimed is what the bound on drift excludes. */
  lemma RecreationDrifts(cfg: Config)
    ensures var es := SetUp(false) + Batch(BOTH) + [DeleteResource(X)] +
              [CreateResource(X, ConfigSpec("c", ""), false)];
            DriftsByTwo(Run(cfg, INITIAL, es))
  {
    BothBound(cfg, false);
    RecreatedAfter(cfg, SetUp(false) + Batch(BOTH), CreateResource(X, ConfigSpec("c", ""), false));
  }

  lemma RecreatedAfter(cfg: Config, es: seq<Event>, create: Event)
    requires BoundTwice(Run(cfg, INITIAL, es), false) && create == CreateResource(X, ConfigSpec("c", ""), false)
    ensures DriftsByTwo(Run(cfg, INITIAL, es + [DeleteResource(X)] + [create]))
  {
    RunSnoc(cfg, INITIAL, es, DeleteResource(X));
    RunSnoc(cfg, INITIAL, es + [DeleteResource(X)], create);
    Recreated(cfg, Run(cfg, INITIAL, es), create);
  }

  lemma Recreated(cfg: Config, s: System, create: Event)
    requires BoundTwice(s, false) && create == CreateResource(X, ConfigSpec("c", ""), false)
    ensures DriftsByTwo(Step(cfg, Step(cfg, s, DeleteResource(X)), create))
  {
    var t := Step(cfg, Step(cfg, s, DeleteResource(X)), create);
    assert t.bindings == s.bindings && t.attempts == s.attempts;
    assert ActiveBindings(t, X) == 0 && ActiveBindings(s, X) == 2;
    assert Gap(s, X) == 0;
  }

  /* ---- one unclean attempt ---- */

  predicate DriftsByOne(s: System) { s.dirty == 1 && Exists(s, X) && Gap(s, X) == 1 }

  /** The drift bound is attained: the final write of one attempt is rejected after its counter
      write has committed, and the counter is off by one. */
  lemma RejectedFinishDrifts(cfg: Config)
    ensures var es := SetUp(true) + ([Begin(B1, 0, At(0), At(0))] + CounterSteps(B1, 4) + [Finish(B1, 0, Rejected)]);
            DriftsByOne(Run(cfg, INITIAL, es))
  {
    SetUpIsReady(cfg, true);
    RejectedAfter(cfg, SetUp(true), Begin(B1, 0, At(0), At(0)), CounterSteps(B1, 4), Finish(B1, 0, Rejected), 4);
  }

  lemma RejectedAfter(cfg: Config, es: seq<Event>, begin: Event, moves: seq<Event>, finish: Event, n: nat)
    requires Ready(Run(cfg, INITIAL, es), true) && n >= 4
    requires begin == Begin(B1, 0, At(0), At(0)) && moves == CounterSteps(B1, n) && finish == Finish(B1, 0, Rejected)
    ensures DriftsByOne(Run(cfg, INITIAL, es + ([begin] + moves + [finish])))
  {
    var s := Run(cfg, INITIAL, es);
    WellFormedRun(cfg, es);
    RunConcat(cfg, INITIAL, es, [begin] + moves + [finish]);
    RunBracketed(cfg, s, begin, moves, finish);
    RejectedFrom(cfg, s, begin, n);
  }

  lemma RejectedFrom(cfg: Config, s: System, begin: Event, n: nat)
    requires Quiescent(s) && Ready(s, true) && begin == Begin(B1, 0, At(0), At(0)) && n >= 4
    ensures DriftsByOne(Step(cfg, Run(cfg, Step(cfg, s, begin), CounterSteps(B1, n)), Finish(B1, 0, Rejected)))
  {
    var final := MovedB1(cfg, s, begin, n);
    ReadyIsExact(s, true);
    RejectedDrift(cfg, s, Run(cfg, Step(cfg, s, begin), CounterSteps(B1, n)), final, n);
  }

  lemma MovedB1(cfg: Config, s: System, begin: Event, n: nat) returns (final: FinalWrite)
    requires Quiescent(s) && Ready(s, true) && begin == Begin(B1, 0, At(0), At(0))
    ensures final.Sync? && Underway(s, Run(cfg, Step(cfg, s, begin), CounterSteps(B1, n)), B1, final, n)
  {
    final := BegunB1(cfg, s);
    AllMoves(cfg, s, Step(cfg, s, begin), B1, final, n);
  }

  lemma BegunB1(cfg: Config, s: System) returns (final: FinalWrite)
    requires Quiescent(s) && Ready(s, true)
    ensures final.Sync? && HeadsFor(s, B1, final) && Underway(s, Step(cfg, s, Begin(B1, 0, At(0), At(0))), B1, final, 0)
  {
    final := ChooseFinal(s.resources, B1, Stored(s, B1).value, At(0), At(0));
    assert Resolvable(s, B1);
    Begins(cfg, s, B1);
  }

  lemma RejectedDrift(cfg: Config, s: System, u: System, final: FinalWrite, n: nat)
    requires Underway(s, u, B1, final, n) && final.Sync? && n >= 4
    requires Stored(s, B1) == Some(NewBinding("t1", true)) && Exists(s, X) && Gap(s, X) == 0 && s.dirty == 0
    ensures DriftsByOne(Step(cfg, u, Finish(B1, 0, Rejected)))
  {
    CountedAtX(s, u.attempts[B1], n);
    assert SameResource(s, u, X) && Gap(u, X) == 0;
    FinishEnds(cfg, u, B1, 0, Rejected);
    DriftOfFinish(cfg, u, B1, 0, Rejected, X);
    assert Committed(u.attempts[B1], X) == 1 by { assert MovedOk(B1, u.attempts[B1]); }
  }

  lemma CountedAtX(s: System, a: Attempt, n: nat)
    requires a.obj == NewBinding("t1", true) && a.final.Sync? && Exists(s, X) && n >= 4 && AllMovedSoFar(s, B1, a, n)
    ensures a.next == |Plan(B1, a)| && X in a.moved && Due(B1, a, X) == 1
  {
    assert Plan(B1, a)[2] == Some(Move(X, 1, false, false));
  }

  /* ---- a stale attempt ---- */

  const RELEASE := [DeleteBinding(B1), Begin(B1, 0, At(0), At(0)), MoveCounter(B1, 0, Healthy),
                    MoveCounter(B1, 0, Healthy), Finish(B1, 0, Healthy)]

  /** A second attempt for the deleted binding works from the cached last version. */
  const STALE := [Begin(B1, 1, At(0), At(0)), MoveCounter(B1, 0, Healthy)]

  lemma Releases(cfg: Config, s: System)
    requires BoundTwice(s, true)
    ensures var t := Step(cfg, Step(cfg, Step(cfg, Step(cfg, Step(cfg, s, RELEASE[0]), RELEASE[1]), RELEASE[2]),
                                    RELEASE[3]), RELEASE[4]);
            var h := BindingHistory(s.bindings, B1);
            var b := Latest(h).value;
            && t.attempts == map[] && t.dirty == 0
            && BindingHistory(t.bindings, B1) == h + [Some(b.(meta := Terminating(b.meta))), None]
            && BindingHistory(t.bindings, B2) == BindingHistory(s.bindings, B2)
            && StoredResource(t, X) == Some(Counted(NewConfig(true), 1))
  {
    var b := Latest(BindingHistory(s.bindings, B1)).value;
    var d := b.(meta := Terminating(b.meta));
    var s1 := DoDeleteBinding(s, B1);
    assert BindingHistory(s1.bindings, B1) == BindingHistory(s.bindings, B1) + [Some(d)];
    var s2 := DoBegin(s1, B1, 0, At(0), At(0));
    var a := Attempt(Version(BindingHistory(s1.bindings, B1)), d, RemoveFinalizer, 0, map[]);
    assert s2.attempts == map[B1 := a];
    ReleaseEnds(cfg, s2, a);
  }

  lemma ReleaseEnds(cfg: Config, s: System, a: Attempt)
    requires s.attempts == map[B1 := a] && s.dirty == 0 && StoredResource(s, X) == Some(Counted(NewConfig(true), 2))
    requires Stored(s, B1) == Some(a.obj) && a.version == Version(BindingHistory(s.bindings, B1))
    requires a.final == RemoveFinalizer && a.next == 0 && a.moved == map[] && a.obj.meta.deleting
    requires a.obj.status.boundPipelineConfigRef == "x" && a.obj.status.boundCollectorGroupRef == ""
    ensures var t := Step(cfg, Step(cfg, Step(cfg, s, RELEASE[2]), RELEASE[3]), RELEASE[4]);
            && t.attempts == map[] && t.dirty == 0
            && BindingHistory(t.bindings, B1) == BindingHistory(s.bindings, B1) + [None]
            && BindingHistory(t.bindings, B2) == BindingHistory(s.bindings, B2)
            && StoredResource(t, X) == Some(Counted(NewConfig(true), 1))
  {
    assert Plan(B1, a) == [Some(Move(X, -1, true, false)), None];
    var s3 := DoMoveCounter(s, B1, 0, Healthy);
    assert s3.attempts == map[B1 := a.(next := 1, moved := map[X := -1])];
    assert StoredResource(s3, X) == Some(Counted(NewConfig(true), 1));
    var s4 := DoMoveCounter(s3, B1, 0, Healthy);
    assert s4.attempts == map[B1 := a.(next := 2, moved := map[X := -1])] && s4.resources == s3.resources;
    var s5 := DoFinish(cfg, s4, B1, 0, Healthy);
    assert s5.attempts == map[];
  }

  /** Every attempt that has ended was clean and every deletion protected, yet a config that a
      stored binding is bound to is gone: an attempt in flight, begun from a stale version, has
      released the claim of another binding.  This is what own releases rule out. */
  lemma StaleAttemptBreaksDeleteSafety(cfg: Config)
    ensures var es := SetUp(true) + Batch(BOTH) + RELEASE + STALE +
              [DeleteResource(X), ReconcileResource(X, 0, Healthy)];
            var s := Run(cfg, INITIAL, es);
            && DeletesProtected(cfg, es) && s.dirty == 0
            && IsBound(s.bindings, B2, X) && B2 !in s.attempts && !Exists(s, X)
  {
    BothBound(cfg, true);
    StaleAfter(cfg, SetUp(true) + Batch(BOTH), RELEASE, STALE);
  }

  lemma StaleAfter(cfg: Config, es: seq<Event>, release: seq<Event>, stale: seq<Event>)
    requires DeletesProtected(cfg, es) && BoundTwice(Run(cfg, INITIAL, es), true)
    requires release == RELEASE && stale == STALE
    ensures var fs := es + release + stale + [DeleteResource(X), ReconcileResource(X, 0, Healthy)];
            var s := Run(cfg, INITIAL, fs);
            && DeletesProtected(cfg, fs) && s.dirty == 0
            && IsBound(s.bindings, B2, X) && B2 !in s.attempts && !Exists(s, X)
  {
    ExtendMany(cfg, es, release);
    ExtendMany(cfg, es + release, stale);
    ReleasedTwice(cfg, Run(cfg, INITIAL, es), release, stale);
    RemovedAfter(cfg, es + release + stale);
  }

  /** Two claims have been released although only one binding is gone. */
  ghost predicate Exposed(s: System) {
    && s.dirty == 0 && s.attempts.Keys == {B1}
    && IsBound(s.bindings, B2, X)
    && StoredResource(s, X) == Some(Counted(NewConfig(true), 0))
  }

  lemma ReleasedTwice(cfg: Config, s: System, release: seq<Event>, stale: seq<Event>)
    requires BoundTwice(s, true) && release == RELEASE && stale == STALE
    ensures Exposed(Run(cfg, Run(cfg, s, release), stale))
  {
    RunFive(cfg, s, release);
    Releases(cfg, s);
    var t := Run(cfg, s, release);
    RunTwo(cfg, t, stale[0], stale[1]);
    assert stale == [stale[0], stale[1]];
    SecondRelease(cfg, s, t);
  }

  lemma RemovedAfter(cfg: Config, es: seq<Event>)
    requires DeletesProtected(cfg, es) && Exposed(Run(cfg, INITIAL, es))
    ensures var fs := es + [DeleteResource(X), ReconcileResource(X, 0, Healthy)];
            var s := Run(cfg, INITIAL, fs);
            && DeletesProtected(cfg, fs) && s.dirty == 0
            && IsBound(s.bindings, B2, X) && B2 !in s.attempts && !Exists(s, X)
  {
    Removes(cfg, Run(cfg, INITIAL, es));
    Extend(cfg, es, DeleteResource(X));
    Extend(cfg, es + [DeleteResource(X)], ReconcileResource(X, 0, Healthy));
    assert es + [DeleteResource(X)] + [ReconcileResource(X, 0, Healthy)] ==
        es + [DeleteResource(X), ReconcileResource(X, 0, Healthy)];
  }

  lemma Removes(cfg: Config, s: System)
    requires Exposed(s)
    ensures ProtectedDelete(s, DeleteResource(X))
    ensures var t := Step(cfg, Step(cfg, s, DeleteResource(X)), ReconcileResource(X, 0, Healthy));
            t.dirty == 0 && IsBound(t.bindings, B2, X) && B2 !in t.attempts && !Exists(t, X)
  {
    var t := DoDeleteResource(s, X);
    assert StoredResource(t, X).value.meta.deleting && StoredResource(t, X).value.status.activeBindings == 0;
  }

  lemma RunFive(cfg: Config, s: System, es: seq<Event>)
    requires |es| == 5
    ensures Run(cfg, s, es) == Step(cfg, Step(cfg, Step(cfg, Step(cfg, Step(cfg, s, es[0]), es[1]), es[2]), es[3]),
                                    es[4])
  {
    assert es == [] + [es[0]] + [es[1]] + [es[2]] + [es[3]] + [es[4]];
    RunSnoc(cfg, s, [], es[0]);
    RunSnoc(cfg, s, [] + [es[0]], es[1]);
    RunSnoc(cfg, s, [] + [es[0]] + [es[1]], es[2]);
    RunSnoc(cfg, s, [] + [es[0]] + [es[1]] + [es[2]], es[3]);
    RunSnoc(cfg, s, [] + [es[0]] + [es[1]] + [es[2]] + [es[3]], es[4]);
  }

  lemma SecondRelease(cfg: Config, s: System, t: System)
    requires BoundTwice(s, true) && t.attempts == map[] && t.dirty == 0
    requires var h := BindingHistory(s.bindings, B1);
             BindingHistory(t.bindings, B1) ==
               h + [Some(Latest(h).value.(meta := Terminating(Latest(h).value.meta))), None]
    requires StoredResource(t, X) == Some(Counted(NewConfig(true), 1))
    ensures var u := Step(cfg, Step(cfg, t, STALE[0]), STALE[1]);
            && u.dirty == 0 && u.bindings == t.bindings && u.attempts.Keys == {B1}
            && StoredResource(u, X) == Some(Counted(NewConfig(true), 0))
  {
    var b := Latest(BindingHistory(s.bindings, B1)).value;
    var d := b.(meta := Terminating(b.meta));
    var t1 := DoBegin(t, B1, 1, At(0), At(0));
    var a := Attempt(Version(BindingHistory(t.bindings, B1)) - 1, d, RemoveFinalizer, 0, map[]);
    assert t1.attempts == map[B1 := a];
    assert Plan(B1, a) == [Some(Move(X, -1, true, false)), None];
    var t2 := DoMoveCounter(t1, B1, 0, Healthy);
    assert t2.attempts == map[B1 := a.(next := 1, moved := map[X := -1])];
  }
}
