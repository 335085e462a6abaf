/** The reconcilers in the form the program has: methods that read an object, edit it field by
    field and write it back.  Each is proved to do exactly what the state machine of `Protocol`
    does; a whole binding reconcile is an uninterrupted run of its attempt. */
module Controllers {
  import opened Api
  import opened Histories
  import opened Tenants
  import opened MergePatch
  import opened Protocol
  import opened Invariants
  import opened Eviction

  /** The store.  A write returns whether an error came back to the caller, which a lost reply
      makes it do although the write has been stored. */
  class ApiServer {
    var resources: Resources
    var bindings: Bindings

    constructor ()
      ensures resources == map[] && bindings == map[] && Valid()
    {
      resources, bindings := map[], map[];
    }

    /** PipelineConfigs and CollectorGroups are stored under keys of their kind. */
    ghost predicate Valid()
      reads this`resources
    {
      forall k :: KindOk(k, ResourceHistory(resources, k))
    }

    ghost function State(): System
      reads this
    {
      System(resources, bindings, map[], 0)
    }

    /** `Update` and `Status().Update`: what comes of one is `Outcome`, and no other object changes. */
    method UpdateResource(k: ResourceKey, version: nat, r: Resource, fault: Fault) returns (err: WriteError)
      requires Valid() && SpecOfKind(k.kind, r.spec)
      modifies this`resources
      ensures Valid()
      ensures resources == old(resources)[k := ResourceHistory(resources, k)]
      ensures Outcome(ResourceHistory(old(resources), k), ResourceHistory(resources, k), version, AdmitResource(r),
                      fault, err)
    {
      var h := ResourceHistory(resources, k);
      if fault.Rejected? {
        err := OtherError;
      } else if Latest(h).None? {
        err := NotFoundError;
      } else if version != Version(h) {
        err := OtherError;
      } else {
        h := Commit(h, AdmitResource(r));
        err := if fault.ReplyLost? then OtherError else NoError;
      }
      assert KindOk(k, ResourceHistory(resources, k));
      resources := resources[k := h];
      forall x ensures KindOk(x, ResourceHistory(resources, x)) {
        assert x != k ==> ResourceHistory(resources, x) == ResourceHistory(old(resources), x);
      }
    }

    method UpdateBinding(bk: BindingKey, version: nat, b: Binding, fault: Fault) returns (err: WriteError)
      modifies this`bindings
      ensures bindings == old(bindings)[bk := BindingHistory(bindings, bk)]
      ensures Outcome(BindingHistory(old(bindings), bk), BindingHistory(bindings, bk), version, AdmitBinding(b),
                      fault, err)
    {
      var h := BindingHistory(bindings, bk);
      if fault.Rejected? {
        err := OtherError;
      } else if Latest(h).None? {
        err := NotFoundError;
      } else if version != Version(h) {
        err := OtherError;
      } else {
        h := Commit(h, AdmitBinding(b));
        err := if fault.ReplyLost? then OtherError else NoError;
      }
      bindings := bindings[bk := h];
    }

    /** A write that is computed from a version which has been read is a compare-and-swap. */
    method WriteResource(k: ResourceKey, version: nat, r: Resource, fault: Fault) returns (err: bool)
      requires Valid() && SpecOfKind(k.kind, r.spec)
      requires version < |ResourceHistory(resources, k)| && ResourceHistory(resources, k)[version].Some?
      modifies this`resources
      ensures Valid()
      ensures var h := ResourceHistory(old(resources), k);
              && resources == old(resources)[k := CompareAndSwap(h, version, AdmitResource(r), fault)]
              && (err <==> !Accepts(h, version, fault))
    {
      ghost var h := ResourceHistory(resources, k);
      var answer := UpdateResource(k, version, r, fault);
      OnlyOutcome(h, ResourceHistory(resources, k), version, AdmitResource(r), fault, answer);
      err := !answer.NoError?;
    }

    method WriteBinding(bk: BindingKey, version: nat, b: Binding, fault: Fault) returns (err: bool)
      requires version < |BindingHistory(bindings, bk)| && BindingHistory(bindings, bk)[version].Some?
      modifies this`bindings
      ensures var h := BindingHistory(old(bindings), bk);
              && bindings == SwapBinding(old(bindings), bk, version, b, fault)
              && (err <==> !Accepts(h, version, fault))
    {
      ghost var h := BindingHistory(bindings, bk);
      var answer := UpdateBinding(bk, version, b, fault);
      OnlyOutcome(h, BindingHistory(bindings, bk), version, AdmitBinding(b), fault, answer);
      err := !answer.NoError?;
    }

    method PatchBindingStatus(bk: BindingKey, base: Binding, modified: Binding, reply: PatchReply)
        returns (err: PatchError)
      modifies this`bindings
      ensures bindings == PatchedBindings(old(bindings), bk, base, modified, reply)
      ensures err == PatchErrorOf(old(bindings), bk, reply)
    {
      err := PatchErrorOf(bindings, bk, reply);
      bindings := PatchedBindings(bindings, bk, base, modified, reply);
    }
  }

  function PatchedBindings(bindings: Bindings, bk: BindingKey, base: Binding, modified: Binding, reply: PatchReply)
    : Bindings
  {
    if reply.Accepted? || reply.AnswerLost?
    then bindings[bk := PatchStatus(BindingHistory(bindings, bk), base, modified)]
    else bindings
  }

  function PatchErrorOf(bindings: Bindings, bk: BindingKey, reply: PatchReply): PatchError {
    if reply.Conflict? then ConflictError
    else if reply.Accepted? && Latest(BindingHistory(bindings, bk)).Some? then NoPatchError
    else OtherPatchError
  }

  /** How the server answers a patch; a conflict or a refusal stores nothing. */
  datatype PatchReply = Accepted | Conflict | Refused | AnswerLost

  datatype PatchError = NoPatchError | ConflictError | OtherPatchError

  /** The bindings after a write of `b` that was computed from this version. */
  function SwapBinding(bindings: Bindings, bk: BindingKey, version: nat, b: Binding, fault: Fault): Bindings {
    bindings[bk := CompareAndSwap(BindingHistory(bindings, bk), version, AdmitBinding(b), fault)]
  }

  /** A write based on this version is answered without an error. */
  predicate Accepts<T(==)>(h: History<T>, version: nat, fault: Fault) {
    version == Version(h) && fault.Healthy?
  }

  class PipelineConfigReconciler {
    const api: ApiServer
    const cfg: Config

    constructor (api: ApiServer, cfg: Config)
      ensures this.api == api && this.cfg == cfg
    {
      this.api, this.cfg := api, cfg;
    }

    /** `requeue` asks for another look while bindings are active. */
    method Reconcile(k: ResourceKey, lag: nat, fault: Fault) returns (requeue: bool, err: bool)
      requires k.kind.PipelineConfig? && api.Valid()
      modifies api`resources
      ensures api.resources == Step(cfg, old(api.State()), ReconcileResource(k, lag, fault)).resources
      ensures api.Valid()
      ensures var r := ReadAt(ResourceHistory(old(api.resources), k), lag);
              requeue <==> r.Some? && r.value.meta.deleting && r.value.status.activeBindings > 0
      ensures var h := ResourceHistory(old(api.resources), k);
              err <==> ReadAt(h, lag).Some? && !requeue && !Accepts(h, ReadVersion(h, lag), fault)
    {
      var h := ResourceHistory(api.resources, k);
      var version := ReadVersion(h, lag);
      if h[version].None? { return false, false; }
      var pc := h[version].value;
      if pc.meta.deleting {
        if pc.status.activeBindings > 0 { return true, false; }
        pc := pc.(meta := pc.meta.(finalizer := false));
        err := api.WriteResource(k, version, pc, fault);
        return false, err;
      }
      if !pc.meta.finalizer {
        pc := pc.(meta := pc.meta.(finalizer := true));
        err := api.WriteResource(k, version, pc, fault);
        return false, err;
      }
      if pc.spec.content == "" {
        var c := Condition(CONTENT_VALID, ConditionFalse, "EmptyContent", pc.meta.generation);
        pc := pc.(status := pc.status.(conditions := SetCondition(pc.status.conditions, c)));
        pc := pc.(status := pc.status.(observedGeneration := pc.meta.generation));
        err := api.WriteResource(k, version, pc, fault);
        return false, err;
      }
      var digest := cfg.hash(pc.spec.content);
      if pc.status.contentHash != digest {
        pc := pc.(status := pc.status.(contentHash := digest));
      }
      var c := Condition(CONTENT_VALID, ConditionTrue, "ContentValid", pc.meta.generation);
      pc := pc.(status := pc.status.(conditions := SetCondition(pc.status.conditions, c)));
      pc := pc.(status := pc.status.(observedGeneration := pc.meta.generation));
      err := api.WriteResource(k, version, pc, fault);
      requeue := false;
    }
  }

  class CollectorGroupReconciler {
    const api: ApiServer
    const cfg: Config

    constructor (api: ApiServer, cfg: Config)
      ensures this.api == api && this.cfg == cfg
    {
      this.api, this.cfg := api, cfg;
    }

    method Reconcile(k: ResourceKey, lag: nat, fault: Fault) returns (requeue: bool, err: bool)
      requires k.kind.CollectorGroup? && api.Valid()
      modifies api`resources
      ensures api.resources == Step(cfg, old(api.State()), ReconcileResource(k, lag, fault)).resources
      ensures api.Valid()
      ensures var r := ReadAt(ResourceHistory(old(api.resources), k), lag);
              requeue <==> r.Some? && r.value.meta.deleting && r.value.status.activeBindings > 0
      ensures var h := ResourceHistory(old(api.resources), k);
              err <==> ReadAt(h, lag).Some? && !requeue && !Accepts(h, ReadVersion(h, lag), fault)
    {
      var h := ResourceHistory(api.resources, k);
      var version := ReadVersion(h, lag);
      if h[version].None? { return false, false; }
      var cg := h[version].value;
      if cg.meta.deleting {
        if cg.status.activeBindings > 0 { return true, false; }
        cg := cg.(meta := cg.meta.(finalizer := false));
        err := api.WriteResource(k, version, cg, fault);
        return false, err;
      }
      if !cg.meta.finalizer {
        cg := cg.(meta := cg.meta.(finalizer := true));
        err := api.WriteResource(k, version, cg, fault);
        return false, err;
      }
      cg := cg.(status := cg.status.(observedGeneration := cg.meta.generation));
      err := api.WriteResource(k, version, cg, fault);
      requeue := false;
    }
  }

  /* ---- the binding reconciler ---- */

  /** Every environment choice of one reconcile call. */
  datatype Request = Request(lag: nat, fault: Fault)
  datatype Schedule = Schedule(lag: nat, config: Lookup, group: Lookup,
                               decConfig: Request, decGroup: Request, incConfig: Request, incGroup: Request,
                               now: int, fault: Fault)

  function Requests(io: Schedule): seq<Request> { [io.decConfig, io.decGroup, io.incConfig, io.incGroup] }

  function CounterEvents(bk: BindingKey, rs: seq<Request>): seq<Event> {
    if rs == [] then [] else [MoveCounter(bk, rs[0].lag, rs[0].fault)] + CounterEvents(bk, rs[1..])
  }

  /** The events of one attempt with nothing in between. */
  function AttemptEvents(bk: BindingKey, io: Schedule): seq<Event> {
    [Begin(bk, io.lag, io.config, io.group)] + CounterEvents(bk, Requests(io)) + [Finish(bk, io.now, io.fault)]
  }

  function MovesOf(s: System, bk: BindingKey, rs: seq<Request>): System
    decreases rs
  {
    if rs == [] then s else MovesOf(DoMoveCounter(s, bk, rs[0].lag, rs[0].fault), bk, rs[1..])
  }

  lemma {:induction false} MovesRun(cfg: Config, s: System, bk: BindingKey, rs: seq<Request>)
    ensures Run(cfg, s, CounterEvents(bk, rs)) == MovesOf(s, bk, rs)
    decreases rs
  {
    if rs != [] {
      var e := MoveCounter(bk, rs[0].lag, rs[0].fault);
      RunConcat(cfg, s, [e], CounterEvents(bk, rs[1..]));
      assert [e][..0] == [];
      assert Run(cfg, s, [e]) == Step(cfg, s, e);
      MovesRun(cfg, Step(cfg, s, e), bk, rs[1..]);
    }
  }

  lemma AttemptRuns(cfg: Config, s: System, bk: BindingKey, io: Schedule)
    ensures Run(cfg, s, AttemptEvents(bk, io))
         == DoFinish(cfg, MovesOf(DoBegin(s, bk, io.lag, io.config, io.group), bk, Requests(io)), bk, io.now, io.fault)
  {
    var begin := Begin(bk, io.lag, io.config, io.group);
    RunBracketed(cfg, s, begin, CounterEvents(bk, Requests(io)), Finish(bk, io.now, io.fault));
    MovesRun(cfg, Step(cfg, s, begin), bk, Requests(io));
  }

  /** What the increment and decrement helpers return. */
  function WriteResult(resources: Resources, k: ResourceKey, r: Request): WriteError {
    var h := ResourceHistory(resources, k);
    if r.fault.Rejected? then OtherError
    else if ReadAt(h, r.lag).None? then NotFoundError
    else if Latest(h).None? then NotFoundError
    else if ReadVersion(h, r.lag) != Version(h) || r.fault.ReplyLost? then OtherError
    else NoError
  }

  /** What they leave stored. */
  function WriteEffect(resources: Resources, k: ResourceKey, delta: int, r: Request): Resources {
    var h := ResourceHistory(resources, k);
    if r.fault.Rejected? || ReadAt(h, r.lag).None? || ReadVersion(h, r.lag) != Version(h) then resources
    else resources[k := Commit(h, AdmitResource(Counted(ReadAt(h, r.lag).value, delta)))]
  }

  predicate Tolerates(m: Move, e: WriteError) {
    e.NoError? || (e.NotFoundError? && m.toleratesMissing) || (e.OtherError? && m.toleratesErrors)
  }

  lemma AdvanceIsWrite(s: System, bk: BindingKey, step: Option<Move>, r: Request)
    requires bk in s.attempts
    ensures var a, s' := s.attempts[bk], Advance(s, bk, s.attempts[bk], step, r.lag, r.fault);
            && s'.bindings == s.bindings
            && s'.resources == (if step.Some? then WriteEffect(s.resources, step.value.target, step.value.delta, r)
                                else s.resources)
            && (bk in s'.attempts <==>
                 step.None? || Tolerates(step.value, WriteResult(s.resources, step.value.target, r)))
            && (bk in s'.attempts ==> s'.attempts[bk] == a.(next := a.next + 1, moved := s'.attempts[bk].moved))
  {
  }

  /** One counter step of the machine is one call of a helper. */
  lemma StepIsWrite(s: System, bk: BindingKey, r: Request)
    requires bk in s.attempts && s.attempts[bk].next < |Plan(bk, s.attempts[bk])|
    ensures var a, s' := s.attempts[bk], DoMoveCounter(s, bk, r.lag, r.fault);
            var step := Plan(bk, a)[a.next];
            && s'.bindings == s.bindings
            && s'.resources == (if step.Some? then WriteEffect(s.resources, step.value.target, step.value.delta, r)
                                else s.resources)
            && (bk in s'.attempts <==>
                 step.None? || Tolerates(step.value, WriteResult(s.resources, step.value.target, r)))
            && (bk in s'.attempts ==> s'.attempts[bk] == a.(next := a.next + 1, moved := s'.attempts[bk].moved))
  {
    AdvanceIsWrite(s, bk, Plan(bk, s.attempts[bk])[s.attempts[bk].next], r);
  }

  /** The attempt has found its references and means to sync. */
  predicate HeadsForSync(s: System, bk: BindingKey, io: Schedule) {
    var read := ReadAt(BindingHistory(s.bindings, bk), io.lag);
    read.Some? && ChooseFinal(s.resources, bk, read.value, io.config, io.group).Sync?
  }

  /** The reconcile finds its binding, but a reference does not resolve, or a counter write has ended
      the attempt, or the final write is not accepted. */
  predicate Fails(cfg: Config, s: System, bk: BindingKey, io: Schedule) {
    var h := BindingHistory(s.bindings, bk);
    && ReadAt(h, io.lag).Some?
    && (|| ChooseFinal(s.resources, bk, ReadAt(h, io.lag).value, io.config, io.group).MarkInvalid?
        || bk !in MovesOf(DoBegin(s, bk, io.lag, io.config, io.group), bk, Requests(io)).attempts
        || !Accepts(h, ReadVersion(h, io.lag), io.fault))
  }

  /** The binding once `validateRefs` has found both references. */
  function RefsResolved(b: Binding): Binding {
    var c := Condition(REFS_VALID, ConditionTrue, "RefsResolved", b.meta.generation);
    b.(status := b.status.(conditions := SetCondition(b.status.conditions, c)))
  }

  datatype Effect = Effect(resources: Resources, err: bool)

  function StepEffect(resources: Resources, step: Option<Move>, r: Request): Effect {
    if step.None? then Effect(resources, false)
    else Effect(WriteEffect(resources, step.value.target, step.value.delta, r),
                !Tolerates(step.value, WriteResult(resources, step.value.target, r)))
  }

  /** Carrying out a plan write by write, until one error is not tolerated. */
  function PlanEffect(resources: Resources, plan: seq<Option<Move>>, rs: seq<Request>): Effect
    requires |plan| <= |rs|
  {
    if plan == [] then Effect(resources, false)
    else
      var e := StepEffect(resources, plan[0], rs[0]);
      if e.err then e else PlanEffect(e.resources, plan[1..], rs[1..])
  }

  lemma {:induction false} NoMoreMoves(s: System, bk: BindingKey, rs: seq<Request>)
    requires bk in s.attempts ==> s.attempts[bk].next >= |Plan(bk, s.attempts[bk])|
    ensures MovesOf(s, bk, rs) == s
  {
    if rs != [] { NoMoreMoves(s, bk, rs[1..]); }
  }

  /** The counter steps of an attempt carry out the rest of its plan. */
  lemma {:induction false} MovesCarryOutPlan(s: System, bk: BindingKey, rs: seq<Request>)
    requires bk in s.attempts && s.attempts[bk].next <= |Plan(bk, s.attempts[bk])| <= s.attempts[bk].next + |rs|
    ensures var a, s' := s.attempts[bk], MovesOf(s, bk, rs);
            && s'.bindings == s.bindings
            && PlanEffect(s.resources, Plan(bk, a)[a.next..], rs) == Effect(s'.resources, bk !in s'.attempts)
            && (bk in s'.attempts ==> s'.attempts[bk] == a.(next := |Plan(bk, a)|, moved := s'.attempts[bk].moved))
    decreases |rs|
  {
    var a := s.attempts[bk];
    var p := Plan(bk, a);
    if a.next == |p| {
      NoMoreMoves(s, bk, rs);
    } else {
      StepIsWrite(s, bk, rs[0]);
      var s1 := DoMoveCounter(s, bk, rs[0].lag, rs[0].fault);
      assert p[a.next..][0] == p[a.next] && p[a.next..][1..] == p[a.next + 1..];
      if bk in s1.attempts {
        assert Plan(bk, s1.attempts[bk]) == p;
        MovesCarryOutPlan(s1, bk, rs[1..]);
      } else {
        NoMoreMoves(s1, bk, rs[1..]);
      }
    }
  }

  lemma PlanEffectCons(resources: Resources, plan: seq<Option<Move>>, rs: seq<Request>, i: nat)
    requires i < |plan| <= |rs|
    ensures var e := StepEffect(resources, plan[i], rs[i]);
            PlanEffect(resources, plan[i..], rs[i..]) ==
              if e.err then e else PlanEffect(e.resources, plan[i + 1..], rs[i + 1..])
  {
    assert plan[i..][1..] == plan[i + 1..] && rs[i..][1..] == rs[i + 1..];
  }

  lemma PlanOfFour(resources: Resources, plan: seq<Option<Move>>, rs: seq<Request>)
    requires |plan| == 4 <= |rs|
    ensures var e0 := StepEffect(resources, plan[0], rs[0]);
            var e1 := StepEffect(e0.resources, plan[1], rs[1]);
            var e2 := StepEffect(e1.resources, plan[2], rs[2]);
            PlanEffect(resources, plan, rs) ==
              if e0.err then e0 else if e1.err then e1 else if e2.err then e2
              else StepEffect(e2.resources, plan[3], rs[3])
  {
    var e0 := StepEffect(resources, plan[0], rs[0]);
    var e1 := StepEffect(e0.resources, plan[1], rs[1]);
    var e2 := StepEffect(e1.resources, plan[2], rs[2]);
    assert plan[0..] == plan && rs[0..] == rs && plan[4..] == [];
    PlanEffectCons(resources, plan, rs, 0);
    PlanEffectCons(e0.resources, plan, rs, 1);
    PlanEffectCons(e1.resources, plan, rs, 2);
    PlanEffectCons(e2.resources, plan, rs, 3);
  }

  /** What the helpers return: NotFound if the resource is not seen or is gone by then, and no error
      exactly for a healthy write on the stored version. */
  lemma WriteErrorMeans(resources: Resources, k: ResourceKey, r: Request)
    ensures var h, err := ResourceHistory(resources, k), WriteResult(resources, k, r);
            && (err.NotFoundError? <==> !r.fault.Rejected? && (ReadAt(h, r.lag).None? || Latest(h).None?))
            && (err.NoError? <==> ReadAt(h, r.lag).Some? && ReadVersion(h, r.lag) == Version(h) && r.fault.Healthy?)
  {
  }

  class CollectorGroupBindingReconciler {
    const api: ApiServer
    const cfg: Config

    constructor (api: ApiServer, cfg: Config)
      ensures this.api == api && this.cfg == cfg
    {
      this.api, this.cfg := api, cfg;
    }

    /** The four increment and decrement helpers differ in kind and sign only. */
    method AddActiveBindings(k: ResourceKey, delta: int, r: Request) returns (err: WriteError)
      requires api.Valid()
      modifies api`resources
      ensures api.Valid()
      ensures err == WriteResult(old(api.resources), k, r)
      ensures api.resources == WriteEffect(old(api.resources), k, delta, r)
    {
      if r.fault.Rejected? { return OtherError; }
      var h := ResourceHistory(api.resources, k);
      var version := ReadVersion(h, r.lag);
      if h[version].None? { return NotFoundError; }
      var obj := h[version].value;
      obj := obj.(status := obj.status.(activeBindings := obj.status.activeBindings + delta));
      err := api.UpdateResource(k, version, obj, r.fault);
      OnlyOutcome(h, ResourceHistory(api.resources, k), version, AdmitResource(obj), r.fault, err);
    }

    /** `manageCounters`: errors while releasing are logged only, errors while claiming abort. */
    method ManageCounters(bk: BindingKey, b: Binding, io: Schedule) returns (err: bool)
      requires api.Valid()
      modifies api`resources
      ensures api.Valid()
      ensures Effect(api.resources, err) == PlanEffect(old(api.resources), RebindPlan(bk, b), Requests(io))
    {
      var prevPC, newPC := b.status.boundPipelineConfigRef, b.spec.pipelineConfigRef;
      var prevCG, newCG := b.status.boundCollectorGroupRef, b.spec.collectorGroupRef;
      ghost var p, rs := RebindPlan(bk, b), Requests(io);
      PlanOfFour(api.resources, p, rs);
      if prevPC != "" && prevPC != newPC {
        var _ := AddActiveBindings(ConfigKey(bk, prevPC), -1, io.decConfig);
      }
      if prevCG != "" && prevCG != newCG {
        var _ := AddActiveBindings(GroupKey(bk, prevCG), -1, io.decGroup);
      }
      if prevPC != newPC {
        var e := AddActiveBindings(ConfigKey(bk, newPC), 1, io.incConfig);
        if !e.NoError? { return true; }
      }
      if prevCG != newCG && newCG != "" {
        var e := AddActiveBindings(GroupKey(bk, newCG), 1, io.incGroup);
        if !e.NoError? { return true; }
      }
      err := false;
    }

    /** `handleDeletion`: release both references, skipping what is gone, then strip the finalizer. */
    method HandleDeletion(bk: BindingKey, version: nat, b: Binding, io: Schedule) returns (err: bool)
      requires version < |BindingHistory(api.bindings, bk)| && BindingHistory(api.bindings, bk)[version].Some?
      requires api.Valid()
      modifies api
      ensures api.Valid()
      ensures var e := PlanEffect(old(api.resources), ReleasePlan(bk, b), Requests(io));
              && api.resources == e.resources
              && var released := b.(meta := b.meta.(finalizer := false));
              && api.bindings == (if e.err then old(api.bindings)
                                  else SwapBinding(old(api.bindings), bk, version, released, io.fault))
              && (err <==> e.err || !Accepts(BindingHistory(old(api.bindings), bk), version, io.fault))
    {
      ghost var p, rs := ReleasePlan(bk, b), Requests(io);
      assert p[0..] == p && rs[0..] == rs && p[2..] == [];
      PlanEffectCons(api.resources, p, rs, 0);
      var prevPC := b.status.boundPipelineConfigRef;
      if prevPC != "" {
        var e := AddActiveBindings(ConfigKey(bk, prevPC), -1, io.decConfig);
        if e.OtherError? { return true; }
      }
      PlanEffectCons(api.resources, p, rs, 1);
      var prevCG := b.status.boundCollectorGroupRef;
      if prevCG != "" {
        var e := AddActiveBindings(GroupKey(bk, prevCG), -1, io.decGroup);
        if e.OtherError? { return true; }
      }
      err := api.WriteBinding(bk, version, b.(meta := b.meta.(finalizer := false)), io.fault);
    }

    /** `setRefsInvalid`: the outcome of the write is logged only. */
    method SetRefsInvalid(bk: BindingKey, version: nat, obj: Binding, reason: string, fault: Fault)
      requires version < |BindingHistory(api.bindings, bk)| && BindingHistory(api.bindings, bk)[version].Some?
      modifies api`bindings
      ensures var invalid := FinalObject(cfg, Attempt(version, obj, MarkInvalid(reason), 0, map[]), 0);
              api.bindings == SwapBinding(old(api.bindings), bk, version, invalid, fault)
    {
      var b := obj;
      var c := Condition(REFS_VALID, ConditionFalse, reason, b.meta.generation);
      b := b.(status := b.status.(conditions := SetCondition(b.status.conditions, c)));
      b := b.(status := b.status.(phase := DerivePhase(b.status.conditions)));
      b := b.(status := b.status.(observedGeneration := b.meta.generation));
      var _ := api.WriteBinding(bk, version, b, fault);
    }

    /** `evictStaleTenants`, on the backing array of the slice. */
    method EvictStaleTenants(ts: seq<Tenant>, now: int) returns (kept: seq<Tenant>, evicted: nat)
      ensures kept == Evict(ts, cfg.ttl, now)
      ensures evicted == |ts| - |kept|
    {
      var backing := new Tenant[|ts|](i requires 0 <= i < |ts| => ts[i]);
      assert backing[..|ts|] == ts;
      var n;
      n, evicted := EvictInPlace(backing, |ts|, cfg.ttl, now);
      kept := backing[..n];
    }

    /** `validateRefs`: both references must resolve; otherwise the binding is marked invalid. */
    method ValidateRefs(bk: BindingKey, version: nat, obj: Binding, io: Schedule)
        returns (valid: bool, configHash: string, b: Binding)
      requires obj.meta.finalizer && !obj.meta.deleting
      requires version < |BindingHistory(api.bindings, bk)| && BindingHistory(api.bindings, bk)[version].Some?
      modifies api`bindings
      ensures match ChooseFinal(api.resources, bk, obj, io.config, io.group)
              case Sync(hash) =>
                && valid && configHash == hash && api.bindings == old(api.bindings)
                && b == RefsResolved(obj)
              case MarkInvalid(reason) =>
                && !valid
                && var invalid := FinalObject(cfg, Attempt(version, obj, MarkInvalid(reason), 0, map[]), 0);
                && api.bindings == SwapBinding(old(api.bindings), bk, version, invalid, io.fault)
              case _ => false
    {
      b, configHash := obj, "";
      var pc := Lookups(api.resources, ConfigKey(bk, b.spec.pipelineConfigRef), io.config);
      if pc.None? {
        var reason := if io.config.At? then "PipelineConfigNotFound" else "PipelineConfigFetchError";
        SetRefsInvalid(bk, version, b, reason, io.fault);
        valid := false;
        return;
      }
      if b.spec.collectorGroupRef != "" {
        var cg := Lookups(api.resources, GroupKey(bk, b.spec.collectorGroupRef), io.group);
        if cg.None? {
          var reason := if io.group.At? then "CollectorGroupNotFound" else "CollectorGroupFetchError";
          SetRefsInvalid(bk, version, b, reason, io.fault);
          valid := false;
          return;
        }
      }
      var c := Condition(REFS_VALID, ConditionTrue, "RefsResolved", b.meta.generation);
      b := b.(status := b.status.(conditions := SetCondition(b.status.conditions, c)));
      valid, configHash := true, pc.value.status.contentHash;
    }

    /** The last steps of a successful reconcile: evict, fill in the status and write it back. */
    method SyncStatus(bk: BindingKey, version: nat, obj: Binding, configHash: string, now: int, fault: Fault,
                      ghost a: Attempt)
      returns (requeueAfter: nat, err: bool)
      requires a.final == Sync(configHash) && obj.meta.finalizer
      requires obj == RefsResolved(a.obj)
      requires version < |BindingHistory(api.bindings, bk)| && BindingHistory(api.bindings, bk)[version].Some?
      modifies api`bindings
      ensures var h := BindingHistory(old(api.bindings), bk);
              && api.bindings == SwapBinding(old(api.bindings), bk, version, FinalObject(cfg, a, now), fault)
              && (err <==> !Accepts(h, version, fault))
      ensures requeueAfter == if err then 0 else RequeueAfter(cfg.ttl, TenantsOf(api.bindings, bk))
    {
      var b := obj;
      var kept, _ := EvictStaleTenants(b.status.registeredTenants, now);
      b := b.(status := b.status.(registeredTenants := kept));
      b := b.(status := b.status.(boundPipelineConfigRef := b.spec.pipelineConfigRef));
      b := b.(status := b.status.(boundCollectorGroupRef := b.spec.collectorGroupRef));
      b := b.(status := b.status.(configHash := configHash));
      b := b.(status := b.status.(lastSyncedAt := now));
      b := b.(status := b.status.(phase := DerivePhase(b.status.conditions)));
      b := b.(status := b.status.(observedGeneration := b.meta.generation));
      err := api.WriteBinding(bk, version, b, fault);
      if err { return 0, true; }
      requeueAfter := if cfg.ttl > 0 && |b.status.registeredTenants| > 0 then cfg.ttl / 2 else 0;
    }

    /** One reconcile of a binding is exactly one uninterrupted attempt of the state machine: same
        reads, same writes, same order, same early exits.  It returns an error exactly if a reference
        does not resolve, a counter write ends the attempt, or the final write is not accepted. */
    method Reconcile(bk: BindingKey, io: Schedule) returns (requeueAfter: nat, err: bool)
      requires api.Valid()
      modifies api
      ensures api.Valid()
      ensures var after := Run(cfg, old(api.State()), AttemptEvents(bk, io));
              api.resources == after.resources && api.bindings == after.bindings
      ensures err <==> Fails(cfg, old(api.State()), bk, io)
      ensures requeueAfter == if !err && HeadsForSync(old(api.State()), bk, io)
                              then RequeueAfter(cfg.ttl, TenantsOf(api.bindings, bk)) else 0
    {
      ghost var s0 := api.State();
      ghost var s := DoBegin(s0, bk, io.lag, io.config, io.group);
      ghost var rs := Requests(io);
      AttemptRuns(cfg, s0, bk, io);
      var h := BindingHistory(api.bindings, bk);
      var version := ReadVersion(h, io.lag);
      if h[version].None? {
        NoMoreMoves(s, bk, rs);
        return 0, false;
      }
      var b := h[version].value;
      ghost var a := s.attempts[bk];
      assert Plan(bk, a)[0..] == Plan(bk, a);
      MovesCarryOutPlan(s, bk, rs);
      if b.meta.deleting {
        err := HandleDeletion(bk, version, b, io);
        return 0, err;
      }
      if !b.meta.finalizer {
        b := b.(meta := b.meta.(finalizer := true));
        err := api.WriteBinding(bk, version, b, io.fault);
        return 0, err;
      }
      var valid, configHash, b' := ValidateRefs(bk, version, b, io);
      if !valid { return 0, true; }
      err := ManageCounters(bk, b', io);
      if err { return 0, true; }
      requeueAfter, err := SyncStatus(bk, version, b', configHash, io.now, io.fault, a);
    }
  }
}
