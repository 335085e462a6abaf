/** The registry's writes: merge patches touch the tenant list and nothing else, and repeated
    Unregister calls drain a collector's entries one by one. */
module RegistryWrites {
  import opened Api
  import opened Histories
  import opened Tenants
  import opened MergePatch
  import opened Protocol
  import opened Resolution

  /* ---- patch non-interference ---- */

  /** Sent to its own base, a merge patch reproduces the modified status. */
  lemma PatchReproduces(base: BindingStatus, modified: BindingStatus)
    ensures Apply(Diff(base, modified), base) == modified
  {
  }

  /** Sent anywhere else, the registry's patch replaces the tenant list and nothing else. */
  lemma PatchTouchesTenantsOnly(base: Binding, ts: seq<Tenant>, cur: BindingStatus)
    ensures Apply(Diff(base.status, WithTenants(base, ts).status), cur)
         == cur.(registeredTenants := if ts == base.status.registeredTenants then cur.registeredTenants else ts)
  {
  }

  /** The cache view of the latest stored objects, in the given list order. */
  function ViewOf(s: System, bks: seq<BindingKey>, ks: seq<ResourceKey>): View {
    OneMoment(ListBindings(s.bindings, bks), ListConfigs(s.resources, ks))
  }

  function ListBindings(bindings: Bindings, bks: seq<BindingKey>): seq<Listed> {
    if bks == [] then []
    else
      var rest, b := ListBindings(bindings, bks[1..]), Latest(BindingHistory(bindings, bks[0]));
      if b.None? then rest else [Listed(bks[0], b.value)] + rest
  }

  function ListConfigs(resources: Resources, ks: seq<ResourceKey>): seq<ListedConfig> {
    if ks == [] then []
    else
      var rest, r := ListConfigs(resources, ks[1..]), Latest(ResourceHistory(resources, ks[0]));
      if r.None? || !ks[0].kind.PipelineConfig? then rest else [ListedConfig(ks[0].ns, ks[0].name, r.value)] + rest
  }

  predicate SameButTenants(b: Option<Binding>, c: Option<Binding>) {
    || (b.None? && c.None?)
    || (b.Some? && c.Some? && c.value == WithTenants(b.value, c.value.status.registeredTenants))
  }

  lemma PatchStep(s: System, at: BindingKey, base: Binding, ts: seq<Tenant>, bk: BindingKey)
    ensures var s' := DoPatchTenants(s, at, base, ts);
            && s'.resources == s.resources && s'.attempts == s.attempts && s'.dirty == s.dirty
            && SameButTenants(Latest(BindingHistory(s.bindings, bk)), Latest(BindingHistory(s'.bindings, bk)))
  {
    var cur := Latest(BindingHistory(s.bindings, at));
    if cur.Some? { PatchTouchesTenantsOnly(base, ts, cur.value.status); }
  }

  lemma RegistryStep(cfg: Config, s: System, e: Event, bk: BindingKey)
    requires e.RegisterPatch? || e.UnregisterPatch?
    ensures var s' := Step(cfg, s, e);
            && s'.resources == s.resources && s'.attempts == s.attempts && s'.dirty == s.dirty
            && SameButTenants(Latest(BindingHistory(s.bindings, bk)), Latest(BindingHistory(s'.bindings, bk)))
  {
    var read := ReadAt(BindingHistory(s.bindings, e.bk), e.lag);
    if read.Some? {
      var ts := read.value.status.registeredTenants;
      if e.RegisterPatch? {
        PatchStep(s, e.bk, read.value, Upsert(ts, e.tenant), bk);
      } else {
        PatchStep(s, e.bk, read.value, RemoveCollector(ts, e.collectorId), bk);
      }
    }
  }

  lemma {:induction false} SameSpecsListed(m: Bindings, m': Bindings, bks: seq<BindingKey>)
    requires forall bk :: SameButTenants(Latest(BindingHistory(m, bk)), Latest(BindingHistory(m', bk)))
    ensures SameSpecs(ListBindings(m, bks), ListBindings(m', bks))
  {
    if bks != [] {
      SameSpecsListed(m, m', bks[1..]);
      assert SameButTenants(Latest(BindingHistory(m, bks[0])), Latest(BindingHistory(m', bks[0])));
    }
  }

  /** What the reads of one call see if a step lands between them: each list shows the bindings before
      the step or after it. */
  function MixedView(s: System, s': System, bks: seq<BindingKey>, ks: seq<ResourceKey>, byTenant: bool, byGroup: bool)
    : View
  {
    ViewOf(s, bks, ks).(
      byTenant := ListBindings(if byTenant then s'.bindings else s.bindings, bks),
      byGroup := ListBindings(if byGroup then s'.bindings else s.bindings, bks))
  }

  /** A registry call, however stale its base, leaves counters, attempts, bound references, phase
      and every GetConfig answer as they were, even of a call whose reads it lands between. */
  lemma PatchNonInterference(cfg: Config, s: System, e: Event, bks: seq<BindingKey>, ks: seq<ResourceKey>,
                             byTenant: bool, byGroup: bool, ns: string, tenant: string, group: string, hash: string)
    requires e.RegisterPatch? || e.UnregisterPatch?
    ensures var s' := Step(cfg, s, e);
            && s'.resources == s.resources && s'.attempts == s.attempts
            && (forall bk :: SameButTenants(Latest(BindingHistory(s.bindings, bk)),
                                            Latest(BindingHistory(s'.bindings, bk))))
            && GetConfig(MixedView(s, s', bks, ks, byTenant, byGroup), ns, tenant, group, hash) ==
               GetConfig(ViewOf(s, bks, ks), ns, tenant, group, hash)
  {
    var s' := Step(cfg, s, e);
    forall bk
      ensures SameButTenants(Latest(BindingHistory(s.bindings, bk)), Latest(BindingHistory(s'.bindings, bk)))
      ensures s'.resources == s.resources && s'.attempts == s.attempts
    {
      RegistryStep(cfg, s, e, bk);
    }
    SameSpecsListed(s.bindings, s'.bindings, bks);
    StatusDoesNotMatter(ViewOf(s, bks, ks), MixedView(s, s', bks, ks, byTenant, byGroup), ns, tenant, group);
  }

  /* ---- overlapping registrations ---- */

  /** The list stored after a patch: the new one, unless the patch changes nothing. */
  lemma PatchStores(s: System, bk: BindingKey, base: Binding, ts: seq<Tenant>)
    requires Latest(BindingHistory(s.bindings, bk)).Some?
    ensures var s' := DoPatchTenants(s, bk, base, ts);
            && TenantsOf(s'.bindings, bk) ==
               (if ts == base.status.registeredTenants then TenantsOf(s.bindings, bk) else ts)
            && forall x :: x != bk ==> TenantsOf(s'.bindings, x) == TenantsOf(s.bindings, x)
  {
    PatchTouchesTenantsOnly(base, ts, Latest(BindingHistory(s.bindings, bk)).value.status);
  }

  lemma UpsertKnown(ts: seq<Tenant>, t: Tenant, x: Tenant)
    requires UniqueIds(ts)
    ensures Upsert(ts, t) == ts <==> t in ts
    ensures x in Upsert(ts, t) <==> x == t || (x in ts && x.id != t.id)
  {
    UpsertKeepsUnique(ts, t);
    if t in ts {
      var i :| 0 <= i < |ts| && ts[i] == t;
      assert Upsert(ts, t) == ts;
    }
  }

  /** Exactly what a registration computed from an older version leaves: what is stored, if it changed
      nothing in that version, so that its own entry may well be absent; otherwise its own entry and
      those of other tenants that this version held. */
  lemma RegistrationKeeps(cfg: Config, s: System, bk: BindingKey, lag: nat, t: Tenant, x: Tenant)
    requires ReadAt(BindingHistory(s.bindings, bk), lag).Some? && Latest(BindingHistory(s.bindings, bk)).Some?
    requires UniqueIds(ReadAt(BindingHistory(s.bindings, bk), lag).value.status.registeredTenants)
    ensures var base := ReadAt(BindingHistory(s.bindings, bk), lag).value.status.registeredTenants;
            x in TenantsOf(Step(cfg, s, RegisterPatch(bk, lag, t)).bindings, bk) <==>
              if t in base then x in TenantsOf(s.bindings, bk) else x == t || (x in base && x.id != t.id)
  {
    var base := ReadAt(BindingHistory(s.bindings, bk), lag).value.status.registeredTenants;
    RegisterStores(cfg, s, bk, lag, t);
    KeptByUpsert(base, TenantsOf(s.bindings, bk), t, x);
  }

  /** The list that a registration leaves stored. */
  lemma RegisterStores(cfg: Config, s: System, bk: BindingKey, lag: nat, t: Tenant)
    requires ReadAt(BindingHistory(s.bindings, bk), lag).Some? && Latest(BindingHistory(s.bindings, bk)).Some?
    ensures var base := ReadAt(BindingHistory(s.bindings, bk), lag).value.status.registeredTenants;
            TenantsOf(Step(cfg, s, RegisterPatch(bk, lag, t)).bindings, bk) ==
              Registered(base, TenantsOf(s.bindings, bk), t)
  {
    var base := ReadAt(BindingHistory(s.bindings, bk), lag).value;
    RegisterPatches(cfg, s, bk, lag, t, base, Upsert(base.status.registeredTenants, t));
  }

  lemma RegisterPatches(cfg: Config, s: System, bk: BindingKey, lag: nat, t: Tenant, base: Binding, ts: seq<Tenant>)
    requires ReadAt(BindingHistory(s.bindings, bk), lag) == Some(base) && ts == Upsert(base.status.registeredTenants, t)
    requires Latest(BindingHistory(s.bindings, bk)).Some?
    ensures TenantsOf(Step(cfg, s, RegisterPatch(bk, lag, t)).bindings, bk)
         == if ts == base.status.registeredTenants then TenantsOf(s.bindings, bk) else ts
  {
    PatchStores(s, bk, base, ts);
  }

  /** Registering `t` in list `base` and patching list `stored` with the difference. */
  function Registered(base: seq<Tenant>, stored: seq<Tenant>, t: Tenant): seq<Tenant> {
    if Upsert(base, t) == base then stored else Upsert(base, t)
  }

  lemma KeptByUpsert(base: seq<Tenant>, stored: seq<Tenant>, t: Tenant, x: Tenant)
    requires UniqueIds(base)
    ensures x in Registered(base, stored, t) <==>
              if t in base then x in stored else x == t || (x in base && x.id != t.id)
  {
    UpsertKnown(base, t, x);
  }

  /** Exactly what an unregistration computed from an older version leaves: that version's list without
      the collector's first entry, or what is stored if that version had none. */
  lemma UnregistrationLeaves(cfg: Config, s: System, bk: BindingKey, lag: nat, id: string)
    requires ReadAt(BindingHistory(s.bindings, bk), lag).Some? && Latest(BindingHistory(s.bindings, bk)).Some?
    ensures var base := ReadAt(BindingHistory(s.bindings, bk), lag).value.status.registeredTenants;
            TenantsOf(Step(cfg, s, UnregisterPatch(bk, lag, id)).bindings, bk) ==
              if Entries(base, id) == 0 then TenantsOf(s.bindings, bk) else RemoveCollector(base, id)
  {
    var base := ReadAt(BindingHistory(s.bindings, bk), lag).value;
    var ts := base.status.registeredTenants;
    NoEntries(ts, id);
    UnregisterPatches(cfg, s, bk, lag, id, base, RemoveCollector(ts, id));
    if Entries(ts, id) > 0 { RemoveOne(ts, id); }
  }

  lemma UnregisterPatches(cfg: Config, s: System, bk: BindingKey, lag: nat, id: string, base: Binding, ts: seq<Tenant>)
    requires ReadAt(BindingHistory(s.bindings, bk), lag) == Some(base)
    requires ts == RemoveCollector(base.status.registeredTenants, id) && Latest(BindingHistory(s.bindings, bk)).Some?
    ensures TenantsOf(Step(cfg, s, UnregisterPatch(bk, lag, id)).bindings, bk)
         == if ts == base.status.registeredTenants then TenantsOf(s.bindings, bk) else ts
  {
    PatchStores(s, bk, base, ts);
  }

  /** So two registrations computed from the same version lose the first one's entry. */
  lemma OverlapLosesEntry(cfg: Config, s: System, bk: BindingKey, t1: Tenant, t2: Tenant)
    requires Latest(BindingHistory(s.bindings, bk)).Some? && UniqueIds(TenantsOf(s.bindings, bk))
    requires t1.id != t2.id && t1 !in TenantsOf(s.bindings, bk) && t2 !in TenantsOf(s.bindings, bk)
    ensures var s1 := Step(cfg, s, RegisterPatch(bk, 0, t1));
            t1 in TenantsOf(s1.bindings, bk) && t1 !in TenantsOf(Step(cfg, s1, RegisterPatch(bk, 1, t2)).bindings, bk)
  {
    var h := BindingHistory(s.bindings, bk);
    var b := Latest(h).value;
    UpsertKeepsUnique(TenantsOf(s.bindings, bk), t1);
    PatchReproduces(b.status, WithTenants(b, Upsert(b.status.registeredTenants, t1)).status);
    var s1 := Step(cfg, s, RegisterPatch(bk, 0, t1));
    assert BindingHistory(s1.bindings, bk) == h + [Some(WithTenants(b, Upsert(b.status.registeredTenants, t1)))];
    RegistrationKeeps(cfg, s1, bk, 1, t2, t1);
  }

  /* ---- draining ---- */

  /** How many entries a collector has in a list. */
  function Entries(ts: seq<Tenant>, id: string): nat {
    if ts == [] then 0 else (if ts[0].collectorId == id then 1 else 0) + Entries(ts[1..], id)
  }

  function TotalEntries(bindings: Bindings, bks: seq<BindingKey>, id: string): nat {
    if bks == [] then 0 else Entries(TenantsOf(bindings, bks[0]), id) + TotalEntries(bindings, bks[1..], id)
  }

  /** The first listed binding that holds an entry of the collector. */
  function Holder(bindings: Bindings, bks: seq<BindingKey>, id: string): Option<BindingKey> {
    if bks == [] then None
    else if IndexByCollector(TenantsOf(bindings, bks[0]), id) >= 0 then Some(bks[0])
    else Holder(bindings, bks[1..], id)
  }

  /** Unregister with fresh reads, over the bindings in list order. */
  function Unregister(s: System, bks: seq<BindingKey>, id: string): System {
    match Holder(s.bindings, bks, id)
    case None => s
    case Some(bk) => DoUnregister(s, bk, 0, id)
  }

  function UnregisterTimes(s: System, bks: seq<BindingKey>, id: string, n: nat): System {
    if n == 0 then s else Unregister(UnregisterTimes(s, bks, id, n - 1), bks, id)
  }

  predicate Distinct(bks: seq<BindingKey>) {
    forall i, j :: 0 <= i < j < |bks| ==> bks[i] != bks[j]
  }

  lemma {:induction false} EntriesConcat(a: seq<Tenant>, b: seq<Tenant>, id: string)
    ensures Entries(a + b, id) == Entries(a, id) + Entries(b, id)
  {
    if a == [] {
      assert a + b == b;
    } else {
      assert (a + b)[1..] == a[1..] + b;
      EntriesConcat(a[1..], b, id);
    }
  }

  lemma {:induction false} NoEntries(ts: seq<Tenant>, id: string)
    ensures Entries(ts, id) == 0 <==> IndexByCollector(ts, id) < 0
  {
    if ts != [] { NoEntries(ts[1..], id); }
  }

  /** Removal takes out exactly one entry of the collector and keeps all others in order. */
  lemma RemoveOne(ts: seq<Tenant>, id: string)
    requires Entries(ts, id) > 0
    ensures var i := IndexByCollector(ts, id);
            && 0 <= i < |ts| && ts[i].collectorId == id
            && RemoveCollector(ts, id) == ts[..i] + ts[i + 1..]
            && Entries(RemoveCollector(ts, id), id) == Entries(ts, id) - 1
  {
    NoEntries(ts, id);
    var i := IndexByCollector(ts, id);
    assert ts == ts[..i] + ([ts[i]] + ts[i + 1..]);
    EntriesConcat(ts[..i], [ts[i]] + ts[i + 1..], id);
    EntriesConcat([ts[i]], ts[i + 1..], id);
    EntriesConcat(ts[..i], ts[i + 1..], id);
    assert Entries([ts[i]], id) == 1;
  }

  lemma {:induction false} HolderHolds(bindings: Bindings, bks: seq<BindingKey>, id: string)
    ensures Holder(bindings, bks, id).None? <==> TotalEntries(bindings, bks, id) == 0
    ensures Holder(bindings, bks, id).Some? ==>
              var bk := Holder(bindings, bks, id).value; bk in bks && Entries(TenantsOf(bindings, bk), id) > 0
  {
    if bks != [] {
      NoEntries(TenantsOf(bindings, bks[0]), id);
      HolderHolds(bindings, bks[1..], id);
    }
  }

  lemma {:induction false} TotalAt(m: Bindings, m': Bindings, bks: seq<BindingKey>, bk: BindingKey, id: string)
    requires Distinct(bks) && forall x :: x != bk ==> TenantsOf(m', x) == TenantsOf(m, x)
    ensures TotalEntries(m', bks, id) - TotalEntries(m, bks, id)
         == if bk in bks then Entries(TenantsOf(m', bk), id) - Entries(TenantsOf(m, bk), id) else 0
  {
    if bks != [] {
      TotalAt(m, m', bks[1..], bk, id);
      if bks[0] == bk {
        assert forall j :: 1 <= j < |bks| ==> bks[j] != bk;
      }
    }
  }

  lemma FreshRemoval(s: System, bk: BindingKey, id: string)
    requires Latest(BindingHistory(s.bindings, bk)).Some?
    ensures var s' := DoUnregister(s, bk, 0, id);
            && TenantsOf(s'.bindings, bk) == RemoveCollector(TenantsOf(s.bindings, bk), id)
            && forall x :: x != bk ==> TenantsOf(s'.bindings, x) == TenantsOf(s.bindings, x)
  {
    var b := Latest(BindingHistory(s.bindings, bk)).value;
    PatchStores(s, bk, b, RemoveCollector(b.status.registeredTenants, id));
  }

  /** One call removes exactly one of the collector's entries, from one binding, if there is one,
      and is a no-op otherwise. */
  lemma UnregisterOnce(s: System, bks: seq<BindingKey>, id: string)
    requires Distinct(bks)
    ensures TotalEntries(s.bindings, bks, id) == 0 ==> Unregister(s, bks, id) == s
    ensures TotalEntries(s.bindings, bks, id) > 0 ==>
              var s' := Unregister(s, bks, id);
              && TotalEntries(s'.bindings, bks, id) == TotalEntries(s.bindings, bks, id) - 1
              && Holder(s.bindings, bks, id).Some?
              && var bk := Holder(s.bindings, bks, id).value;
              && TenantsOf(s'.bindings, bk) == RemoveCollector(TenantsOf(s.bindings, bk), id)
              && forall x :: x != bk ==> TenantsOf(s'.bindings, x) == TenantsOf(s.bindings, x)
  {
    HolderHolds(s.bindings, bks, id);
    if TotalEntries(s.bindings, bks, id) > 0 {
      var bk := Holder(s.bindings, bks, id).value;
      RemoveOne(TenantsOf(s.bindings, bk), id);
      FreshRemoval(s, bk, id);
      TotalAt(s.bindings, Unregister(s, bks, id).bindings, bks, bk, id);
    }
  }

  /** Each of n calls takes one entry; after as many calls as there were entries none is left, and
      every further call changes nothing. */
  lemma {:induction false} UnregisterDrains(s: System, bks: seq<BindingKey>, id: string, n: nat)
    requires Distinct(bks)
    ensures var total := TotalEntries(s.bindings, bks, id);
            && TotalEntries(UnregisterTimes(s, bks, id, n).bindings, bks, id) == (if n <= total then total - n else 0)
            && (n > total ==> UnregisterTimes(s, bks, id, n) == UnregisterTimes(s, bks, id, n - 1))
  {
    if n > 0 {
      UnregisterDrains(s, bks, id, n - 1);
      UnregisterOnce(UnregisterTimes(s, bks, id, n - 1), bks, id);
    }
  }
}
