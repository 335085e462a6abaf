/** The collector registry and the RPC service in the form the program has: retry loops around
    merge patches, and a GetConfig that refreshes the registration before it resolves. */
module Service {
  import opened Api
  import opened Histories
  import opened Tenants
  import opened Protocol
  import opened Resolution
  import opened RegistryWrites
  import opened Controllers

  const MAX_PATCH_RETRIES: nat := 3

  datatype CallResult = CallResult(bindings: Bindings, err: bool)

  /** The retry loop of Register: one list view and one server reply per attempt. */
  function RegisterResult(bindings: Bindings, ns: string, t: Tenant, group: string,
                          views: seq<View>, replies: seq<PatchReply>): CallResult
    requires |views| == |replies|
    decreases views
  {
    if views == [] then CallResult(bindings, true)
    else match FindBinding(views[0], ns, t.id, group)
      case None => CallResult(bindings, false)
      case Some(l) =>
        var modified := WithTenants(l.binding, Upsert(l.binding.status.registeredTenants, t));
        if replies[0].Conflict? && |views| > 1 then RegisterResult(bindings, ns, t, group, views[1..], replies[1..])
        else CallResult(PatchedBindings(bindings, l.key, l.binding, modified, replies[0]),
                        !PatchErrorOf(bindings, l.key, replies[0]).NoPatchError?)
  }

  /** The retry loop of Unregister on the binding that was listed with the entry. */
  function UnregisterResult(bindings: Bindings, bk: BindingKey, id: string,
                            lags: seq<nat>, replies: seq<PatchReply>): CallResult
    requires |lags| == |replies|
    decreases lags
  {
    if lags == [] then CallResult(bindings, true)
    else match ReadAt(BindingHistory(bindings, bk), lags[0])
      case None => CallResult(bindings, false)
      case Some(live) =>
        if IndexByCollector(live.status.registeredTenants, id) < 0 then CallResult(bindings, false)
        else if replies[0].Conflict? && |lags| > 1 then UnregisterResult(bindings, bk, id, lags[1..], replies[1..])
        else
          var modified := WithTenants(live, RemoveCollector(live.status.registeredTenants, id));
          CallResult(PatchedBindings(bindings, bk, live, modified, replies[0]),
                     !PatchErrorOf(bindings, bk, replies[0]).NoPatchError?)
  }

  /** The first listed binding of the namespace with an entry of the collector. */
  function ListedHolder(list: seq<Listed>, ns: string, id: string): Option<BindingKey> {
    if list == [] then None
    else if list[0].key.ns == ns && IndexByCollector(list[0].binding.status.registeredTenants, id) >= 0 then
      Some(list[0].key)
    else ListedHolder(list[1..], ns, id)
  }

  /* ---- what a call brings about ---- */

  /** Only this binding's history may have changed. */
  ghost predicate OnlyHistory(before: Bindings, after: Bindings, bk: BindingKey) {
    forall x :: x != bk ==> BindingHistory(after, x) == BindingHistory(before, x)
  }

  /** An accepted patch, computed from `base`, has put list `ts` in the place of the stored one; a patch
      that changes nothing, or meets no binding, leaves everything as it was. */
  predicate Patched(before: Bindings, after: Bindings, bk: BindingKey, base: Binding, ts: seq<Tenant>) {
    var cur := Latest(BindingHistory(before, bk));
    if cur.None? || ts == base.status.registeredTenants then BindingHistory(after, bk) == BindingHistory(before, bk)
    else Latest(BindingHistory(after, bk)) == Some(WithTenants(cur.value, ts))
  }

  /** What one patch may come to: without an error it was accepted and the binding is there. */
  ghost predicate PatchMeans(before: Bindings, after: Bindings, err: bool, bk: BindingKey, base: Binding,
                             ts: seq<Tenant>, reply: PatchReply) {
    && (reply.Accepted? || reply.AnswerLost? ==> OnlyHistory(before, after, bk) && Patched(before, after, bk, base, ts))
    && (reply.Refused? || reply.Conflict? ==> after == before)
    && (err <==> !(reply.Accepted? && Latest(BindingHistory(before, bk)).Some?))
  }

  /** Register stops at attempt `i`: there is no binding then, or the reply is not a conflict. */
  predicate RegisterStops(ns: string, t: Tenant, group: string, views: seq<View>, replies: seq<PatchReply>, i: nat)
    requires |views| == |replies|
  {
    && i < |views|
    && (FindBinding(views[i], ns, t.id, group).None? || !replies[i].Conflict?)
    && forall j :: 0 <= j < i ==> FindBinding(views[j], ns, t.id, group).Some? && replies[j].Conflict?
  }

  /** What Register brings about: on the binding found where it stops, the patch that upserts the
      tenant; nothing if none is found; and nothing but an error if it never stops. */
  ghost predicate RegisterMeans(before: Bindings, after: Bindings, err: bool, ns: string, t: Tenant, group: string,
                                views: seq<View>, replies: seq<PatchReply>)
    requires |views| == |replies|
  {
    && (forall i: nat :: RegisterStops(ns, t, group, views, replies, i) ==>
          var found := FindBinding(views[i], ns, t.id, group);
          && (found.None? ==> !err && after == before)
          && (found.Some? ==>
               PatchMeans(before, after, err, found.value.key, found.value.binding,
                          Upsert(found.value.binding.status.registeredTenants, t), replies[i])))
    && ((forall i: nat :: !RegisterStops(ns, t, group, views, replies, i)) ==> err && after == before)
  }

  predicate HasEntry(ts: seq<Tenant>, id: string) { exists i :: 0 <= i < |ts| && ts[i].collectorId == id }

  /** Unregister stops at attempt `i`: the binding is gone then, or has no entry of the collector, or the
      reply is not a conflict. */
  predicate UnregisterStops(bindings: Bindings, bk: BindingKey, id: string, lags: seq<nat>, replies: seq<PatchReply>,
                            i: nat)
    requires |lags| == |replies|
  {
    && i < |lags|
    && (!SeesEntry(bindings, bk, id, lags[i]) || !replies[i].Conflict?)
    && forall j :: 0 <= j < i ==> SeesEntry(bindings, bk, id, lags[j]) && replies[j].Conflict?
  }

  predicate SeesEntry(bindings: Bindings, bk: BindingKey, id: string, lag: nat) {
    var read := ReadAt(BindingHistory(bindings, bk), lag);
    read.Some? && HasEntry(read.value.status.registeredTenants, id)
  }

  ghost predicate UnregisterMeans(before: Bindings, after: Bindings, err: bool, bk: BindingKey, id: string,
                                  lags: seq<nat>, replies: seq<PatchReply>)
    requires |lags| == |replies|
  {
    && (forall i: nat :: UnregisterStops(before, bk, id, lags, replies, i) ==>
          && (!SeesEntry(before, bk, id, lags[i]) ==> !err && after == before)
          && (SeesEntry(before, bk, id, lags[i]) ==>
               var base := ReadAt(BindingHistory(before, bk), lags[i]).value;
               PatchMeans(before, after, err, bk, base, RemoveCollector(base.status.registeredTenants, id),
                          replies[i])))
    && ((forall i: nat :: !UnregisterStops(before, bk, id, lags, replies, i)) ==> err && after == before)
  }

  /** Item `i` is the first listed binding of the namespace with an entry of the collector. */
  predicate FirstHolder(list: seq<Listed>, ns: string, id: string, i: nat) {
    && i < |list| && HoldsEntry(list[i], ns, id)
    && forall j :: 0 <= j < i ==> !HoldsEntry(list[j], ns, id)
  }

  predicate HoldsEntry(l: Listed, ns: string, id: string) {
    l.key.ns == ns && HasEntry(l.binding.status.registeredTenants, id)
  }

  lemma PatchedMeans(bindings: Bindings, bk: BindingKey, base: Binding, ts: seq<Tenant>, reply: PatchReply)
    ensures PatchMeans(bindings, PatchedBindings(bindings, bk, base, WithTenants(base, ts), reply),
                       !PatchErrorOf(bindings, bk, reply).NoPatchError?, bk, base, ts, reply)
  {
    var cur := Latest(BindingHistory(bindings, bk));
    if cur.Some? { PatchTouchesTenantsOnly(base, ts, cur.value.status); }
  }

  lemma {:induction false} RegisterResultMeans(bindings: Bindings, ns: string, t: Tenant, group: string,
                                               views: seq<View>, replies: seq<PatchReply>)
    requires |views| == |replies|
    ensures var r := RegisterResult(bindings, ns, t, group, views, replies);
            RegisterMeans(bindings, r.bindings, r.err, ns, t, group, views, replies)
    decreases views
  {
    if views != [] {
      var found := FindBinding(views[0], ns, t.id, group);
      if found.Some? && replies[0].Conflict? {
        RegisterResultMeans(bindings, ns, t, group, views[1..], replies[1..]);
        forall i: nat ensures RegisterStops(ns, t, group, views, replies, i) <==>
                                i > 0 && RegisterStops(ns, t, group, views[1..], replies[1..], i - 1)
        {
          RegisterShift(ns, t, group, views, replies, i);
        }
        if |views| == 1 { PatchedNothing(bindings, found.value.key, replies[0]); }
        NeverShift(ns, t, group, views, replies);
      } else {
        RegisterStopsFirst(ns, t, group, views, replies);
        assert RegisterStops(ns, t, group, views, replies, 0);
        if found.Some? {
          var base := found.value.binding;
          PatchedMeans(bindings, found.value.key, base, Upsert(base.status.registeredTenants, t), replies[0]);
        }
      }
    }
  }

  lemma RegisterStopsFirst(ns: string, t: Tenant, group: string, views: seq<View>, replies: seq<PatchReply>)
    requires |views| == |replies| > 0 && (FindBinding(views[0], ns, t.id, group).None? || !replies[0].Conflict?)
    ensures forall i: nat :: RegisterStops(ns, t, group, views, replies, i) <==> i == 0
  {
  }

  lemma RegisterShift(ns: string, t: Tenant, group: string, views: seq<View>, replies: seq<PatchReply>, i: nat)
    requires |views| == |replies| > 0 && FindBinding(views[0], ns, t.id, group).Some? && replies[0].Conflict?
    ensures RegisterStops(ns, t, group, views, replies, i) <==>
              i > 0 && RegisterStops(ns, t, group, views[1..], replies[1..], i - 1)
  {
    if i > 0 {
      assert forall j :: 0 <= j < i - 1 && j < |views| - 1 ==>
          views[1..][j] == views[j + 1] && replies[1..][j] == replies[j + 1];
      assert forall j :: 0 < j < |views| ==> views[j] == views[1..][j - 1] && replies[j] == replies[1..][j - 1];
    }
  }

  lemma NeverShift(ns: string, t: Tenant, group: string, views: seq<View>, replies: seq<PatchReply>)
    requires |views| == |replies| > 0 && FindBinding(views[0], ns, t.id, group).Some? && replies[0].Conflict?
    ensures (forall i: nat :: !RegisterStops(ns, t, group, views, replies, i)) ==>
              forall i: nat :: !RegisterStops(ns, t, group, views[1..], replies[1..], i)
  {
    if forall i: nat :: !RegisterStops(ns, t, group, views, replies, i) {
      forall i: nat ensures !RegisterStops(ns, t, group, views[1..], replies[1..], i) {
        RegisterShift(ns, t, group, views, replies, i + 1);
        assert !RegisterStops(ns, t, group, views, replies, i + 1);
      }
    }
  }

  /** Three conflicts in a row change nothing, and the call fails. */
  lemma ThreeConflictsFail(bindings: Bindings, ns: string, t: Tenant, group: string,
                           views: seq<View>, replies: seq<PatchReply>)
    requires |views| == |replies| == MAX_PATCH_RETRIES
    requires forall i :: 0 <= i < 3 ==> FindBinding(views[i], ns, t.id, group).Some? && replies[i].Conflict?
    ensures RegisterResult(bindings, ns, t, group, views, replies) == CallResult(bindings, true)
  {
    RegisterResultMeans(bindings, ns, t, group, views, replies);
  }

  lemma {:induction false} UnregisterResultMeans(bindings: Bindings, bk: BindingKey, id: string,
                                                 lags: seq<nat>, replies: seq<PatchReply>)
    requires |lags| == |replies|
    ensures var r := UnregisterResult(bindings, bk, id, lags, replies);
            UnregisterMeans(bindings, r.bindings, r.err, bk, id, lags, replies)
    decreases lags
  {
    if lags != [] {
      var read := ReadAt(BindingHistory(bindings, bk), lags[0]);
      if SeesEntry(bindings, bk, id, lags[0]) && replies[0].Conflict? {
        UnregisterResultMeans(bindings, bk, id, lags[1..], replies[1..]);
        forall i: nat ensures UnregisterStops(bindings, bk, id, lags, replies, i) <==>
                                i > 0 && UnregisterStops(bindings, bk, id, lags[1..], replies[1..], i - 1)
        {
          UnregisterShift(bindings, bk, id, lags, replies, i);
        }
        if |lags| == 1 { PatchedNothing(bindings, bk, replies[0]); }
        NeverUnregisterShift(bindings, bk, id, lags, replies);
      } else {
        UnregisterStopsFirst(bindings, bk, id, lags, replies);
        assert UnregisterStops(bindings, bk, id, lags, replies, 0);
        if SeesEntry(bindings, bk, id, lags[0]) {
          PatchedMeans(bindings, bk, read.value, RemoveCollector(read.value.status.registeredTenants, id), replies[0]);
        }
      }
    }
  }

  lemma UnregisterStopsFirst(bindings: Bindings, bk: BindingKey, id: string, lags: seq<nat>, replies: seq<PatchReply>)
    requires |lags| == |replies| > 0 && (!SeesEntry(bindings, bk, id, lags[0]) || !replies[0].Conflict?)
    ensures forall i: nat :: UnregisterStops(bindings, bk, id, lags, replies, i) <==> i == 0
  {
  }

  lemma UnregisterShift(bindings: Bindings, bk: BindingKey, id: string, lags: seq<nat>, replies: seq<PatchReply>,
                        i: nat)
    requires |lags| == |replies| > 0 && SeesEntry(bindings, bk, id, lags[0]) && replies[0].Conflict?
    ensures UnregisterStops(bindings, bk, id, lags, replies, i) <==>
              i > 0 && UnregisterStops(bindings, bk, id, lags[1..], replies[1..], i - 1)
  {
    if i > 0 {
      assert forall j :: 0 <= j < i - 1 && j < |lags| - 1 ==>
          lags[1..][j] == lags[j + 1] && replies[1..][j] == replies[j + 1];
      assert forall j :: 0 < j < |lags| ==> lags[j] == lags[1..][j - 1] && replies[j] == replies[1..][j - 1];
    }
  }

  lemma NeverUnregisterShift(bindings: Bindings, bk: BindingKey, id: string, lags: seq<nat>, replies: seq<PatchReply>)
    requires |lags| == |replies| > 0 && SeesEntry(bindings, bk, id, lags[0]) && replies[0].Conflict?
    ensures (forall i: nat :: !UnregisterStops(bindings, bk, id, lags, replies, i)) ==>
              forall i: nat :: !UnregisterStops(bindings, bk, id, lags[1..], replies[1..], i)
  {
    if forall i: nat :: !UnregisterStops(bindings, bk, id, lags, replies, i) {
      forall i: nat ensures !UnregisterStops(bindings, bk, id, lags[1..], replies[1..], i) {
        UnregisterShift(bindings, bk, id, lags, replies, i + 1);
        assert !UnregisterStops(bindings, bk, id, lags, replies, i + 1);
      }
    }
  }

  lemma {:induction false} HolderIsFirst(list: seq<Listed>, ns: string, id: string)
    ensures ListedHolder(list, ns, id).None? <==> forall i :: 0 <= i < |list| ==> !HoldsEntry(list[i], ns, id)
    ensures forall i: nat :: FirstHolder(list, ns, id, i) ==> ListedHolder(list, ns, id) == Some(list[i].key)
  {
    if list != [] {
      HolderIsFirst(list[1..], ns, id);
      assert forall i :: 0 < i < |list| ==> list[i] == list[1..][i - 1];
      if !HoldsEntry(list[0], ns, id) {
        forall i: nat | FirstHolder(list, ns, id, i) ensures ListedHolder(list, ns, id) == Some(list[i].key) {
          HolderShift(list, ns, id, i);
        }
      }
    }
  }

  lemma HolderShift(list: seq<Listed>, ns: string, id: string, i: nat)
    requires FirstHolder(list, ns, id, i) && !HoldsEntry(list[0], ns, id)
    ensures i > 0 && FirstHolder(list[1..], ns, id, i - 1) && list[i] == list[1..][i - 1]
  {
    assert forall j :: 0 <= j < i - 1 ==> list[1..][j] == list[j + 1];
  }

  /** A registration that is accepted on what is stored: the tenant's entry is in the list, as the only
      one of its ID, and all other entries are still there. */
  lemma FreshRegisterStores(before: Bindings, after: Bindings, err: bool, ns: string, t: Tenant, group: string,
                            views: seq<View>, replies: seq<PatchReply>, i: nat)
    requires |views| == |replies| && RegisterMeans(before, after, err, ns, t, group, views, replies)
    requires RegisterStops(ns, t, group, views, replies, i) && replies[i].Accepted?
    requires var found := FindBinding(views[i], ns, t.id, group);
             && found.Some? && Latest(BindingHistory(before, found.value.key)) == Some(found.value.binding)
             && UniqueIds(found.value.binding.status.registeredTenants)
    ensures var bk := FindBinding(views[i], ns, t.id, group).value.key;
            && !err && t in TenantsOf(after, bk) && OnlyHistory(before, after, bk)
            && forall x: Tenant :: x in TenantsOf(after, bk) <==> x == t || (x in TenantsOf(before, bk) && x.id != t.id)
  {
    var l := FindBinding(views[i], ns, t.id, group).value;
    var ts := l.binding.status.registeredTenants;
    assert PatchMeans(before, after, err, l.key, l.binding, Upsert(ts, t), replies[i]);
    UpsertKeepsUnique(ts, t);
    assert TenantsOf(after, l.key) == Upsert(ts, t);
  }

  lemma PatchedNothing(bindings: Bindings, bk: BindingKey, reply: PatchReply)
    requires reply.Conflict?
    ensures forall base, modified :: PatchedBindings(bindings, bk, base, modified, reply) == bindings
    ensures !PatchErrorOf(bindings, bk, reply).NoPatchError?
  {
  }

  class CollectorRegistry {
    const api: ApiServer
    const ns: string

    constructor (api: ApiServer, ns: string)
      ensures this.api == api && this.ns == ns
    {
      this.api, this.ns := api, ns;
    }

    method Register(id: string, tenant: string, group: string, now: int, views: seq<View>, replies: seq<PatchReply>)
        returns (err: bool)
      requires |views| == |replies| == MAX_PATCH_RETRIES
      modifies api`bindings
      ensures tenant == "" ==> err && api.bindings == old(api.bindings)
      ensures tenant != "" ==>
                CallResult(api.bindings, err) ==
                  RegisterResult(old(api.bindings), ns, RegisteredTenant(tenant, id, now), group, views, replies)
    {
      if tenant == "" { return true; }
      ghost var t := RegisteredTenant(tenant, id, now);
      var attempt := 0;
      while attempt < MAX_PATCH_RETRIES
        invariant 0 <= attempt <= MAX_PATCH_RETRIES
        invariant api.bindings == old(api.bindings)
        invariant RegisterResult(old(api.bindings), ns, t, group, views, replies)
               == RegisterResult(old(api.bindings), ns, t, group, views[attempt..], replies[attempt..])
      {
        assert views[attempt..][1..] == views[attempt + 1..] && replies[attempt..][1..] == replies[attempt + 1..];
        var found := FindBinding(views[attempt], ns, tenant, group);
        if found.None? { return false; }
        var base := found.value.binding;
        var binding := base;
        var ts := Upsert(binding.status.registeredTenants, RegisteredTenant(tenant, id, now));
        binding := binding.(status := binding.status.(registeredTenants := ts));
        var patchErr := api.PatchBindingStatus(found.value.key, base, binding, replies[attempt]);
        if !patchErr.NoPatchError? {
          if patchErr.ConflictError? && attempt < MAX_PATCH_RETRIES - 1 {
            attempt := attempt + 1;
            continue;
          }
          return true;
        }
        return false;
      }
      err := true;
    }

    method Unregister(id: string, list: seq<Listed>, lags: seq<nat>, replies: seq<PatchReply>) returns (err: bool)
      requires |lags| == |replies| == MAX_PATCH_RETRIES
      modifies api`bindings
      ensures match ListedHolder(list, ns, id)
              case None => !err && api.bindings == old(api.bindings)
              case Some(bk) =>
                CallResult(api.bindings, err) == UnregisterResult(old(api.bindings), bk, id, lags, replies)
    {
      var i := 0;
      while i < |list|
        invariant 0 <= i <= |list|
        invariant api.bindings == old(api.bindings)
        invariant ListedHolder(list, ns, id) == ListedHolder(list[i..], ns, id)
      {
        assert list[i..][1..] == list[i + 1..];
        if list[i].key.ns == ns && IndexByCollector(list[i].binding.status.registeredTenants, id) >= 0 {
          err := RemoveFrom(list[i].key, id, lags, replies);
          return;
        }
        i := i + 1;
      }
      err := false;
    }

    method RemoveFrom(bk: BindingKey, id: string, lags: seq<nat>, replies: seq<PatchReply>) returns (err: bool)
      requires |lags| == |replies| == MAX_PATCH_RETRIES
      modifies api`bindings
      ensures CallResult(api.bindings, err) == UnregisterResult(old(api.bindings), bk, id, lags, replies)
    {
      var attempt := 0;
      while attempt < MAX_PATCH_RETRIES
        invariant 0 <= attempt <= MAX_PATCH_RETRIES
        invariant api.bindings == old(api.bindings)
        invariant UnregisterResult(old(api.bindings), bk, id, lags, replies)
               == UnregisterResult(old(api.bindings), bk, id, lags[attempt..], replies[attempt..])
      {
        assert lags[attempt..][1..] == lags[attempt + 1..] && replies[attempt..][1..] == replies[attempt + 1..];
        var read := ReadAt(BindingHistory(api.bindings, bk), lags[attempt]);
        if read.None? { return false; }
        var base := read.value;
        var live := base;
        var idx := IndexByCollector(live.status.registeredTenants, id);
        if idx < 0 { return false; }
        var ts := live.status.registeredTenants;
        live := live.(status := live.status.(registeredTenants := ts[..idx] + ts[idx + 1..]));
        var patchErr := api.PatchBindingStatus(bk, base, live, replies[attempt]);
        if !patchErr.NoPatchError? {
          if patchErr.ConflictError? && attempt < MAX_PATCH_RETRIES - 1 {
            attempt := attempt + 1;
            continue;
          }
          return true;
        }
        return false;
      }
      err := true;
    }
  }

  class CollectorService {
    const registry: CollectorRegistry

    constructor (registry: CollectorRegistry)
      ensures this.registry == registry
    {
      this.registry := registry;
    }

    /** A poll: the refresh of the registration may fail without consequence for the answer. */
    method GetConfig(id: string, tenant: string, group: string, hash: string, now: int,
                     views: seq<View>, replies: seq<PatchReply>, view: View) returns (response: Response)
      requires |views| == |replies| == MAX_PATCH_RETRIES
      modifies registry.api`bindings
      ensures response == Resolution.GetConfig(view, registry.ns, tenant, group, hash)
      ensures registry.api.bindings ==
                if tenant == "" then old(registry.api.bindings)
                else RegisterResult(old(registry.api.bindings), registry.ns, RegisteredTenant(tenant, id, now), group,
                                    views, replies).bindings
    {
      var _ := registry.Register(id, tenant, group, now, views, replies);
      var resolved := ResolveConfig(view, registry.ns, tenant, group);
      if resolved.Error? { return Failed(resolved.code); }
      if hash == resolved.contentHash { return NotModified; }
      response := Served(resolved.content, resolved.contentHash);
    }
  }

  /* ---- every registry call is at most one step of the state machine ---- */

  /** Each listed binding is some version, possibly an old one, from the store. */
  ghost predicate ListedFrom(bindings: Bindings, list: seq<Listed>) {
    forall l :: l in list ==> exists lag: nat :: ReadAt(BindingHistory(bindings, l.key), lag) == Some(l.binding)
  }

  lemma FoundIsListed(v: View, ns: string, tenant: string, group: string)
    ensures FindBinding(v, ns, tenant, group).Some? ==>
              FindBinding(v, ns, tenant, group).value in v.byTenant + v.byGroup
  {
    ListedIndexed(v.byTenant, ns, TenantRefIndex, tenant);
    ListedIndexed(v.byGroup, ns, CollectorGroupRefIndex, group);
  }

  lemma PatchIsStep(cfg: Protocol.Config, s: System, l: Listed, lag: nat, t: Tenant, reply: PatchReply)
    requires ReadAt(BindingHistory(s.bindings, l.key), lag) == Some(l.binding)
    ensures var modified := WithTenants(l.binding, Upsert(l.binding.status.registeredTenants, t));
            PatchedBindings(s.bindings, l.key, l.binding, modified, reply) ==
              if reply.Accepted? || reply.AnswerLost?
              then Step(cfg, s, RegisterPatch(l.key, lag, t)).bindings
              else s.bindings
  {
  }

  /** However often it retries, a Register call that gets a patch through is exactly that registry step of
      the state machine, on the binding and from the version found where it stops. */
  lemma {:induction false} RegisterIsOneStep(cfg: Protocol.Config, s: System, ns: string, t: Tenant, group: string,
                                             views: seq<View>, replies: seq<PatchReply>, i: nat, lag: nat)
    requires |views| == |replies| && RegisterStops(ns, t, group, views, replies, i)
    requires var found := FindBinding(views[i], ns, t.id, group);
             found.Some? && ReadAt(BindingHistory(s.bindings, found.value.key), lag) == Some(found.value.binding)
    requires replies[i].Accepted? || replies[i].AnswerLost?
    ensures var bk := FindBinding(views[i], ns, t.id, group).value.key;
            RegisterResult(s.bindings, ns, t, group, views, replies).bindings ==
              Step(cfg, s, RegisterPatch(bk, lag, t)).bindings
    decreases i
  {
    if i == 0 {
      PatchIsStep(cfg, s, FindBinding(views[0], ns, t.id, group).value, lag, t, replies[0]);
    } else {
      RegisterShift(ns, t, group, views, replies, i);
      assert views[1..][i - 1] == views[i] && replies[1..][i - 1] == replies[i];
      RegisterIsOneStep(cfg, s, ns, t, group, views[1..], replies[1..], i - 1, lag);
    }
  }

  /** Such a version exists whenever the lists show versions from the store. */
  lemma FoundIsRead(bindings: Bindings, v: View, ns: string, tenant: string, group: string) returns (lag: nat)
    requires FindBinding(v, ns, tenant, group).Some? && ListedFrom(bindings, v.byTenant + v.byGroup)
    ensures var l := FindBinding(v, ns, tenant, group).value;
            ReadAt(BindingHistory(bindings, l.key), lag) == Some(l.binding)
  {
    FoundIsListed(v, ns, tenant, group);
    var l := FindBinding(v, ns, tenant, group).value;
    lag :| ReadAt(BindingHistory(bindings, l.key), lag) == Some(l.binding);
  }

  lemma {:induction false} UnregisterIsOneStep(cfg: Protocol.Config, s: System, bk: BindingKey, id: string,
                                               lags: seq<nat>, replies: seq<PatchReply>, i: nat)
    requires |lags| == |replies| && UnregisterStops(s.bindings, bk, id, lags, replies, i)
    requires SeesEntry(s.bindings, bk, id, lags[i]) && (replies[i].Accepted? || replies[i].AnswerLost?)
    ensures UnregisterResult(s.bindings, bk, id, lags, replies).bindings ==
              Step(cfg, s, UnregisterPatch(bk, lags[i], id)).bindings
    decreases i
  {
    if i > 0 {
      UnregisterShift(s.bindings, bk, id, lags, replies, i);
      assert lags[1..][i - 1] == lags[i] && replies[1..][i - 1] == replies[i];
      UnregisterIsOneStep(cfg, s, bk, id, lags[1..], replies[1..], i - 1);
    }
  }

  lemma {:induction false} FreshHolder(bindings: Bindings, bks: seq<BindingKey>, ns: string, id: string)
    requires forall bk :: bk in bks ==> bk.ns == ns
    ensures ListedHolder(ListBindings(bindings, bks), ns, id) == Holder(bindings, bks, id)
  {
    if bks != [] {
      FreshHolder(bindings, bks[1..], ns, id);
      var b := Latest(BindingHistory(bindings, bks[0]));
      if b.Some? {
        var list := ListBindings(bindings, bks);
        assert list[0] == Listed(bks[0], b.value) && list[1..] == ListBindings(bindings, bks[1..]);
      }
    }
  }

  /** With a fresh list, a fresh read and an accepted patch, the call is the draining step. */
  lemma FreshUnregister(s: System, bks: seq<BindingKey>, ns: string, id: string, lags: seq<nat>,
                        replies: seq<PatchReply>)
    requires (forall bk :: bk in bks ==> bk.ns == ns) && |lags| == |replies| > 0 && lags[0] == 0 && replies[0].Accepted?
    ensures ListedHolder(ListBindings(s.bindings, bks), ns, id) == Holder(s.bindings, bks, id)
    ensures Holder(s.bindings, bks, id).Some? ==>
              UnregisterResult(s.bindings, Holder(s.bindings, bks, id).value, id, lags, replies) ==
                CallResult(RegistryWrites.Unregister(s, bks, id).bindings, false)
  {
    FreshHolder(s.bindings, bks, ns, id);
    HolderHolds(s.bindings, bks, id);
    if Holder(s.bindings, bks, id).Some? {
      NoEntries(TenantsOf(s.bindings, Holder(s.bindings, bks, id).value), id);
    }
  }
}
