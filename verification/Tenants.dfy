/** The registered-tenant list: upsert by tenant ID, removal by collector ID, and eviction. */
module Tenants {
  import opened Api

  predicate UniqueIds(ts: seq<Tenant>) {
    forall i, j :: 0 <= i < j < |ts| ==> ts[i].id != ts[j].id
  }

  function IndexById(ts: seq<Tenant>, id: string): (i: int)
    ensures -1 <= i < |ts|
    ensures i >= 0 ==> ts[i].id == id && forall j :: 0 <= j < i ==> ts[j].id != id
    ensures i < 0 ==> forall j :: 0 <= j < |ts| ==> ts[j].id != id
  {
    if ts == [] then -1
    else if ts[0].id == id then 0
    else var r := IndexById(ts[1..], id); if r < 0 then -1 else r + 1
  }

  function IndexByCollector(ts: seq<Tenant>, collectorId: string): (i: int)
    ensures -1 <= i < |ts|
    ensures i >= 0 ==> ts[i].collectorId == collectorId && forall j :: 0 <= j < i ==> ts[j].collectorId != collectorId
    ensures i < 0 ==> forall j :: 0 <= j < |ts| ==> ts[j].collectorId != collectorId
  {
    if ts == [] then -1
    else if ts[0].collectorId == collectorId then 0
    else var r := IndexByCollector(ts[1..], collectorId); if r < 0 then -1 else r + 1
  }

  function Upsert(ts: seq<Tenant>, t: Tenant): seq<Tenant> {
    var i := IndexById(ts, t.id);
    if i >= 0 then ts[i := t] else ts + [t]
  }

  function RemoveCollector(ts: seq<Tenant>, collectorId: string): seq<Tenant> {
    var i := IndexByCollector(ts, collectorId);
    if i >= 0 then ts[..i] + ts[i + 1..] else ts
  }

  function Newer(ts: seq<Tenant>, cutoff: int): (r: seq<Tenant>)
    ensures |r| <= |ts|
  {
    if ts == [] then []
    else if ts[|ts| - 1].lastSeenAt > cutoff then Newer(ts[..|ts| - 1], cutoff) + [ts[|ts| - 1]]
    else Newer(ts[..|ts| - 1], cutoff)
  }

  /** What one reconcile at time `now` leaves of the list; a TTL of 0 disables eviction. */
  function Evict(ts: seq<Tenant>, ttl: nat, now: int): seq<Tenant> {
    if ttl == 0 then ts else Newer(ts, now - ttl)
  }

  /* ---- the list operations keep tenant IDs unique ---- */

  lemma UpsertKeepsUnique(ts: seq<Tenant>, t: Tenant)
    requires UniqueIds(ts)
    ensures UniqueIds(Upsert(ts, t))
    ensures t in Upsert(ts, t)
    ensures forall x: Tenant :: x.id != t.id ==> (x in Upsert(ts, t) <==> x in ts)
    ensures forall x :: x in Upsert(ts, t) && x.id == t.id ==> x == t
    ensures forall j :: 0 <= j < |ts| ==>
              j < |Upsert(ts, t)| && Upsert(ts, t)[j] == if ts[j].id == t.id then t else ts[j]
    ensures |Upsert(ts, t)| == |ts| || (|Upsert(ts, t)| == |ts| + 1 && forall x :: x in ts ==> x.id != t.id)
  {
    var i, r := IndexById(ts, t.id), Upsert(ts, t);
    if i >= 0 {
      assert r[i] == t;
      forall x: Tenant | x.id != t.id && x in ts ensures x in r {
        var j :| 0 <= j < |ts| && ts[j] == x;
        assert r[j] == x;
      }
    } else {
      assert r[|ts|] == t;
    }
  }

  lemma RemoveKeepsUnique(ts: seq<Tenant>, collectorId: string)
    requires UniqueIds(ts)
    ensures UniqueIds(RemoveCollector(ts, collectorId))
  {
  }

  /** `Newer` keeps exactly the entries newer than the cutoff, with their multiplicity. */
  lemma {:induction false} NewerCounts(ts: seq<Tenant>, cutoff: int, x: Tenant)
    ensures multiset(Newer(ts, cutoff))[x] == if x.lastSeenAt > cutoff then multiset(ts)[x] else 0
  {
    if ts != [] {
      var init, last := ts[..|ts| - 1], ts[|ts| - 1];
      NewerCounts(init, cutoff, x);
      assert ts == init + [last];
      assert multiset(ts) == multiset(init) + multiset{last};
    }
  }

  lemma NewerMembers(ts: seq<Tenant>, cutoff: int, x: Tenant)
    ensures x in Newer(ts, cutoff) <==> x in ts && x.lastSeenAt > cutoff
  {
    NewerCounts(ts, cutoff, x);
    assert x in multiset(ts) <==> x in ts;
    assert x in multiset(Newer(ts, cutoff)) <==> x in Newer(ts, cutoff);
  }

  /** ... and in their order: filtering commutes with concatenation. */
  lemma {:induction false} NewerConcat(a: seq<Tenant>, b: seq<Tenant>, cutoff: int)
    ensures Newer(a + b, cutoff) == Newer(a, cutoff) + Newer(b, cutoff)
  {
    if b == [] {
      assert a + b == a;
    } else {
      assert (a + b)[..|a + b| - 1] == a + b[..|b| - 1];
      NewerConcat(a, b[..|b| - 1], cutoff);
    }
  }

  lemma {:induction false} NewerKeepsUnique(ts: seq<Tenant>, cutoff: int)
    requires UniqueIds(ts)
    ensures UniqueIds(Newer(ts, cutoff))
  {
    if ts != [] {
      var init, last := ts[..|ts| - 1], ts[|ts| - 1];
      NewerKeepsUnique(init, cutoff);
      forall x | x in Newer(init, cutoff) ensures x.id != last.id {
        NewerMembers(init, cutoff, x);
      }
    }
  }

  lemma EvictKeepsUnique(ts: seq<Tenant>, ttl: nat, now: int)
    requires UniqueIds(ts)
    ensures UniqueIds(Evict(ts, ttl, now))
  {
    if ttl != 0 {
      NewerKeepsUnique(ts, now - ttl);
    }
  }

  /** The eviction loop appends into the slice it ranges over: the writes stay behind the reads. */
  method EvictInPlace(a: array<Tenant>, n: nat, ttl: nat, now: int) returns (kept: nat, evicted: nat)
    requires n <= a.Length
    modifies a
    ensures kept + evicted == n
    ensures a[..kept] == Evict(old(a[..n]), ttl, now)
    ensures a[kept..] == old(a[kept..])
  {
    if ttl == 0 {
      return n, 0;
    }
    var cutoff := now - ttl;
    kept := 0;
    var i := 0;
    while i < n
      invariant 0 <= kept <= i <= n
      invariant a[..kept] == Newer(old(a[..])[..i], cutoff)
      invariant forall j :: kept <= j < a.Length ==> a[j] == old(a[j])
    {
      assert old(a[..])[..i + 1][..i] == old(a[..])[..i];
      if a[i].lastSeenAt > cutoff {
        a[kept] := a[i];
        kept := kept + 1;
      }
      i := i + 1;
    }
    evicted := n - kept;
    assert old(a[..])[..n] == old(a[..n]);
  }
}
