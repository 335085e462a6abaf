/** Eviction of stale registrations: what a reconcile may drop under races, and by when. */
module Eviction {
  import opened Api
  import opened Histories
  import opened Tenants
  import opened Protocol
  import opened Invariants
  import opened Ledger

  /* ---- safety under races ---- */

  /** The step is the final write of a successful reconcile of `bk`, and it is stored. */
  predicate CommitsSync(s: System, e: Event, bk: BindingKey) {
    && e.Finish? && e.bk == bk && FinishCommits(s, bk, e.fault)
    && s.attempts[bk].next == |Plan(bk, s.attempts[bk])|
    && s.attempts[bk].final.Sync?
  }

  /** The final write either finds the very version the attempt read, and then stores the eviction
      of the list that is stored at that moment, or it leaves the list alone. */
  lemma FinishEvictsStored(cfg: Config, s: System, bk: BindingKey, now: int, fault: Fault)
    requires WellFormed(s) && bk in s.attempts && s.attempts[bk].next == |Plan(bk, s.attempts[bk])|
    ensures var s' := DoFinish(cfg, s, bk, now, fault);
            if CommitsSync(s, Finish(bk, now, fault), bk)
            then && Latest(BindingHistory(s'.bindings, bk)).Some?
                 && TenantsOf(s'.bindings, bk) == Evict(TenantsOf(s.bindings, bk), cfg.ttl, now)
            else || TenantsOf(s'.bindings, bk) == TenantsOf(s.bindings, bk)
                 || Latest(BindingHistory(s'.bindings, bk)).None?
  {
    var a := s.attempts[bk];
    FinishStores(cfg, s, bk, now, fault);
    if FinishCommits(s, bk, fault) {
      assert Latest(BindingHistory(s.bindings, bk)) == Some(a.obj);
      assert BindingOk(a.obj);
    }
  }

  /** The entry leaves the binding's list in this step, although the binding itself stays. */
  predicate Drops(cfg: Config, s: System, e: Event, bk: BindingKey, t: Tenant) {
    && t in TenantsOf(s.bindings, bk)
    && t !in TenantsOf(Step(cfg, s, e).bindings, bk)
    && Latest(BindingHistory(Step(cfg, s, e).bindings, bk)).Some?
  }

  /** The step is a final write that commits on the version its attempt has read, and the entry is
      at or before the attempt's cutoff. */
  predicate EvictsStale(cfg: Config, s: System, e: Event, bk: BindingKey, t: Tenant) {
    CommitsSync(s, e, bk) && cfg.ttl > 0 && t.lastSeenAt <= e.now - cfg.ttl
  }

  /** In any reachable state, an entry that leaves the list of a binding which itself stays was
      either patched away by the registry, or dropped by a committed reconcile write: then the entry
      was stale, and nothing had been stored since the attempt's read. */
  lemma EvictionSafety(cfg: Config, es: seq<Event>, e: Event, bk: BindingKey, t: Tenant)
    requires Drops(cfg, Run(cfg, INITIAL, es), e, bk, t)
    ensures || ((e.RegisterPatch? || e.UnregisterPatch?) && e.bk == bk)
            || EvictsStale(cfg, Run(cfg, INITIAL, es), e, bk, t)
  {
    WellFormedRun(cfg, es);
    DropCauses(cfg, Run(cfg, INITIAL, es), e, bk, t);
  }

  lemma DropCauses(cfg: Config, s: System, e: Event, bk: BindingKey, t: Tenant)
    requires WellFormed(s) && Drops(cfg, s, e, bk, t)
    ensures ((e.RegisterPatch? || e.UnregisterPatch?) && e.bk == bk) || EvictsStale(cfg, s, e, bk, t)
  {
    if e.Finish? && e.bk == bk && bk in s.attempts && s.attempts[bk].next == |Plan(bk, s.attempts[bk])| {
      FinishDropsStale(cfg, s, bk, e.now, e.fault, t);
    } else if !((e.RegisterPatch? || e.UnregisterPatch?) && e.bk == bk) {
      if bk in s.attempts { assert MovedOk(bk, s.attempts[bk]); }
      OthersKeepTenants(cfg, s, e, bk);
    }
  }

  lemma FinishDropsStale(cfg: Config, s: System, bk: BindingKey, now: int, fault: Fault, t: Tenant)
    requires WellFormed(s) && bk in s.attempts && s.attempts[bk].next == |Plan(bk, s.attempts[bk])|
    requires var s' := DoFinish(cfg, s, bk, now, fault);
             t in TenantsOf(s.bindings, bk) && t !in TenantsOf(s'.bindings, bk) &&
               Latest(BindingHistory(s'.bindings, bk)).Some?
    ensures EvictsStale(cfg, s, Finish(bk, now, fault), bk, t)
  {
    var before, after := TenantsOf(s.bindings, bk), TenantsOf(DoFinish(cfg, s, bk, now, fault).bindings, bk);
    FinishEvictsStored(cfg, s, bk, now, fault);
    assert after != before;
    assert after == Evict(before, cfg.ttl, now);
    EvictedIsStale(before, cfg.ttl, now, t);
  }

  lemma EvictedIsStale(ts: seq<Tenant>, ttl: nat, now: int, t: Tenant)
    requires t in ts && t !in Evict(ts, ttl, now)
    ensures ttl > 0 && t.lastSeenAt <= now - ttl
  {
    NewerMembers(ts, now - ttl, t);
  }

  lemma OthersKeepTenants(cfg: Config, s: System, e: Event, bk: BindingKey)
    requires !((e.RegisterPatch? || e.UnregisterPatch?) && e.bk == bk)
    requires !(e.Finish? && e.bk == bk && bk in s.attempts && s.attempts[bk].next >= |Plan(bk, s.attempts[bk])|)
    ensures TenantsOf(Step(cfg, s, e).bindings, bk) == TenantsOf(s.bindings, bk) ||
              Latest(BindingHistory(Step(cfg, s, e).bindings, bk)).None?
  {
    if ActsOnResource(e) {
      ResourceStepFrame(cfg, s, e);
    } else if e.bk != bk {
      BindingStepFrame(cfg, s, e);
      assert BindingHistory(Step(cfg, s, e).bindings, bk) == BindingHistory(s.bindings, bk);
    } else if e.MoveCounter? {
      if bk in s.attempts && s.attempts[bk].next < |Plan(bk, s.attempts[bk])| { MoveEffect(s, bk, e.lag, e.fault); }
    } else if e.CreateBinding? || e.EditBinding? || e.DeleteBinding? {
      UserStepCommits(cfg, s, e);
    }
  }

  /** A refresh stored after the attempt's read is never undone by that attempt's final write. */
  lemma RefreshSurvives(cfg: Config, s: System, bk: BindingKey, now: int, fault: Fault)
    requires bk in s.attempts && s.attempts[bk].version < Version(BindingHistory(s.bindings, bk))
    ensures BindingHistory(DoFinish(cfg, s, bk, now, fault).bindings, bk) == BindingHistory(s.bindings, bk)
  {
  }

  /* ---- timeliness ---- */

  /** The delay after which a successful reconcile asks to run again; 0 means not at all. */
  function RequeueAfter(ttl: nat, after: seq<Tenant>): nat {
    if ttl > 0 && |after| > 0 then ttl / 2 else 0
  }

  /** A requeue is asked for after half the TTL, rounded down, if entries remain; so there is one exactly
      from a TTL of 2 on. */
  lemma RequeueFires(ttl: nat, after: seq<Tenant>)
    ensures RequeueAfter(ttl, after) > 0 <==> ttl >= 2 && after != []
    ensures after != [] ==> 2 * RequeueAfter(ttl, after) <= ttl <= 2 * RequeueAfter(ttl, after) + 1
  {
  }

  /** When an entry is due for eviction. */
  function Expiry(cfg: Config, t: Tenant): int { t.lastSeenAt + cfg.ttl }

  function Half(cfg: Config): nat { cfg.ttl / 2 }

  /** An unending run: the state before its n-th event. */
  function Before(cfg: Config, trace: nat -> Event, n: nat): System { Run(cfg, INITIAL, Prefix(trace, n)) }

  function Prefix(trace: nat -> Event, n: nat): seq<Event> { seq(n, i requires 0 <= i < n => trace(i)) }

  function ListBefore(cfg: Config, trace: nat -> Event, bk: BindingKey, n: nat): seq<Tenant> {
    TenantsOf(Before(cfg, trace, n).bindings, bk)
  }

  lemma BeforeNext(cfg: Config, trace: nat -> Event, n: nat)
    ensures WellFormed(Before(cfg, trace, n))
    ensures Before(cfg, trace, n + 1) == Step(cfg, Before(cfg, trace, n), trace(n))
  {
    assert Prefix(trace, n + 1) == Prefix(trace, n) + [trace(n)];
    RunSnoc(cfg, INITIAL, Prefix(trace, n), trace(n));
    WellFormedRun(cfg, Prefix(trace, n));
  }

  /** The n-th event commits a reconcile of `bk`. */
  predicate SyncsAt(cfg: Config, trace: nat -> Event, bk: BindingKey, n: nat) {
    CommitsSync(Before(cfg, trace, n), trace(n), bk)
  }

  function Rounds(cfg: Config, trace: nat -> Event, bk: BindingKey): nat -> bool {
    (n: nat) => SyncsAt(cfg, trace, bk, n)
  }

  function Listings(cfg: Config, trace: nat -> Event, bk: BindingKey, t: Tenant): nat -> bool {
    (n: nat) => t in ListBefore(cfg, trace, bk, n)
  }

  function Removals(cfg: Config, trace: nat -> Event, bk: BindingKey, t: Tenant): nat -> bool {
    (n: nat) => TakenAway(cfg, trace, bk, t, n)
  }

  function Times(trace: nat -> Event): nat -> int { (n: nat) => TimeOf(trace(n)) }

  /** The reconcile at `m` comes later than that at `n`, and no later than that one asked for. */
  predicate Punctual(cfg: Config, trace: nat -> Event, bk: BindingKey, n: nat, m: nat) {
    && n < m && SyncsAt(cfg, trace, bk, m)
    && var delay := RequeueAfter(cfg.ttl, ListBefore(cfg, trace, bk, n + 1));
       TimeOf(trace(n)) < TimeOf(trace(m)) <= TimeOf(trace(n)) + delay
  }

  function TimeOf(e: Event): int { if e.Finish? then e.now else 0 }

  /** If the n-th event is a reconcile that asks for a requeue, another one follows in time. */
  ghost predicate Answered(cfg: Config, trace: nat -> Event, bk: BindingKey, n: nat) {
    SyncsAt(cfg, trace, bk, n) && RequeueAfter(cfg.ttl, ListBefore(cfg, trace, bk, n + 1)) > 0 ==>
      exists m: nat :: Punctual(cfg, trace, bk, n, m)
  }

  /** Of two reconciles, the later one does not see an earlier time. */
  predicate InOrder(cfg: Config, trace: nat -> Event, bk: BindingKey, n: nat, m: nat) {
    n <= m && SyncsAt(cfg, trace, bk, n) && SyncsAt(cfg, trace, bk, m) ==> TimeOf(trace(n)) <= TimeOf(trace(m))
  }

  /** From `start` on, requeues are answered in time and the clock does not go back. */
  ghost predicate OnTime(cfg: Config, trace: nat -> Event, bk: BindingKey, start: nat) {
    && (forall n: nat :: start <= n ==> Answered(cfg, trace, bk, n))
    && (forall n: nat, m: nat :: start <= n ==> InOrder(cfg, trace, bk, n, m))
  }

  /** The n-th event takes the entry away: a registry patch, or the removal of the binding. */
  predicate TakenAway(cfg: Config, trace: nat -> Event, bk: BindingKey, t: Tenant, n: nat) {
    && t in ListBefore(cfg, trace, bk, n) && t !in ListBefore(cfg, trace, bk, n + 1)
    && (|| ((trace(n).RegisterPatch? || trace(n).UnregisterPatch?) && trace(n).bk == bk)
        || Latest(BindingHistory(Before(cfg, trace, n + 1).bindings, bk)).None?)
  }

  /** A reconcile leaves exactly the entries that are newer than its cutoff. */
  lemma SyncStep(cfg: Config, s: System, e: Event, bk: BindingKey, t: Tenant)
    requires WellFormed(s) && CommitsSync(s, e, bk) && cfg.ttl > 0
    ensures t in TenantsOf(Step(cfg, s, e).bindings, bk) <==>
              t in TenantsOf(s.bindings, bk) && TimeOf(e) < Expiry(cfg, t)
  {
    FinishEvictsStored(cfg, s, bk, e.now, e.fault);
    NewerMembers(TenantsOf(s.bindings, bk), e.now - cfg.ttl, t);
  }

  lemma SyncEvicts(cfg: Config, trace: nat -> Event, bk: BindingKey, t: Tenant, n: nat)
    requires SyncsAt(cfg, trace, bk, n) && cfg.ttl > 0
    ensures t in ListBefore(cfg, trace, bk, n + 1) <==>
              t in ListBefore(cfg, trace, bk, n) && TimeOf(trace(n)) < Expiry(cfg, t)
  {
    BeforeNext(cfg, trace, n);
    SyncStep(cfg, Before(cfg, trace, n), trace(n), bk, t);
  }

  /** Between two reconciles, an entry is lost only if it is taken away. */
  lemma {:induction false} LostBetween(cfg: Config, trace: nat -> Event, bk: BindingKey, t: Tenant, a: nat, b: nat)
    requires a <= b && forall j :: a <= j < b ==> !SyncsAt(cfg, trace, bk, j)
    requires t in ListBefore(cfg, trace, bk, a) && t !in ListBefore(cfg, trace, bk, b)
    ensures exists j :: a <= j < b && TakenAway(cfg, trace, bk, t, j)
    decreases b - a
  {
    if t in ListBefore(cfg, trace, bk, a + 1) {
      LostBetween(cfg, trace, bk, t, a + 1, b);
    } else {
      LostHere(cfg, trace, bk, t, a);
    }
  }

  lemma LostHere(cfg: Config, trace: nat -> Event, bk: BindingKey, t: Tenant, n: nat)
    requires !SyncsAt(cfg, trace, bk, n)
    requires t in ListBefore(cfg, trace, bk, n) && t !in ListBefore(cfg, trace, bk, n + 1)
    ensures TakenAway(cfg, trace, bk, t, n)
  {
    BeforeNext(cfg, trace, n);
    if Latest(BindingHistory(Before(cfg, trace, n + 1).bindings, bk)).Some? {
      DropCauses(cfg, Before(cfg, trace, n), trace(n), bk, t);
    }
  }

  /* ---- the countdown, apart from what is counted ---- */

  /** The round at `m` leaves the entry listed exactly if it was listed and is not due. */
  predicate DropsIfDue(round: nat -> bool, time: nat -> int, listed: nat -> bool, due: int, m: nat) {
    round(m) ==> (listed(m + 1) <==> listed(m) && time(m) < due)
  }

  /** If the round at `m` leaves the entry listed, some later round comes at most `half` later. */
  ghost predicate GoesOn(round: nat -> bool, time: nat -> int, listed: nat -> bool, half: nat, m: nat) {
    round(m) && listed(m + 1) ==> exists m' :: m < m' && round(m') && time(m) < time(m') <= time(m) + half
  }

  predicate Ordered(round: nat -> bool, time: nat -> int, a: nat, b: nat) {
    a <= b && round(a) && round(b) ==> time(a) <= time(b)
  }

  /** Between rounds, the entry is lost only if it is taken away. */
  ghost predicate LosesIfTaken(round: nat -> bool, listed: nat -> bool, taken: nat -> bool, a: nat, b: nat) {
    a <= b && listed(a) && !listed(b) && (forall j :: a <= j < b ==> !round(j)) ==> exists j :: a <= j < b && taken(j)
  }

  ghost predicate CountsDown(round: nat -> bool, time: nat -> int, listed: nat -> bool, taken: nat -> bool,
                             due: int, half: nat, i: nat) {
    && (forall m :: i <= m ==> DropsIfDue(round, time, listed, due, m))
    && (forall m :: i <= m ==> GoesOn(round, time, listed, half, m))
    && (forall a, b :: i <= a ==> LosesIfTaken(round, listed, taken, a, b))
    && (forall a, b :: i <= a ==> Ordered(round, time, a, b))
  }

  /** The round at `n` leaves the entry unlisted; it is the first one that is due, or else the entry has
      been taken away before. */
  ghost predicate RunsDown(round: nat -> bool, time: nat -> int, listed: nat -> bool, taken: nat -> bool,
                           due: int, half: nat, i: nat, n: nat) {
    && n >= i && round(n) && !listed(n + 1) && time(n) < due + half
    && (due <= time(n) || exists j :: i < j < n && taken(j))
    && (forall m :: i <= m < n && round(m) ==> listed(m + 1) && time(m) < due)
  }

  /** Some round in time leaves the entry unlisted. */
  lemma {:induction false} Countdown(round: nat -> bool, time: nat -> int, listed: nat -> bool, taken: nat -> bool,
                                     due: int, half: nat, i: nat) returns (n: nat)
    requires CountsDown(round, time, listed, taken, due, half, i)
    requires round(i) && listed(i) && time(i) < due + half
    ensures n >= i && round(n) && !listed(n + 1) && time(n) < due + half
    decreases due - time(i)
  {
    assert DropsIfDue(round, time, listed, due, i);
    if due <= time(i) {
      n := i;
    } else {
      assert GoesOn(round, time, listed, half, i);
      var m: nat :| i < m && round(m) && time(i) < time(m) <= time(i) + half;
      if listed(m) {
        n := Countdown(round, time, listed, taken, due, half, m);
      } else {
        n := m;
        assert DropsIfDue(round, time, listed, due, m);
      }
    }
  }

  /** The first such round, and the last round before it. */
  lemma FirstUnlisted(round: nat -> bool, listed: nat -> bool, i: nat, last: nat) returns (n: nat, p: nat)
    requires i <= last && round(i) && round(last) && !listed(last + 1)
    ensures i <= n <= last && round(n) && !listed(n + 1)
    ensures forall m :: i <= m < n && round(m) ==> listed(m + 1)
    ensures i < n ==> i <= p < n && round(p) && forall m :: p < m < n ==> !round(m)
  {
    n, p := i, i;
    while !(round(n) && !listed(n + 1))
      invariant i <= n <= last && i <= p <= n && round(p)
      invariant forall m :: i <= m < n && round(m) ==> listed(m + 1)
      invariant forall m :: p < m < n ==> !round(m)
      invariant i < n ==> p < n
      decreases last - n
    {
      if round(n) { p := n; }
      n := n + 1;
    }
  }

  lemma FirstRunsDown(round: nat -> bool, time: nat -> int, listed: nat -> bool, taken: nat -> bool,
                      due: int, half: nat, i: nat) returns (n: nat)
    requires CountsDown(round, time, listed, taken, due, half, i)
    requires round(i) && listed(i) && time(i) < due + half
    ensures RunsDown(round, time, listed, taken, due, half, i, n)
  {
    var last := Countdown(round, time, listed, taken, due, half, i);
    var p;
    n, p := FirstUnlisted(round, listed, i, last);
    assert Ordered(round, time, n, last);
    assert DropsIfDue(round, time, listed, due, n);
    if i < n && !listed(n) {
      assert listed(p + 1);
      assert LosesIfTaken(round, listed, taken, p + 1, n);
    }
    forall m | i <= m < n && round(m) ensures listed(m + 1) && time(m) < due {
      assert DropsIfDue(round, time, listed, due, m);
    }
  }

  /* ---- ... and why reconciles count down ---- */

  lemma ReconcileDrops(cfg: Config, trace: nat -> Event, bk: BindingKey, t: Tenant, m: nat)
    requires cfg.ttl > 0
    ensures DropsIfDue(Rounds(cfg, trace, bk), Times(trace), Listings(cfg, trace, bk, t), Expiry(cfg, t), m)
  {
    if SyncsAt(cfg, trace, bk, m) { SyncEvicts(cfg, trace, bk, t, m); }
  }

  lemma ReconcilesGoOn(cfg: Config, trace: nat -> Event, bk: BindingKey, t: Tenant, i: nat, m: nat)
    requires cfg.ttl >= 2 && OnTime(cfg, trace, bk, i) && i <= m
    ensures GoesOn(Rounds(cfg, trace, bk), Times(trace), Listings(cfg, trace, bk, t), Half(cfg), m)
  {
    if SyncsAt(cfg, trace, bk, m) && t in ListBefore(cfg, trace, bk, m + 1) {
      RequeueFires(cfg.ttl, ListBefore(cfg, trace, bk, m + 1));
      assert Answered(cfg, trace, bk, m);
      var m' :| Punctual(cfg, trace, bk, m, m');
      assert Rounds(cfg, trace, bk)(m');
      assert Times(trace)(m) < Times(trace)(m') <= Times(trace)(m) + Half(cfg);
    }
  }

  lemma ReconcilesLose(cfg: Config, trace: nat -> Event, bk: BindingKey, t: Tenant, a: nat, b: nat)
    ensures LosesIfTaken(Rounds(cfg, trace, bk), Listings(cfg, trace, bk, t), Removals(cfg, trace, bk, t), a, b)
  {
    var round, listed, taken := Rounds(cfg, trace, bk), Listings(cfg, trace, bk, t), Removals(cfg, trace, bk, t);
    if a <= b && listed(a) && !listed(b) && forall j :: a <= j < b ==> !round(j) {
      forall j: nat | a <= j < b ensures !SyncsAt(cfg, trace, bk, j) { assert !round(j); }
      LostBetween(cfg, trace, bk, t, a, b);
      var j :| a <= j < b && TakenAway(cfg, trace, bk, t, j);
      assert taken(j);
    }
  }

  lemma ReconcilesOrdered(cfg: Config, trace: nat -> Event, bk: BindingKey, i: nat, a: nat, b: nat)
    requires OnTime(cfg, trace, bk, i) && i <= a
    ensures Ordered(Rounds(cfg, trace, bk), Times(trace), a, b)
  {
    assert InOrder(cfg, trace, bk, a, b);
  }

  lemma ReconcilesCountDown(cfg: Config, trace: nat -> Event, bk: BindingKey, t: Tenant, i: nat)
    requires cfg.ttl >= 2 && OnTime(cfg, trace, bk, i)
    ensures CountsDown(Rounds(cfg, trace, bk), Times(trace), Listings(cfg, trace, bk, t), Removals(cfg, trace, bk, t),
                       Expiry(cfg, t), Half(cfg), i)
  {
    var round, time := Rounds(cfg, trace, bk), Times(trace);
    var listed, taken := Listings(cfg, trace, bk, t), Removals(cfg, trace, bk, t);
    var due, half := Expiry(cfg, t), Half(cfg);
    forall m: nat | i <= m ensures DropsIfDue(round, time, listed, due, m) { ReconcileDrops(cfg, trace, bk, t, m); }
    forall m: nat | i <= m ensures GoesOn(round, time, listed, half, m) { ReconcilesGoOn(cfg, trace, bk, t, i, m); }
    forall a: nat, b: nat ensures LosesIfTaken(round, listed, taken, a, b) { ReconcilesLose(cfg, trace, bk, t, a, b); }
    forall a: nat, b: nat | i <= a ensures Ordered(round, time, a, b) { ReconcilesOrdered(cfg, trace, bk, i, a, b); }
  }

  /** In any unending run whose reconciles come on time, an entry last refreshed at s is gone after
      some reconcile before s+TTL+floor(TTL/2).  Unless it is taken away before, that reconcile is the
      first one at or after s+TTL, and all reconciles before it have kept the entry. */
  lemma EvictedInTime(cfg: Config, trace: nat -> Event, bk: BindingKey, t: Tenant, i: nat) returns (n: nat)
    requires cfg.ttl >= 2 && OnTime(cfg, trace, bk, i)
    requires SyncsAt(cfg, trace, bk, i) && t in ListBefore(cfg, trace, bk, i)
    requires TimeOf(trace(i)) < Expiry(cfg, t) + Half(cfg)
    ensures n >= i && SyncsAt(cfg, trace, bk, n) && t !in ListBefore(cfg, trace, bk, n + 1)
    ensures TimeOf(trace(n)) < Expiry(cfg, t) + Half(cfg)
    ensures Expiry(cfg, t) <= TimeOf(trace(n)) || exists j :: i < j < n && TakenAway(cfg, trace, bk, t, j)
    ensures forall m :: i <= m < n && SyncsAt(cfg, trace, bk, m) ==>
              t in ListBefore(cfg, trace, bk, m + 1) && TimeOf(trace(m)) < Expiry(cfg, t)
  {
    FirstRound(cfg, trace, bk, t, i);
    ReconcilesCountDown(cfg, trace, bk, t, i);
    n := FirstRunsDown(Rounds(cfg, trace, bk), Times(trace), Listings(cfg, trace, bk, t), Removals(cfg, trace, bk, t),
                   Expiry(cfg, t), Half(cfg), i);
    ReconcilesRunDown(cfg, trace, bk, t, i, n);
  }

  lemma FirstRound(cfg: Config, trace: nat -> Event, bk: BindingKey, t: Tenant, i: nat)
    requires SyncsAt(cfg, trace, bk, i) && t in ListBefore(cfg, trace, bk, i)
    ensures Rounds(cfg, trace, bk)(i) && Listings(cfg, trace, bk, t)(i) && Times(trace)(i) == TimeOf(trace(i))
  {
  }

  lemma ReconcilesRunDown(cfg: Config, trace: nat -> Event, bk: BindingKey, t: Tenant, i: nat, n: nat)
    requires RunsDown(Rounds(cfg, trace, bk), Times(trace), Listings(cfg, trace, bk, t), Removals(cfg, trace, bk, t),
                      Expiry(cfg, t), Half(cfg), i, n)
    ensures n >= i && SyncsAt(cfg, trace, bk, n) && t !in ListBefore(cfg, trace, bk, n + 1)
    ensures TimeOf(trace(n)) < Expiry(cfg, t) + Half(cfg)
    ensures Expiry(cfg, t) <= TimeOf(trace(n)) || exists j :: i < j < n && TakenAway(cfg, trace, bk, t, j)
    ensures forall m :: i <= m < n && SyncsAt(cfg, trace, bk, m) ==>
              t in ListBefore(cfg, trace, bk, m + 1) && TimeOf(trace(m)) < Expiry(cfg, t)
  {
    if TimeOf(trace(n)) < Expiry(cfg, t) {
      var j: nat :| i < j < n && Removals(cfg, trace, bk, t)(j);
      assert TakenAway(cfg, trace, bk, t, j);
    }
    forall m: nat | i <= m < n && SyncsAt(cfg, trace, bk, m)
      ensures t in ListBefore(cfg, trace, bk, m + 1) && TimeOf(trace(m)) < Expiry(cfg, t)
    {
      assert Rounds(cfg, trace, bk)(m);
    }
  }
}
