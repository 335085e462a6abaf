/** The watch on PipelineConfigs: a change enqueues exactly the bindings that reference it, and
    reconciling those brings every one of them to the new hash. */
module Fanout {
  import opened Api
  import opened Histories
  import opened Protocol
  import opened Invariants
  import opened Resolution
  import opened Confluence
  import opened RegistryWrites

  /** A binding must be reconciled when PipelineConfig `ns`/`name` changes. */
  predicate References(l: Listed, ns: string, name: string) {
    l.key.ns == ns && l.binding.spec.pipelineConfigRef == name
  }

  /** Lists through the pipelineConfigRef index and turns each item into a request. */
  method EnqueueBindings(cache: seq<Listed>, ns: string, name: string) returns (reqs: seq<BindingKey>)
    ensures forall bk :: bk in reqs <==> exists l :: l in cache && References(l, ns, name) && l.key == bk
    ensures |reqs| == |ListMatching(cache, ns, PipelineConfigRefIndex, name)|
  {
    var items := ListMatching(cache, ns, PipelineConfigRefIndex, name);
    ListedIndexed(cache, ns, PipelineConfigRefIndex, name);
    assert forall l :: l in items <==> l in cache && References(l, ns, name);
    reqs := [];
    for i := 0 to |items|
      invariant |reqs| == i
      invariant forall j :: 0 <= j < i ==> reqs[j] == items[j].key
    {
      reqs := reqs + [items[i].key];
    }
    forall bk ensures bk in reqs <==> exists l :: l in cache && References(l, ns, name) && l.key == bk {
      if bk in reqs {
        var j :| 0 <= j < |reqs| && reqs[j] == bk;
        assert items[j] in cache;
      }
      if l :| l in cache && References(l, ns, name) && l.key == bk {
        var j :| 0 <= j < |items| && items[j] == l;
        assert reqs[j] == bk;
      }
    }
  }

  lemma {:induction false} ListedIsStored(m: Bindings, bks: seq<BindingKey>, bk: BindingKey)
    requires bk in bks && Latest(BindingHistory(m, bk)).Some?
    ensures Listed(bk, Latest(BindingHistory(m, bk)).value) in ListBindings(m, bks)
  {
    if bks[0] != bk { ListedIsStored(m, bks[1..], bk); }
  }

  /** Once the enqueued live bindings have been reconciled, in any order and any number of times,
      every one whose references resolve reports the hash of the changed PipelineConfig. */
  lemma FanoutSettlesHashes(cfg: Protocol.Config, s: System, bks: seq<BindingKey>, k: ResourceKey, rs: seq<Request>,
                            bk: BindingKey)
    requires Quiescent(s) && k.kind.PipelineConfig? && Exists(s, k)
    requires forall i :: 0 <= i < |rs| ==> Live(s, rs[i].bk)
    requires forall l :: l in ListBindings(s.bindings, bks) && References(l, k.ns, k.name) && Live(s, l.key) ==>
              l.key in Keys(rs)
    requires bk in bks && Live(s, bk) && Resolvable(s, bk)
    requires bk.ns == k.ns && Stored(s, bk).value.spec.pipelineConfigRef == k.name
    ensures var t := Run(cfg, s, Batch(rs));
            && Exists(t, k) && ContentHash(t, k) == ContentHash(s, k)
            && Stored(t, bk).Some? && Stored(t, bk).value.status.configHash == ContentHash(t, k)
  {
    BatchReconciles(cfg, s, rs);
    var t := Run(cfg, s, Batch(rs));
    ListedIsStored(s.bindings, bks, bk);
    assert References(Listed(bk, Stored(s, bk).value), k.ns, k.name);
    assert bk in Keys(rs);
    assert ConfigKey(bk, k.name) == k;
    SameResolvable(s, t);
  }
}
