/** `NotModified` as a cache protocol: across any run of the operator, what a collector holds after its
    polls is what was resolved for them if and only if every answer carries the hash of its content. */
module Coherence {
  import opened Api
  import opened Histories
  import opened Protocol
  import opened Invariants
  import opened Versions
  import opened Resolution

  /** What a collector remembers of its last served config. */
  datatype Collector = Collector(hash: string, content: string)

  const FRESH_COLLECTOR := Collector("", "")

  datatype Action =
    | Act(event: Event)
    | Poll(view: View, ns: string, tenant: string, group: string)

  datatype World = World(sys: System, collector: Collector)

  function Receive(c: Collector, r: Response): Collector {
    match r
    case NotModified => c
    case Served(content, hash) => Collector(hash, content)
    case Failed(_) => c
  }

  function Play(cfg: Protocol.Config, w: World, a: Action): World {
    match a
    case Act(e) => w.(sys := Step(cfg, w.sys, e))
    case Poll(v, ns, tenant, group) =>
      w.(collector := Receive(w.collector, GetConfig(v, ns, tenant, group, w.collector.hash)))
  }

  function PlayAll(cfg: Protocol.Config, actions: seq<Action>): World {
    if actions == [] then World(INITIAL, FRESH_COLLECTOR)
    else Play(cfg, PlayAll(cfg, actions[..|actions| - 1]), actions[|actions| - 1])
  }

  /** The PipelineConfig that decides the answer, if one is found. */
  function Selected(v: View, ns: string, tenant: string, group: string): Option<Resource> {
    var b := FindBinding(v, ns, tenant, group);
    if b.Some? then ConfigOf(v, b.value)
    else if ListDefaults(v.defaults, ns) != [] then Some(ListDefaults(v.defaults, ns)[0].config)
    else None
  }

  /** Every PipelineConfig in the view is some version, possibly an old one, from the store. */
  ghost predicate Snapshot(s: System, v: View) {
    forall l :: l in v.configs + v.defaults ==>
      Some(l.config) in ResourceHistory(s.resources, ResourceKey(PipelineConfig, l.ns, l.name))
  }

  /** The answer comes from a PipelineConfig whose status is valid and up to date. */
  predicate AnsweredSettled(v: View, ns: string, tenant: string, group: string) {
    Selected(v, ns, tenant, group).Some? && Settled(Selected(v, ns, tenant, group).value)
  }

  lemma FoundIsSelected(v: View, ns: string, tenant: string, group: string)
    ensures ResolveConfig(v, ns, tenant, group).Found? ==>
              && Selected(v, ns, tenant, group).Some?
              && var r := Selected(v, ns, tenant, group).value;
              && ResolveConfig(v, ns, tenant, group) == Found(ContentOf(r), r.status.contentHash)
              && exists l :: l in v.configs + v.defaults && l.config == r
  {
    RegistryAndResolverAgree(v, ns, tenant, group);
    var b := FindBinding(v, ns, tenant, group);
    if b.Some? {
      GotIsListed(v.configs, b.value.key.ns, b.value.binding.spec.pipelineConfigRef);
    } else {
      DefaultIsListed(v.defaults, ns);
    }
  }

  lemma {:induction false} GotIsListed(cs: seq<ListedConfig>, ns: string, name: string)
    ensures GetPipelineConfig(cs, ns, name).Some? ==>
              exists l :: l in cs && l.config == GetPipelineConfig(cs, ns, name).value
  {
    if cs != [] {
      if cs[0].ns == ns && cs[0].name == name {
        assert cs[0] in cs;
      } else {
        GotIsListed(cs[1..], ns, name);
      }
    }
  }

  lemma {:induction false} DefaultIsListed(cs: seq<ListedConfig>, ns: string)
    ensures ListDefaults(cs, ns) != [] ==> ListDefaults(cs, ns)[0] in cs
  {
    if cs != [] { DefaultIsListed(cs[1..], ns); }
  }

  /** An answer comes from a stored version. */
  lemma AnswerIsStored(s: System, v: View, ns: string, tenant: string, group: string)
    returns (k: ResourceKey, j: nat)
    requires WellFormed(s) && Snapshot(s, v) && ResolveConfig(v, ns, tenant, group).Found?
    ensures var h, res := ResourceHistory(s.resources, k), ResolveConfig(v, ns, tenant, group);
            && j < |h| && h[j] == Selected(v, ns, tenant, group) && h[j].Some? && h[j].value.spec.ConfigSpec?
            && res == Found(h[j].value.spec.content, h[j].value.status.contentHash)
            && res.contentHash != ""
  {
    FoundIsSelected(v, ns, tenant, group);
    NotModifiedMeansSameHash(v, ns, tenant, group, "");
    var r := Selected(v, ns, tenant, group).value;
    var l :| l in v.configs + v.defaults && l.config == r;
    k := ResourceKey(PipelineConfig, l.ns, l.name);
    var h := ResourceHistory(s.resources, k);
    assert KindOk(k, h);
    j :| 0 <= j < |h| && h[j] == Some(r);
  }

  /** A settled answer carries the hash of its content. */
  lemma SettledAnswer(cfg: Protocol.Config, s: System, v: View, ns: string, tenant: string, group: string)
    requires WellFormed(s) && GoodVersions(cfg, s) && Snapshot(s, v)
    requires ResolveConfig(v, ns, tenant, group).Found? && AnsweredSettled(v, ns, tenant, group)
    ensures var res := ResolveConfig(v, ns, tenant, group); res.contentHash == cfg.hash(res.content)
  {
    var k, j := AnswerIsStored(s, v, ns, tenant, group);
    assert GoodResources(cfg, ResourceHistory(s.resources, k));
    assert GoodResource(cfg, ResourceHistory(s.resources, k)[j].value);
  }

  /** Settled or not, an answer carries the hash of a non-empty content that the PipelineConfig it came
      from has had in this or an earlier version; it carries the hash of its own content exactly if
      that content is the same. */
  lemma AnswerOrigin(cfg: Protocol.Config, s: System, v: View, ns: string, tenant: string, group: string)
    returns (k: ResourceKey, i: nat, j: nat)
    requires WellFormed(s) && GoodVersions(cfg, s) && Snapshot(s, v) && ResolveConfig(v, ns, tenant, group).Found?
    ensures var h, res := ResourceHistory(s.resources, k), ResolveConfig(v, ns, tenant, group);
            && i <= j < |h| && h[j] == Selected(v, ns, tenant, group)
            && h[j].Some? && ContentOf(h[j].value) == res.content
            && HashedFrom(cfg, h, res.contentHash, i, j)
            && (Injective(cfg.hash) ==>
                 (res.contentHash == cfg.hash(res.content) <==> ContentOf(h[i].value) == res.content))
  {
    k, j := AnswerIsStored(s, v, ns, tenant, group);
    assert GoodResources(cfg, ResourceHistory(s.resources, k));
    i := OriginOf(cfg, ResourceHistory(s.resources, k), j);
  }

  /* ---- coherence ---- */

  function Answer(a: Action): ServiceResult
    requires a.Poll?
  {
    ResolveConfig(a.view, a.ns, a.tenant, a.group)
  }

  /** The poll finds nothing, or is answered with a content and its hash. */
  predicate Honest(cfg: Protocol.Config, a: Action) {
    a.Poll? && Answer(a).Found? ==> Answer(a).contentHash == cfg.hash(Answer(a).content)
  }

  /** The poll finds nothing, or the collector holds the content that was resolved, and its hash. */
  predicate HoldsAnswer(cfg: Protocol.Config, c: Collector, a: Action) {
    a.Poll? && Answer(a).Found? ==> c == Collector(cfg.hash(Answer(a).content), Answer(a).content)
  }

  /** The collector holds nothing yet, or a content together with its own hash. */
  predicate Coherent(cfg: Protocol.Config, c: Collector) {
    c == FRESH_COLLECTOR || c.hash == cfg.hash(c.content)
  }

  lemma HonestPoll(cfg: Protocol.Config, w: World, a: Action)
    requires Injective(cfg.hash) && Coherent(cfg, w.collector) && Honest(cfg, a)
    ensures Coherent(cfg, Play(cfg, w, a).collector) && HoldsAnswer(cfg, Play(cfg, w, a).collector, a)
  {
    if a.Poll? { NotModifiedMeansSameHash(a.view, a.ns, a.tenant, a.group, w.collector.hash); }
  }

  /** Holding the answer shows that it was honest: it was served, or it has the hash that is held. */
  lemma HeldIsHonest(cfg: Protocol.Config, w: World, a: Action)
    requires HoldsAnswer(cfg, Play(cfg, w, a).collector, a)
    ensures Honest(cfg, a)
  {
    if a.Poll? { NotModifiedMeansSameHash(a.view, a.ns, a.tenant, a.group, w.collector.hash); }
  }

  lemma PlayNext(cfg: Protocol.Config, actions: seq<Action>, i: nat)
    requires i < |actions|
    ensures PlayAll(cfg, actions[..i + 1]) == Play(cfg, PlayAll(cfg, actions[..i]), actions[i])
  {
    var fs := actions[..i + 1];
    assert fs[..|fs| - 1] == actions[..i];
  }

  lemma {:induction false} StaysCoherent(cfg: Protocol.Config, actions: seq<Action>, i: nat)
    requires Injective(cfg.hash) && i <= |actions| && forall j :: 0 <= j < |actions| ==> Honest(cfg, actions[j])
    ensures Coherent(cfg, PlayAll(cfg, actions[..i]).collector)
  {
    if i > 0 {
      StaysCoherent(cfg, actions, i - 1);
      PlayNext(cfg, actions, i - 1);
      HonestPoll(cfg, PlayAll(cfg, actions[..i - 1]), actions[i - 1]);
    }
  }

  ghost predicate AllHonest(cfg: Protocol.Config, actions: seq<Action>) {
    forall i :: 0 <= i < |actions| ==> Honest(cfg, actions[i])
  }

  ghost predicate AlwaysHeld(cfg: Protocol.Config, actions: seq<Action>) {
    forall i :: 0 <= i < |actions| ==> HoldsAnswer(cfg, PlayAll(cfg, actions[..i + 1]).collector, actions[i])
  }

  /** End to end, across any run of edits, rebinds and polls: after every poll that finds a config the
      collector holds its content together with the hash of that content, if and only if every answer
      carries the hash of its own content. */
  lemma CacheCoherence(cfg: Protocol.Config, actions: seq<Action>)
    requires Injective(cfg.hash)
    ensures AllHonest(cfg, actions) <==> AlwaysHeld(cfg, actions)
  {
    forall i | 0 <= i < |actions|
      ensures AllHonest(cfg, actions) ==> HoldsAnswer(cfg, PlayAll(cfg, actions[..i + 1]).collector, actions[i])
      ensures HoldsAnswer(cfg, PlayAll(cfg, actions[..i + 1]).collector, actions[i]) ==> Honest(cfg, actions[i])
    {
      CoherentAt(cfg, actions, i);
    }
  }

  lemma CoherentAt(cfg: Protocol.Config, actions: seq<Action>, i: nat)
    requires Injective(cfg.hash) && i < |actions|
    ensures AllHonest(cfg, actions) ==> HoldsAnswer(cfg, PlayAll(cfg, actions[..i + 1]).collector, actions[i])
    ensures HoldsAnswer(cfg, PlayAll(cfg, actions[..i + 1]).collector, actions[i]) ==> Honest(cfg, actions[i])
  {
    var w := PlayAll(cfg, actions[..i]);
    PlayNext(cfg, actions, i);
    if AllHonest(cfg, actions) {
      StaysCoherent(cfg, actions, i);
      HonestPoll(cfg, w, actions[i]);
    }
    if HoldsAnswer(cfg, Play(cfg, w, actions[i]).collector, actions[i]) { HeldIsHonest(cfg, w, actions[i]); }
  }

  /* ---- settled answers are honest ---- */

  lemma {:induction false} RunsBehind(cfg: Protocol.Config, actions: seq<Action>) returns (es: seq<Event>)
    ensures PlayAll(cfg, actions).sys == Run(cfg, INITIAL, es)
  {
    es := [];
    if actions != [] {
      es := RunsBehind(cfg, actions[..|actions| - 1]);
      var a := actions[|actions| - 1];
      if a.Act? {
        assert (es + [a.event])[..|es|] == es;
        es := es + [a.event];
      }
    }
  }

  ghost predicate PollOk(s: System, a: Action) {
    a.Poll? ==>
      && Snapshot(s, a.view)
      && (Answer(a).Found? ==> AnsweredSettled(a.view, a.ns, a.tenant, a.group))
  }

  /** So if every answer comes from a settled PipelineConfig, the collector always holds what was
      resolved for it. */
  lemma SettledCoherence(cfg: Protocol.Config, actions: seq<Action>)
    requires Injective(cfg.hash)
    requires forall i :: 0 <= i < |actions| ==> PollOk(PlayAll(cfg, actions[..i]).sys, actions[i])
    ensures AlwaysHeld(cfg, actions)
  {
    forall i | 0 <= i < |actions| ensures Honest(cfg, actions[i]) {
      SettledIsHonest(cfg, actions[..i], actions[i]);
    }
    CacheCoherence(cfg, actions);
  }

  lemma SettledIsHonest(cfg: Protocol.Config, actions: seq<Action>, a: Action)
    requires PollOk(PlayAll(cfg, actions).sys, a)
    ensures Honest(cfg, a)
  {
    if a.Poll? && Answer(a).Found? {
      var es := RunsBehind(cfg, actions);
      VersionsStayGood(cfg, es);
      SettledAnswer(cfg, PlayAll(cfg, actions).sys, a.view, a.ns, a.tenant, a.group);
    }
  }

  /* ---- answers that are not honest ---- */

  function OnlyDefault(ns: string, r: Resource): View { View([], [], [], [ListedConfig(ns, "default", r)]) }

  /** A collector that polls between an edit and its reconcile gets the new content under the old
      hash.  If the edit is then undone and reconciled, the next poll is answered NotModified by a
      settled PipelineConfig, and the collector keeps the content that was withdrawn. */
  lemma UnsettledAnswerSticks(cfg: Protocol.Config, ns: string, r: Resource, withdrawn: string)
    requires NonEmptyHashes(cfg) && r.isDefault && r.spec.ConfigSpec? && r.meta.finalizer && !r.meta.deleting
    requires r.spec.content != "" && r.spec.content != withdrawn
    requires Settled(r) && r.status.contentHash == cfg.hash(r.spec.content)
    ensures var edited := Edited(r, ConfigSpec(withdrawn, r.spec.description), true);
            var undone := ReconciledResource(cfg, Edited(edited, r.spec, true));
            var c := Receive(FRESH_COLLECTOR, GetConfig(OnlyDefault(ns, edited), ns, "", "", FRESH_COLLECTOR.hash));
            && undone.Some? && Settled(undone.value) && ContentOf(undone.value) == r.spec.content
            && GetConfig(OnlyDefault(ns, undone.value), ns, "", "", c.hash) == NotModified
            && c.content == withdrawn != r.spec.content
  {
    var edited := Edited(r, ConfigSpec(withdrawn, r.spec.description), true);
    var back := Edited(edited, r.spec, true);
    FindAfterSet(back.status.conditions,
                 Condition(CONTENT_VALID, ConditionTrue, "ContentValid", back.meta.generation), CONTENT_VALID);
    var undone := ReconciledResource(cfg, back).value;
    assert ListDefaults(OnlyDefault(ns, edited).defaults, ns) == [ListedConfig(ns, "default", edited)];
    assert ListDefaults(OnlyDefault(ns, undone).defaults, ns) == [ListedConfig(ns, "default", undone)];
  }

  /** Emptying the content leaves the old hash in place for good: once the edit is reconciled, the
      empty content is served under the hash of the content before it, and a collector that held
      that content is told NotModified. */
  lemma EmptiedContentKeepsOldHash(cfg: Protocol.Config, ns: string, r: Resource, c: Collector)
    requires Injective(cfg.hash) && NonEmptyHashes(cfg)
    requires r.isDefault && r.spec.ConfigSpec? && r.meta.finalizer && !r.meta.deleting && r.spec.content != ""
    requires r.status.contentHash == cfg.hash(r.spec.content)
    ensures var emptied := ReconciledResource(cfg, Edited(r, ConfigSpec("", r.spec.description), true));
            && emptied.Some? && emptied.value.status.observedGeneration == emptied.value.meta.generation
            && !Settled(emptied.value) && emptied.value.status.contentHash != cfg.hash("")
            && GetConfig(OnlyDefault(ns, emptied.value), ns, "", "", c.hash)
            == if c.hash == cfg.hash(r.spec.content) then NotModified else Served("", cfg.hash(r.spec.content))
  {
    var edited := Edited(r, ConfigSpec("", r.spec.description), true);
    FindAfterSet(edited.status.conditions,
                 Condition(CONTENT_VALID, ConditionFalse, "EmptyContent", edited.meta.generation), CONTENT_VALID);
    var emptied := ReconciledResource(cfg, edited).value;
    assert ListDefaults(OnlyDefault(ns, emptied).defaults, ns) == [ListedConfig(ns, "default", emptied)];
  }

  /* ---- ... as a run ---- */

  const DEFAULT := ResourceKey(PipelineConfig, "n", "default")
  const RECONCILE := Act(ReconcileResource(DEFAULT, 0, Healthy))

  function Created(content: string): Resource {
    Resource(Meta(1, false, false), true, ConfigSpec(content, ""), NEW_RESOURCE_STATUS)
  }

  function Finalized(content: string): Resource { Created(content).(meta := Meta(1, true, false)) }

  function Hashed(cfg: Protocol.Config, r: Resource): Resource { r.(status := HashedStatus(cfg, r, ContentOf(r))) }

  function WithContent(r: Resource, content: string): Resource { Edited(r, ConfigSpec(content, ""), true) }

  function PollOf(r: Resource): Action { Poll(OnlyDefault("n", r), "n", "", "") }

  function EditTo(content: string): Action { Act(EditResource(DEFAULT, ConfigSpec(content, ""), true)) }

  /** What is stored and what the collector holds. */
  predicate Shows(w: World, r: Resource, c: Collector) {
    Latest(ResourceHistory(w.sys.resources, DEFAULT)) == Some(r) && w.collector == c
  }

  lemma PlaySnoc(cfg: Protocol.Config, actions: seq<Action>, a: Action)
    ensures PlayAll(cfg, actions + [a]) == Play(cfg, PlayAll(cfg, actions), a)
  {
    assert (actions + [a])[..|actions|] == actions;
  }

  lemma ReconcileShows(cfg: Protocol.Config, w: World, r: Resource, c: Collector)
    requires Shows(w, r, c) && !r.meta.deleting && r.spec.ConfigSpec?
    ensures var r' := if r.meta.finalizer then Hashed(cfg, r) else r.(meta := r.meta.(finalizer := true));
            Shows(Play(cfg, w, RECONCILE), r', c)
  {
  }

  lemma EditShows(cfg: Protocol.Config, w: World, r: Resource, c: Collector, content: string)
    requires Shows(w, r, c)
    ensures Shows(Play(cfg, w, EditTo(content)), WithContent(r, content), c)
  {
  }

  function SetUp(content: string): seq<Action> {
    [] + [Act(CreateResource(DEFAULT, ConfigSpec(content, ""), true))] + [RECONCILE] + [RECONCILE]
  }

  lemma SetUpShows(cfg: Protocol.Config, content: string)
    ensures Shows(PlayAll(cfg, SetUp(content)), Hashed(cfg, Finalized(content)), FRESH_COLLECTOR)
  {
    var create := Act(CreateResource(DEFAULT, ConfigSpec(content, ""), true));
    PlaySnoc(cfg, [], create);
    assert Shows(PlayAll(cfg, [] + [create]), Created(content), FRESH_COLLECTOR);
    PlaySnoc(cfg, [] + [create], RECONCILE);
    ReconcileShows(cfg, PlayAll(cfg, [] + [create]), Created(content), FRESH_COLLECTOR);
    PlaySnoc(cfg, [] + [create] + [RECONCILE], RECONCILE);
    ReconcileShows(cfg, PlayAll(cfg, [] + [create] + [RECONCILE]), Finalized(content), FRESH_COLLECTOR);
  }

  /** From the empty store: create, edit, poll, undo, poll.  Each poll sees what is stored, and the last
      one is answered by a settled PipelineConfig, yet the collector is left with withdrawn content. */
  lemma StuckCollector(cfg: Protocol.Config, content: string, withdrawn: string)
    requires NonEmptyHashes(cfg) && content != "" && content != withdrawn
    ensures var first := Hashed(cfg, Finalized(content));
            var edited := WithContent(first, withdrawn);
            var undone := Hashed(cfg, WithContent(edited, content));
            var before := SetUp(content) + [EditTo(withdrawn)];
            var after := before + [PollOf(edited)] + [EditTo(content)] + [RECONCILE];
            && Latest(ResourceHistory(PlayAll(cfg, before).sys.resources, DEFAULT)) == Some(edited)
            && Latest(ResourceHistory(PlayAll(cfg, after).sys.resources, DEFAULT)) == Some(undone) && Settled(undone)
            && Answer(PollOf(undone)) == Found(content, cfg.hash(content))
            && PlayAll(cfg, after + [PollOf(undone)]).collector == Collector(cfg.hash(content), withdrawn)
  {
    var first := Hashed(cfg, Finalized(content));
    SetUpShows(cfg, content);
    FindAfterSet([], Condition(CONTENT_VALID, ConditionTrue, "ContentValid", 1), CONTENT_VALID);
    UnsettledAnswerSticks(cfg, "n", first, withdrawn);
    StuckAfter(cfg, SetUp(content), first, content, withdrawn);
  }

  lemma StuckAfter(cfg: Protocol.Config, actions: seq<Action>, first: Resource, content: string, withdrawn: string)
    requires Shows(PlayAll(cfg, actions), first, FRESH_COLLECTOR) && NonEmptyHashes(cfg)
    requires first == Hashed(cfg, Finalized(content)) && content != "" && content != withdrawn
    ensures var edited := WithContent(first, withdrawn);
            var undone := Hashed(cfg, WithContent(edited, content));
            var before := actions + [EditTo(withdrawn)];
            var after := before + [PollOf(edited)] + [EditTo(content)] + [RECONCILE];
            && Shows(PlayAll(cfg, before), edited, FRESH_COLLECTOR)
            && Shows(PlayAll(cfg, after), undone, Collector(cfg.hash(content), withdrawn))
            && PlayAll(cfg, after + [PollOf(undone)]).collector == Collector(cfg.hash(content), withdrawn)
  {
    var edited := WithContent(first, withdrawn);
    var back := WithContent(edited, content);
    var undone := Hashed(cfg, back);
    var c := Collector(cfg.hash(content), withdrawn);
    var before := actions + [EditTo(withdrawn)];
    PlaySnoc(cfg, actions, EditTo(withdrawn));
    EditShows(cfg, PlayAll(cfg, actions), first, FRESH_COLLECTOR, withdrawn);
    PlaySnoc(cfg, before, PollOf(edited));
    PollShows(cfg, PlayAll(cfg, before), edited, FRESH_COLLECTOR);
    PlaySnoc(cfg, before + [PollOf(edited)], EditTo(content));
    EditShows(cfg, PlayAll(cfg, before + [PollOf(edited)]), edited, c, content);
    PlaySnoc(cfg, before + [PollOf(edited)] + [EditTo(content)], RECONCILE);
    ReconcileShows(cfg, PlayAll(cfg, before + [PollOf(edited)] + [EditTo(content)]), back, c);
    var after := before + [PollOf(edited)] + [EditTo(content)] + [RECONCILE];
    PlaySnoc(cfg, after, PollOf(undone));
    PollShows(cfg, PlayAll(cfg, after), undone, c);
  }

  lemma PollShows(cfg: Protocol.Config, w: World, r: Resource, c: Collector)
    requires Shows(w, r, c) && r.isDefault && r.status.contentHash != ""
    ensures Answer(PollOf(r)) == Found(ContentOf(r), r.status.contentHash)
    ensures Shows(Play(cfg, w, PollOf(r)), r,
                  if c.hash == r.status.contentHash then c else Collector(r.status.contentHash, ContentOf(r)))
  {
    assert ListDefaults(OnlyDefault("n", r).defaults, "n") == [ListedConfig("n", "default", r)];
  }
}
