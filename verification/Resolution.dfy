/** Config resolution: the tenant -> group -> default chain over field indexes, the registry's
    choice of binding, and the GetConfig answer. */
module Resolution {
  import opened Api

  datatype Listed = Listed(key: BindingKey, binding: Binding)
  datatype ListedConfig = ListedConfig(ns: string, name: string, config: Resource)

  /** What the informer cache shows to the reads of one call, in its list order: the bindings to the
      list by tenant and to the list by group, the PipelineConfigs to the Get and to the list of
      defaults.  The cache may move on between these reads. */
  datatype View = View(
    byTenant: seq<Listed>, byGroup: seq<Listed>, configs: seq<ListedConfig>, defaults: seq<ListedConfig>)

  /** All reads see the same moment. */
  function OneMoment(bs: seq<Listed>, cs: seq<ListedConfig>): View { View(bs, bs, cs, cs) }

  /* ---- field indexes ---- */

  datatype FieldIndex = TenantRefIndex | CollectorGroupRefIndex | PipelineConfigRefIndex

  function IndexValues(ix: FieldIndex, b: Binding): seq<string> {
    match ix
    case TenantRefIndex => if b.spec.tenantRef == "" then [] else [b.spec.tenantRef]
    case CollectorGroupRefIndex => if b.spec.collectorGroupRef == "" then [] else [b.spec.collectorGroupRef]
    case PipelineConfigRefIndex => [b.spec.pipelineConfigRef]
  }

  /** `List` with `InNamespace` and `MatchingFields`. */
  function ListMatching(bs: seq<Listed>, ns: string, ix: FieldIndex, value: string): seq<Listed> {
    if bs == [] then []
    else
      var rest := ListMatching(bs[1..], ns, ix, value);
      if bs[0].key.ns == ns && value in IndexValues(ix, bs[0].binding) then [bs[0]] + rest else rest
  }

  function ListDefaults(cs: seq<ListedConfig>, ns: string): seq<ListedConfig> {
    if cs == [] then []
    else
      var rest := ListDefaults(cs[1..], ns);
      if cs[0].ns == ns && cs[0].config.isDefault then [cs[0]] + rest else rest
  }

  function GetPipelineConfig(cs: seq<ListedConfig>, ns: string, name: string): Option<Resource> {
    if cs == [] then None
    else if cs[0].ns == ns && cs[0].name == name then Some(cs[0].config)
    else GetPipelineConfig(cs[1..], ns, name)
  }

  /* ---- the resolver and the service ---- */

  datatype ResolverResult =
    | Resolved(content: string, contentHash: string)
    | ConfigNotFound
    | ConfigNotReady
    | OtherError

  function ContentOf(r: Resource): string { if r.spec.ConfigSpec? then r.spec.content else "" }

  function ToPipelineResult(r: Resource): ResolverResult {
    if r.status.contentHash == "" then ConfigNotReady else Resolved(ContentOf(r), r.status.contentHash)
  }

  function ResolveByIndex(bs: seq<Listed>, cs: seq<ListedConfig>, ns: string, ix: FieldIndex, value: string)
    : ResolverResult
  {
    var items := ListMatching(bs, ns, ix, value);
    if items == [] then ConfigNotFound
    else match GetPipelineConfig(cs, ns, items[0].binding.spec.pipelineConfigRef)
      case None => OtherError
      case Some(pc) => ToPipelineResult(pc)
  }

  function ResolveDefault(v: View, ns: string): ResolverResult {
    var items := ListDefaults(v.defaults, ns);
    if items == [] then ConfigNotFound else ToPipelineResult(items[0].config)
  }

  datatype Code = NotFound | Unavailable | Internal
  datatype ServiceResult = Found(content: string, contentHash: string) | Error(code: Code)

  function MapError(r: ResolverResult): ServiceResult {
    match r
    case Resolved(content, contentHash) => Found(content, contentHash)
    case ConfigNotFound => Error(NotFound)
    case ConfigNotReady => Error(Unavailable)
    case OtherError => Error(Internal)
  }

  function ResolveConfig(v: View, ns: string, tenant: string, group: string): ServiceResult {
    var byTenant :=
      if tenant != "" then ResolveByIndex(v.byTenant, v.configs, ns, TenantRefIndex, tenant) else ConfigNotFound;
    if !byTenant.ConfigNotFound? then MapError(byTenant)
    else
      var byGroup :=
        if group != "" then ResolveByIndex(v.byGroup, v.configs, ns, CollectorGroupRefIndex, group) else ConfigNotFound;
      if !byGroup.ConfigNotFound? then MapError(byGroup)
      else MapError(ResolveDefault(v, ns))
  }

  datatype Response = NotModified | Served(content: string, hash: string) | Failed(code: Code)

  function GetConfig(v: View, ns: string, tenant: string, group: string, hash: string): Response {
    match ResolveConfig(v, ns, tenant, group)
    case Error(code) => Failed(code)
    case Found(content, contentHash) => if hash == contentHash then NotModified else Served(content, contentHash)
  }

  /* ---- the registry's choice ---- */

  function FindBinding(v: View, ns: string, tenant: string, group: string): Option<Listed> {
    var byTenant := if tenant != "" then ListMatching(v.byTenant, ns, TenantRefIndex, tenant) else [];
    if byTenant != [] then Some(byTenant[0])
    else
      var byGroup := if group != "" then ListMatching(v.byGroup, ns, CollectorGroupRefIndex, group) else [];
      if byGroup != [] then Some(byGroup[0]) else None
  }

  /* ---- first-match specification, by scanning everything ---- */

  predicate TenantMatch(l: Listed, ns: string, tenant: string) {
    tenant != "" && l.key.ns == ns && l.binding.spec.tenantRef == tenant
  }

  predicate GroupMatch(l: Listed, ns: string, group: string) {
    group != "" && l.key.ns == ns && l.binding.spec.collectorGroupRef == group
  }

  predicate AnyTenantMatch(v: View, ns: string, tenant: string) {
    exists i :: 0 <= i < |v.byTenant| && TenantMatch(v.byTenant[i], ns, tenant)
  }

  predicate AnyGroupMatch(v: View, ns: string, group: string) {
    exists i :: 0 <= i < |v.byGroup| && GroupMatch(v.byGroup[i], ns, group)
  }

  /** The list that the deciding binding is in: a group match decides only when no tenant match
      exists. */
  function DecidingList(v: View, ns: string, tenant: string): seq<Listed> {
    if AnyTenantMatch(v, ns, tenant) then v.byTenant else v.byGroup
  }

  /** Binding `i` of the deciding list decides: it is the first match. */
  predicate Decides(v: View, ns: string, tenant: string, group: string, i: nat) {
    var bs := DecidingList(v, ns, tenant);
    && i < |bs|
    && if AnyTenantMatch(v, ns, tenant)
       then TenantMatch(bs[i], ns, tenant) && forall j :: 0 <= j < i ==> !TenantMatch(bs[j], ns, tenant)
       else GroupMatch(bs[i], ns, group) && forall j :: 0 <= j < i ==> !GroupMatch(bs[j], ns, group)
  }

  predicate IsDefault(l: ListedConfig, ns: string) { l.ns == ns && l.config.isDefault }

  predicate FirstDefault(v: View, ns: string, i: nat) {
    i < |v.defaults| && IsDefault(v.defaults[i], ns) && forall j :: 0 <= j < i ==> !IsDefault(v.defaults[j], ns)
  }

  /** The answer that a PipelineConfig gives rise to; nothing else is consulted. */
  function AnswerOf(pc: Option<Resource>): ServiceResult {
    if pc.None? then Error(Internal)
    else if pc.value.status.contentHash == "" then Error(Unavailable)
    else Found(ContentOf(pc.value), pc.value.status.contentHash)
  }

  function ConfigOf(v: View, l: Listed): Option<Resource> {
    GetPipelineConfig(v.configs, l.key.ns, l.binding.spec.pipelineConfigRef)
  }

  /* ---- lists through an index find the first match ---- */

  predicate Indexed(l: Listed, ns: string, ix: FieldIndex, value: string) {
    l.key.ns == ns && value in IndexValues(ix, l.binding)
  }

  /** Item `i` is the first one with this value under the index. */
  predicate FirstIndexed(bs: seq<Listed>, ns: string, ix: FieldIndex, value: string, i: nat) {
    i < |bs| && Indexed(bs[i], ns, ix, value) && forall j :: 0 <= j < i ==> !Indexed(bs[j], ns, ix, value)
  }

  lemma {:induction false} ListFindsFirst(bs: seq<Listed>, ns: string, ix: FieldIndex, value: string)
    ensures ListMatching(bs, ns, ix, value) == [] <==> forall i :: 0 <= i < |bs| ==> !Indexed(bs[i], ns, ix, value)
    ensures forall i: nat :: FirstIndexed(bs, ns, ix, value, i) ==>
              ListMatching(bs, ns, ix, value) != [] && ListMatching(bs, ns, ix, value)[0] == bs[i]
  {
    if bs != [] {
      ListFindsFirst(bs[1..], ns, ix, value);
      assert forall i :: 0 < i < |bs| ==> bs[i] == bs[1..][i - 1];
      if !Indexed(bs[0], ns, ix, value) {
        forall i: nat | FirstIndexed(bs, ns, ix, value, i)
          ensures ListMatching(bs, ns, ix, value) != [] && ListMatching(bs, ns, ix, value)[0] == bs[i]
        {
          IndexedShift(bs, ns, ix, value, i);
        }
      }
    }
  }

  lemma IndexedShift(bs: seq<Listed>, ns: string, ix: FieldIndex, value: string, i: nat)
    requires FirstIndexed(bs, ns, ix, value, i) && !Indexed(bs[0], ns, ix, value)
    ensures i > 0 && FirstIndexed(bs[1..], ns, ix, value, i - 1) && bs[i] == bs[1..][i - 1]
  {
    assert forall j :: 0 <= j < i - 1 ==> bs[1..][j] == bs[j + 1];
  }

  lemma {:induction false} DefaultsFindFirst(cs: seq<ListedConfig>, ns: string)
    ensures ListDefaults(cs, ns) == [] <==> forall i :: 0 <= i < |cs| ==> !IsDefault(cs[i], ns)
    ensures forall i :: 0 <= i < |cs| && IsDefault(cs[i], ns) && (forall j :: 0 <= j < i ==> !IsDefault(cs[j], ns)) ==>
              ListDefaults(cs, ns) != [] && ListDefaults(cs, ns)[0] == cs[i]
  {
    if cs != [] {
      DefaultsFindFirst(cs[1..], ns);
      if !IsDefault(cs[0], ns) {
        assert forall i :: 0 < i < |cs| ==> cs[i] == cs[1..][i - 1];
        forall i | 0 <= i < |cs| && IsDefault(cs[i], ns) && (forall j :: 0 <= j < i ==> !IsDefault(cs[j], ns))
          ensures ListDefaults(cs, ns) != [] && ListDefaults(cs, ns)[0] == cs[i]
        {
          assert cs[1..][i - 1] == cs[i];
        }
      }
    }
  }

  /** Config `i` is the first one listed under this name. */
  predicate FirstNamed(cs: seq<ListedConfig>, ns: string, name: string, i: nat) {
    && i < |cs| && cs[i].ns == ns && cs[i].name == name
    && forall j :: 0 <= j < i ==> !(cs[j].ns == ns && cs[j].name == name)
  }

  predicate NoneNamed(cs: seq<ListedConfig>, ns: string, name: string) {
    forall i :: 0 <= i < |cs| ==> !(cs[i].ns == ns && cs[i].name == name)
  }

  /** A Get returns the first config of that name, and nothing exactly if there is none. */
  lemma {:induction false} GetFindsNamed(cs: seq<ListedConfig>, ns: string, name: string)
    ensures GetPipelineConfig(cs, ns, name).None? <==> NoneNamed(cs, ns, name)
    ensures forall i: nat :: FirstNamed(cs, ns, name, i) ==> GetPipelineConfig(cs, ns, name) == Some(cs[i].config)
    ensures GetPipelineConfig(cs, ns, name).Some? ==> exists i: nat :: FirstNamed(cs, ns, name, i)
  {
    if cs != [] {
      if cs[0].ns == ns && cs[0].name == name {
        assert FirstNamed(cs, ns, name, 0);
      } else {
        GetFindsNamed(cs[1..], ns, name);
        assert forall i :: 0 < i < |cs| ==> cs[i] == cs[1..][i - 1];
        forall i: nat | i < |cs[1..]| ensures FirstNamed(cs, ns, name, i + 1) <==> FirstNamed(cs[1..], ns, name, i) {
          NamedShift(cs, ns, name, i);
        }
        forall i: nat | FirstNamed(cs, ns, name, i) ensures GetPipelineConfig(cs, ns, name) == Some(cs[i].config) {
          assert i > 0 && FirstNamed(cs[1..], ns, name, i - 1) by { NamedShift(cs, ns, name, i - 1); }
        }
        if GetPipelineConfig(cs, ns, name).Some? {
          var i: nat :| FirstNamed(cs[1..], ns, name, i);
          assert FirstNamed(cs, ns, name, i + 1);
        }
      }
    }
  }

  lemma NamedShift(cs: seq<ListedConfig>, ns: string, name: string, i: nat)
    requires cs != [] && !(cs[0].ns == ns && cs[0].name == name) && i < |cs[1..]|
    ensures FirstNamed(cs, ns, name, i + 1) <==> FirstNamed(cs[1..], ns, name, i)
  {
    assert forall j :: 0 < j < |cs| ==> cs[j] == cs[1..][j - 1];
    if FirstNamed(cs, ns, name, i + 1) {
      assert forall j :: 0 <= j < i ==> cs[1..][j] == cs[j + 1];
    }
  }

  lemma IndexesMatch(l: Listed, ns: string, tenant: string, group: string)
    ensures tenant != "" ==> (Indexed(l, ns, TenantRefIndex, tenant) <==> TenantMatch(l, ns, tenant))
    ensures group != "" ==> (Indexed(l, ns, CollectorGroupRefIndex, group) <==> GroupMatch(l, ns, group))
  {
  }

  /** The registry finds exactly the deciding binding. */
  lemma FindBindingDecides(v: View, ns: string, tenant: string, group: string)
    ensures FindBinding(v, ns, tenant, group).None? <==> !AnyTenantMatch(v, ns, tenant) && !AnyGroupMatch(v, ns, group)
    ensures forall i: nat :: Decides(v, ns, tenant, group, i) ==>
              FindBinding(v, ns, tenant, group) == Some(DecidingList(v, ns, tenant)[i])
  {
    ListFindsFirst(v.byTenant, ns, TenantRefIndex, tenant);
    ListFindsFirst(v.byGroup, ns, CollectorGroupRefIndex, group);
    forall l: Listed
      ensures tenant != "" ==> (Indexed(l, ns, TenantRefIndex, tenant) <==> TenantMatch(l, ns, tenant))
      ensures group != "" ==> (Indexed(l, ns, CollectorGroupRefIndex, group) <==> GroupMatch(l, ns, group))
    {
      IndexesMatch(l, ns, tenant, group);
    }
    forall i: nat | Decides(v, ns, tenant, group, i)
      ensures FindBinding(v, ns, tenant, group) == Some(DecidingList(v, ns, tenant)[i])
    {
      if AnyTenantMatch(v, ns, tenant) {
        assert FirstIndexed(v.byTenant, ns, TenantRefIndex, tenant, i);
      } else {
        assert FirstIndexed(v.byGroup, ns, CollectorGroupRefIndex, group, i);
      }
    }
  }

  lemma {:induction false} LeastTenant(v: View, ns: string, tenant: string, i: nat) returns (least: nat)
    requires i < |v.byTenant| && TenantMatch(v.byTenant[i], ns, tenant)
    ensures least <= i && TenantMatch(v.byTenant[least], ns, tenant)
    ensures forall j :: 0 <= j < least ==> !TenantMatch(v.byTenant[j], ns, tenant)
  {
    least := 0;
    while !TenantMatch(v.byTenant[least], ns, tenant)
      invariant least <= i && forall j :: 0 <= j < least ==> !TenantMatch(v.byTenant[j], ns, tenant)
      decreases i - least
    {
      least := least + 1;
    }
  }

  lemma {:induction false} LeastGroup(v: View, ns: string, group: string, i: nat) returns (least: nat)
    requires i < |v.byGroup| && GroupMatch(v.byGroup[i], ns, group)
    ensures least <= i && GroupMatch(v.byGroup[least], ns, group)
    ensures forall j :: 0 <= j < least ==> !GroupMatch(v.byGroup[j], ns, group)
  {
    least := 0;
    while !GroupMatch(v.byGroup[least], ns, group)
      invariant least <= i && forall j :: 0 <= j < least ==> !GroupMatch(v.byGroup[j], ns, group)
      decreases i - least
    {
      least := least + 1;
    }
  }

  /** Some binding decides exactly when there is a match. */
  lemma DeciderExists(v: View, ns: string, tenant: string, group: string)
    ensures (exists i: nat :: Decides(v, ns, tenant, group, i)) <==>
              AnyTenantMatch(v, ns, tenant) || AnyGroupMatch(v, ns, group)
  {
    if AnyTenantMatch(v, ns, tenant) {
      var i :| 0 <= i < |v.byTenant| && TenantMatch(v.byTenant[i], ns, tenant);
      var least := LeastTenant(v, ns, tenant, i);
      assert Decides(v, ns, tenant, group, least);
    } else if AnyGroupMatch(v, ns, group) {
      var i :| 0 <= i < |v.byGroup| && GroupMatch(v.byGroup[i], ns, group);
      var least := LeastGroup(v, ns, group, i);
      assert Decides(v, ns, tenant, group, least);
    }
  }

  /* ---- main results ---- */

  /** Resolution and registration agree: whatever binding the registry finds, its PipelineConfig
      alone gives the answer, be it missing or unready; and none is found exactly when the default
      is consulted. */
  lemma RegistryAndResolverAgree(v: View, ns: string, tenant: string, group: string)
    ensures var b := FindBinding(v, ns, tenant, group);
            ResolveConfig(v, ns, tenant, group) ==
              if b.Some? then AnswerOf(ConfigOf(v, b.value)) else MapError(ResolveDefault(v, ns))
  {
    FirstInNamespace(v.byTenant, ns, TenantRefIndex, tenant);
    FirstInNamespace(v.byGroup, ns, CollectorGroupRefIndex, group);
  }

  lemma FirstInNamespace(bs: seq<Listed>, ns: string, ix: FieldIndex, value: string)
    ensures ListMatching(bs, ns, ix, value) != [] ==> ListMatching(bs, ns, ix, value)[0].key.ns == ns
  {
  }

  lemma {:induction false} ListedIndexed(bs: seq<Listed>, ns: string, ix: FieldIndex, value: string)
    ensures forall l :: l in ListMatching(bs, ns, ix, value) <==> l in bs && Indexed(l, ns, ix, value)
  {
    if bs != [] {
      ListedIndexed(bs[1..], ns, ix, value);
      assert bs == [bs[0]] + bs[1..];
    }
  }

  /** The name that the deciding binding gives to its PipelineConfig. */
  function NameIn(v: View, ns: string, tenant: string, i: nat): string
    requires i < |DecidingList(v, ns, tenant)|
  {
    DecidingList(v, ns, tenant)[i].binding.spec.pipelineConfigRef
  }

  /** The deciding binding names a config that is listed, and that config is the one to answer. */
  predicate Chosen(v: View, ns: string, tenant: string, group: string, i: nat, j: nat) {
    Decides(v, ns, tenant, group, i) && FirstNamed(v.configs, ns, NameIn(v, ns, tenant, i), j)
  }

  /** The answer is what this config gives rise to: its own content and hash, if it has one. */
  predicate Answers(res: ServiceResult, r: Resource) {
    if r.status.contentHash == "" then res == Error(Unavailable)
    else res.Found? && res.contentHash == r.status.contentHash && (r.spec.ConfigSpec? ==> res.content == r.spec.content)
  }

  /** Resolution refines first-match over everything listed: the config that the deciding binding names
      gives the answer, be it missing or unhashed; with no decider the first default does. */
  lemma ResolutionIsFirstMatch(v: View, ns: string, tenant: string, group: string)
    ensures forall i: nat, j: nat :: Chosen(v, ns, tenant, group, i, j) ==>
              Answers(ResolveConfig(v, ns, tenant, group), v.configs[j].config)
    ensures forall i: nat :: Decides(v, ns, tenant, group, i) && NoneNamed(v.configs, ns, NameIn(v, ns, tenant, i)) ==>
              ResolveConfig(v, ns, tenant, group) == Error(Internal)
    ensures !AnyTenantMatch(v, ns, tenant) && !AnyGroupMatch(v, ns, group) ==>
              && (forall i: nat :: FirstDefault(v, ns, i) ==>
                  Answers(ResolveConfig(v, ns, tenant, group), v.defaults[i].config))
              && ((forall i :: 0 <= i < |v.defaults| ==> !IsDefault(v.defaults[i], ns)) ==>
                  ResolveConfig(v, ns, tenant, group) == Error(NotFound))
  {
    forall i: nat | Decides(v, ns, tenant, group, i)
      ensures ResolveConfig(v, ns, tenant, group) ==
                AnswerOf(GetPipelineConfig(v.configs, ns, NameIn(v, ns, tenant, i)))
      ensures GetPipelineConfig(v.configs, ns, NameIn(v, ns, tenant, i)).None? <==>
                NoneNamed(v.configs, ns, NameIn(v, ns, tenant, i))
      ensures forall j: nat :: FirstNamed(v.configs, ns, NameIn(v, ns, tenant, i), j) ==>
                GetPipelineConfig(v.configs, ns, NameIn(v, ns, tenant, i)) == Some(v.configs[j].config)
    {
      DeciderAnswers(v, ns, tenant, group, i);
      GetFindsNamed(v.configs, ns, NameIn(v, ns, tenant, i));
    }
    RegistryAndResolverAgree(v, ns, tenant, group);
    FindBindingDecides(v, ns, tenant, group);
    DefaultsFindFirst(v.defaults, ns);
  }

  lemma DeciderAnswers(v: View, ns: string, tenant: string, group: string, i: nat)
    requires Decides(v, ns, tenant, group, i)
    ensures ResolveConfig(v, ns, tenant, group) == AnswerOf(GetPipelineConfig(v.configs, ns, NameIn(v, ns, tenant, i)))
  {
    RegistryAndResolverAgree(v, ns, tenant, group);
    FindBindingDecides(v, ns, tenant, group);
  }

  /** Each error means exactly one thing. */
  lemma ErrorCodes(v: View, ns: string, tenant: string, group: string)
    ensures ResolveConfig(v, ns, tenant, group) == Error(NotFound) <==>
              && !AnyTenantMatch(v, ns, tenant) && !AnyGroupMatch(v, ns, group)
              && forall i :: 0 <= i < |v.defaults| ==> !IsDefault(v.defaults[i], ns)
    ensures ResolveConfig(v, ns, tenant, group) == Error(Internal) <==>
              exists i: nat :: Decides(v, ns, tenant, group, i) && NoneNamed(v.configs, ns, NameIn(v, ns, tenant, i))
    ensures ResolveConfig(v, ns, tenant, group) == Error(Unavailable) <==>
              || (exists i: nat, j: nat ::
                    Chosen(v, ns, tenant, group, i, j) && v.configs[j].config.status.contentHash == "")
              || (!AnyTenantMatch(v, ns, tenant) && !AnyGroupMatch(v, ns, group)
                  && exists i: nat :: FirstDefault(v, ns, i) && v.defaults[i].config.status.contentHash == "")
  {
    ResolutionIsFirstMatch(v, ns, tenant, group);
    DeciderExists(v, ns, tenant, group);
    if !AnyTenantMatch(v, ns, tenant) && !AnyGroupMatch(v, ns, group) {
      FirstDefaultExists(v, ns);
      assert forall i: nat :: !Decides(v, ns, tenant, group, i);
    } else {
      var i: nat :| Decides(v, ns, tenant, group, i);
      assert forall j: nat :: Decides(v, ns, tenant, group, j) ==> j == i;
      DeciderErrors(v, ns, tenant, group, i);
      if ResolveConfig(v, ns, tenant, group) == Error(Unavailable) {
        var j: nat :|
          FirstNamed(v.configs, ns, NameIn(v, ns, tenant, i), j) && v.configs[j].config.status.contentHash == "";
        assert Chosen(v, ns, tenant, group, i, j);
      }
    }
  }

  lemma DeciderErrors(v: View, ns: string, tenant: string, group: string, i: nat)
    requires Decides(v, ns, tenant, group, i)
    ensures var res, name := ResolveConfig(v, ns, tenant, group), NameIn(v, ns, tenant, i);
            && res != Error(NotFound)
            && (res == Error(Internal) <==> NoneNamed(v.configs, ns, name))
            && (res == Error(Unavailable) <==>
                 exists j: nat :: FirstNamed(v.configs, ns, name, j) && v.configs[j].config.status.contentHash == "")
  {
    DeciderAnswers(v, ns, tenant, group, i);
    GetFindsNamed(v.configs, ns, NameIn(v, ns, tenant, i));
  }

  lemma FirstDefaultExists(v: View, ns: string)
    ensures (exists i: nat :: FirstDefault(v, ns, i)) <==>
              !forall i :: 0 <= i < |v.defaults| ==> !IsDefault(v.defaults[i], ns)
    ensures forall i: nat, j: nat :: FirstDefault(v, ns, i) && FirstDefault(v, ns, j) ==> i == j
  {
    if i :| 0 <= i < |v.defaults| && IsDefault(v.defaults[i], ns) {
      var least: nat := 0;
      while !IsDefault(v.defaults[least], ns)
        invariant least <= i && forall j :: 0 <= j < least ==> !IsDefault(v.defaults[j], ns)
        decreases i - least
      {
        least := least + 1;
      }
      assert FirstDefault(v, ns, least);
    }
  }

  /** NotModified is answered only to a request that holds the very hash of the resolved config,
      never to one with an empty hash; any other config is served whole, and an error is passed on. */
  lemma NotModifiedMeansSameHash(v: View, ns: string, tenant: string, group: string, hash: string)
    ensures var r, res := GetConfig(v, ns, tenant, group, hash), ResolveConfig(v, ns, tenant, group);
            && (r.NotModified? <==> res.Found? && res.contentHash == hash)
            && (r.NotModified? ==> hash != "")
            && (r.Served? ==> res == Found(r.content, r.hash) && r.hash != "" && r.hash != hash)
            && (r.Failed? <==> res.Error?) && (r.Failed? ==> res == Error(r.code))
  {
    RegistryAndResolverAgree(v, ns, tenant, group);
    if FindBinding(v, ns, tenant, group).None? {
      assert ResolveDefault(v, ns).Resolved? ==> ResolveDefault(v, ns).contentHash != "";
    }
  }

  /* ---- independence of list order, and of the tenant lists ---- */

  ghost predicate UniqueMatches(v: View, ns: string, tenant: string, group: string) {
    && (forall a, b :: a in v.byTenant && b in v.byTenant ==>
         TenantMatch(a, ns, tenant) && TenantMatch(b, ns, tenant) ==> a == b)
    && (forall a, b :: a in v.byGroup && b in v.byGroup ==>
         GroupMatch(a, ns, group) && GroupMatch(b, ns, group) ==> a == b)
  }

  predicate SameElements(bs: seq<Listed>, cs: seq<Listed>) {
    (forall l :: l in bs ==> l in cs) && (forall l :: l in cs ==> l in bs)
  }

  /** With unique matches the registry and the resolver may list the bindings in different orders. */
  lemma AnyOrderAgrees(v: View, w: View, ns: string, tenant: string, group: string)
    requires SameElements(v.byTenant, w.byTenant) && SameElements(v.byGroup, w.byGroup)
    requires UniqueMatches(v, ns, tenant, group)
    ensures FindBinding(v, ns, tenant, group) == FindBinding(w, ns, tenant, group)
  {
    forall l: Listed
      ensures tenant != "" ==> (Indexed(l, ns, TenantRefIndex, tenant) <==> TenantMatch(l, ns, tenant))
      ensures group != "" ==> (Indexed(l, ns, CollectorGroupRefIndex, group) <==> GroupMatch(l, ns, group))
    {
      IndexesMatch(l, ns, tenant, group);
    }
    if tenant != "" { SameFirst(v.byTenant, w.byTenant, ns, TenantRefIndex, tenant); }
    if group != "" { SameFirst(v.byGroup, w.byGroup, ns, CollectorGroupRefIndex, group); }
  }

  lemma SameFirst(bs: seq<Listed>, cs: seq<Listed>, ns: string, ix: FieldIndex, value: string)
    requires SameElements(bs, cs)
    requires forall a, b | a in bs && b in bs :: Indexed(a, ns, ix, value) && Indexed(b, ns, ix, value) ==> a == b
    ensures var l, m := ListMatching(bs, ns, ix, value), ListMatching(cs, ns, ix, value);
            (l == [] <==> m == []) && (l != [] ==> l[0] == m[0])
  {
    var l, m := ListMatching(bs, ns, ix, value), ListMatching(cs, ns, ix, value);
    ListedIndexed(bs, ns, ix, value);
    ListedIndexed(cs, ns, ix, value);
    assert l != [] ==> l[0] in m;
    assert m != [] ==> m[0] in l;
  }

  predicate SameSpecs(bs: seq<Listed>, cs: seq<Listed>) {
    |bs| == |cs| && forall i :: 0 <= i < |bs| ==> bs[i].key == cs[i].key && bs[i].binding.spec == cs[i].binding.spec
  }

  lemma {:induction false} SpecsDecideLists(bs: seq<Listed>, cs: seq<Listed>, ns: string, ix: FieldIndex, value: string)
    requires SameSpecs(bs, cs)
    ensures SameSpecs(ListMatching(bs, ns, ix, value), ListMatching(cs, ns, ix, value))
  {
    if bs != [] {
      SpecsDecideLists(bs[1..], cs[1..], ns, ix, value);
    }
  }

  /** Answers depend on the specs of bindings only, never on their status. */
  lemma StatusDoesNotMatter(v: View, w: View, ns: string, tenant: string, group: string)
    requires SameSpecs(v.byTenant, w.byTenant) && SameSpecs(v.byGroup, w.byGroup)
    requires v.configs == w.configs && v.defaults == w.defaults
    ensures ResolveConfig(v, ns, tenant, group) == ResolveConfig(w, ns, tenant, group)
  {
    SpecsDecideLists(v.byTenant, w.byTenant, ns, TenantRefIndex, tenant);
    SpecsDecideLists(v.byGroup, w.byGroup, ns, CollectorGroupRefIndex, group);
  }
}
