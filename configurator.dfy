/** The Configurator of elasticluster/conf.py that builds Cluster objects:
    create_cluster (the cluster configuration, its group counts, its cloud
    and setup providers, then the Cluster with its nodes) and load_cluster
    (a cluster rebuilt from its stored record).

    The storage is a map from cluster name to stored record, standing for the
    JSON files that ClusterStorage reads. Python 2 lists the keys of a dict in
    an order set by their hashes and by the dict's insertion, deletion and
    resize history; the model takes it to depend only on the key set, and
    `dictOrder` is that order for the group map. */
module Configurator {
  import opened Common
  import opened Conf
  import opened Cluster

  /** `dictOrder` lists every key of a key set exactly once. */
  ghost predicate ListsKeys(dictOrder: set<string> -> seq<string>) {
    forall keys :: Distinct(dictOrder(keys)) && forall g :: g in dictOrder(keys) <==> g in keys
  }

  /** What create_cluster hands to the Cluster constructor; `extra` is the
      keyword arguments, `None` standing for Python's `None`. */
  datatype Assembly = Assembly(
    name: Value, cloud: Value, cloudProvider: CloudProvider, setupProvider: SetupProvider,
    counts: map<string, int>, extra: map<string, Option<Value>>)

  /** `"cloud/" + name` and `"setup/" + name` only accept a string name; an
      integer override is a TypeError. */
  function SectionName(v: Value): (r: Result<string>)
    ensures r.Ok? <==> v.Str?
  {
    if v.Str? then Ok(v.s) else Err(TypeError)
  }

  /** The keys create_cluster pops before the rest becomes `**extra`. */
  const Popped: set<string> := {"name", "cloud", "setup_provider", "ssh_to"}

  /** The parameters of `Cluster.__init__` that the remaining keys, passed as
      `**config`, can still collide with (a TypeError in Python). */
  const ClusterParams: set<string> := {"self", "template", "cloud_provider", "nodes", "configurator"}

  /** The keyword arguments of the Cluster call: `ssh_to`, popped with a
      default of `None`, and every key create_cluster does not pop. */
  function Keywords(config: map<string, Value>): (kw: map<string, Option<Value>>)
    ensures kw.Keys == (config.Keys - Popped) + {"ssh_to"}
    ensures kw["ssh_to"] == (if "ssh_to" in config then Some(config["ssh_to"]) else None)
    ensures forall k :: k in config && k !in Popped ==> kw[k] == Some(config[k])
  {
    (map k | k in config.Keys - Popped :: Some(config[k]))["ssh_to" := if "ssh_to" in config then Some(config["ssh_to"]) else None]
  }

  /** The arguments of the Cluster constructor, from the cluster configuration
      with its overrides applied: the group counts, then the cloud provider,
      then the setup provider, each error escaping in that order. */
  function AssemblyOf(st: Store, env: map<string, string>, template: string, config: map<string, Value>)
    : (r: Result<Assembly>)
    requires "name" in config && "cloud" in config && "setup_provider" in config
    ensures r.Ok? ==> && r.value.name == config["name"] && r.value.cloud == config["cloud"]
                      && NodeCounts(config) == Ok(r.value.counts)
                      && r.value.extra == Keywords(config) && (config.Keys - Popped) !! ClusterParams
  {
    var counts :- NodeCounts(config);
    var cloudName :- SectionName(config["cloud"]);
    var cloudProvider :- CloudProviderFor(st, env, cloudName);
    var setupName :- SectionName(config["setup_provider"]);
    var setupProvider :- SetupProviderFor(st, setupName, template);
    if !((config.Keys - Popped) !! ClusterParams) then Err(TypeError)
    else Ok(Assembly(config["name"], config["cloud"], cloudProvider, setupProvider, counts, Keywords(config)))
  }

  function AssemblyFor(st: Store, env: map<string, string>, template: string, overrides: map<string, Value>)
    : Result<Assembly>
  {
    var config :- ClusterConfig(st, template, overrides);
    AssemblyOf(st, env, template, config)
  }

  /** The configuration a successful assembly was made from. */
  lemma AssemblyConfig(st: Store, env: map<string, string>, template: string, overrides: map<string, Value>)
    returns (section: Section, config: map<string, Value>)
    requires AssemblyFor(st, env, template, overrides).Ok?
    ensures ReadClusterSection(st, template) == Ok(section)
    ensures ConfigWithOverrides(section, template, overrides) == Ok(config)
    ensures "name" in config && "cloud" in config && "setup_provider" in config
    ensures AssemblyFor(st, env, template, overrides) == AssemblyOf(st, env, template, config)
  {
    section := ReadClusterSection(st, template).value;
    config := ConfigWithOverrides(section, template, overrides).value;
  }

  /** The cluster is named after its template unless a `name` override is
      given, as load_cluster does with the stored name. */
  lemma AssemblyName(st: Store, env: map<string, string>, template: string, overrides: map<string, Value>)
    requires AssemblyFor(st, env, template, overrides).Ok?
    ensures AssemblyFor(st, env, template, overrides).value.name
            == if "name" in overrides then overrides["name"] else Str(template)
  {
    var section, config := AssemblyConfig(st, env, template, overrides);
  }

  /** The group counts of a configuration with its overrides applied: one
      group per `<group>_nodes` key of the section or the overrides, an
      override winning. */
  lemma CountsOfConfig(section: Section, template: string, overrides: map<string, Value>,
                       config: map<string, Value>, counts: map<string, int>)
    requires ConfigWithOverrides(section, template, overrides) == Ok(config)
    requires NodeCounts(config) == Ok(counts)
    ensures forall g :: g in counts <==> g + "_nodes" in section || g + "_nodes" in overrides
    ensures forall g :: g + "_nodes" in overrides ==> Some(counts[g]) == IntOf(overrides[g + "_nodes"])
    ensures forall g :: g + "_nodes" in section && g + "_nodes" !in overrides ==>
                          Some(counts[g]) == ParseInt(section[g + "_nodes"])
  {
    forall g | g + "_nodes" in section && g + "_nodes" !in overrides
      ensures Some(counts[g]) == ParseInt(section[g + "_nodes"])
    {
      assert g + "_nodes" != "name";
      assert config[g + "_nodes"] == Str(section[g + "_nodes"]);
    }
  }

  /** The groups are the `<group>_nodes` keys of the cluster section and of
      the overrides, and an override sets its group's count (as start's
      `<group>_nodes` overrides do). */
  lemma AssemblyCounts(st: Store, env: map<string, string>, template: string, overrides: map<string, Value>)
    requires AssemblyFor(st, env, template, overrides).Ok?
    ensures var a := AssemblyFor(st, env, template, overrides).value;
            var section := ReadClusterSection(st, template).value;
            && (forall g :: g in a.counts <==> g + "_nodes" in section || g + "_nodes" in overrides)
            && (forall g :: g + "_nodes" in overrides ==> Some(a.counts[g]) == IntOf(overrides[g + "_nodes"]))
            && (forall g :: g + "_nodes" in section && g + "_nodes" !in overrides ==>
                             Some(a.counts[g]) == ParseInt(section[g + "_nodes"]))
  {
    var section, config := AssemblyConfig(st, env, template, overrides);
    CountsOfConfig(section, template, overrides, config, AssemblyFor(st, env, template, overrides).value.counts);
  }

  /** The keyword arguments of the Cluster call for a configuration with
      its overrides applied: every key of the section and of the overrides
      but the popped ones, an override winning, and `ssh_to`, `None` when
      neither sets it. */
  lemma ExtraOfConfig(section: Section, template: string, overrides: map<string, Value>,
                      config: map<string, Value>)
    requires ConfigWithOverrides(section, template, overrides) == Ok(config)
    ensures var kw := Keywords(config);
            && kw.Keys == ((section.Keys + overrides.Keys) - Popped) + {"ssh_to"}
            && (forall k :: k in kw && k != "ssh_to" && k in overrides ==> kw[k] == Some(overrides[k]))
            && (forall k :: k in kw && k != "ssh_to" && k !in overrides ==>
                               k in section && kw[k] == Some(Str(section[k])))
            && kw["ssh_to"] == (if "ssh_to" in overrides then Some(overrides["ssh_to"])
                                else if "ssh_to" in section then Some(Str(section["ssh_to"]))
                                else None)
  {
  }

  /** The keyword arguments a cluster keeps as `extra`, as ExtraOfConfig
      says; none of the keys passed as `**config` is a parameter of the
      Cluster constructor. */
  lemma AssemblyExtra(st: Store, env: map<string, string>, template: string, overrides: map<string, Value>)
    requires AssemblyFor(st, env, template, overrides).Ok?
    ensures var a := AssemblyFor(st, env, template, overrides).value;
            var section := ReadClusterSection(st, template).value;
            && a.extra.Keys == ((section.Keys + overrides.Keys) - Popped) + {"ssh_to"}
            && ((section.Keys + overrides.Keys) - Popped) !! ClusterParams
            && (forall k :: k in a.extra && k != "ssh_to" && k in overrides ==> a.extra[k] == Some(overrides[k]))
            && (forall k :: k in a.extra && k != "ssh_to" && k !in overrides ==>
                               k in section && a.extra[k] == Some(Str(section[k])))
  {
    var section, config := AssemblyConfig(st, env, template, overrides);
    ExtraOfConfig(section, template, overrides, config);
    var a := AssemblyFor(st, env, template, overrides).value;
    assert a.extra == Keywords(config);
  }

  /** The `ssh_to` keyword argument: the override, else the section's
      value, else `None`. */
  lemma AssemblySshTo(st: Store, env: map<string, string>, template: string, overrides: map<string, Value>)
    requires AssemblyFor(st, env, template, overrides).Ok?
    ensures var a := AssemblyFor(st, env, template, overrides).value;
            var section := ReadClusterSection(st, template).value;
            && "ssh_to" in a.extra
            && a.extra["ssh_to"] == (if "ssh_to" in overrides then Some(overrides["ssh_to"])
                                     else if "ssh_to" in section then Some(Str(section["ssh_to"]))
                                     else None)
  {
    var section, config := AssemblyConfig(st, env, template, overrides);
    ExtraOfConfig(section, template, overrides, config);
    var a := AssemblyFor(st, env, template, overrides).value;
    assert a.extra == Keywords(config);
  }

  /** The errors of create_cluster before the group map is made: a missing
      cluster section, then a missing `cloud`, then a missing
      `setup_provider`. */
  lemma AssemblyErrors(st: Store, env: map<string, string>, template: string, overrides: map<string, Value>)
    ensures var c := ReadClusterSection(st, template);
            && (c.Err? && c.error.NoSectionError? ==>
                  AssemblyFor(st, env, template, overrides) == Err(ConfigurationError("cluster/" + template)))
            && (c.Ok? && "cloud" !in c.value && "cloud" !in overrides ==>
                  AssemblyFor(st, env, template, overrides) == Err(ConfigurationError("cloud")))
            && (c.Ok? && ("cloud" in c.value || "cloud" in overrides)
                      && "setup_provider" !in c.value && "setup_provider" !in overrides ==>
                  AssemblyFor(st, env, template, overrides) == Err(ConfigurationError("setup_provider")))
  {
  }

  /** Once `cloud` and `setup_provider` are present, an override of a group
      count that is not an integer is a ValueError, raised before any
      provider is created. */
  lemma AssemblyCountError(st: Store, env: map<string, string>, template: string, overrides: map<string, Value>,
                           g: string)
    requires ReadClusterSection(st, template).Ok?
    requires var section := ReadClusterSection(st, template).value;
             && ("cloud" in section || "cloud" in overrides)
             && ("setup_provider" in section || "setup_provider" in overrides)
    requires g + "_nodes" in overrides && IntOf(overrides[g + "_nodes"]).None?
    ensures AssemblyFor(st, env, template, overrides) == Err(ValueError)
  {
    var config := ConfigWithOverrides(ReadClusterSection(st, template).value, template, overrides).value;
    assert EndsWith(g + "_nodes", "_nodes");
    assert NodeCounts(config).Err?;
  }

  /** The cluster `c` is the one create_cluster builds from `a`: the
      constructor's arguments, node settings read from the template, one
      group per count, and every node named by position and configured. */
  ghost predicate Assembled(c: Cluster, a: Assembly, st: Store, template: string)
    reads c
  {
    && c.template == template && c.name == a.name && c.cloud == a.cloud
    && c.cloudProvider == a.cloudProvider && c.setupProvider == a.setupProvider
    && c.extra == a.extra && c.sshTo == (if "ssh_to" in a.extra then a.extra["ssh_to"] else None)
    && (forall t :: c.nodeSettings(t) == NodeSettingsFor(st, template, t))
    && c.Valid() && c.Positional() && c.Configured()
    && c.nodes.Keys == a.counts.Keys
  }

  /** `e` is the error of the first group in `groups` that asks for nodes
      and whose node settings cannot be read. */
  ghost predicate FirstUncreatable(st: Store, template: string, a: Assembly, groups: seq<string>, e: Error)
    requires forall g :: g in groups ==> g in a.counts
  {
    exists k :: && 0 <= k < |groups| && a.counts[groups[k]] > 0
                && NodeSettingsFor(st, template, groups[k]) == Err(e)
                && forall j :: 0 <= j < k && a.counts[groups[j]] > 0 ==> NodeSettingsFor(st, template, groups[j]).Ok?
  }

  /** Every group with a positive count can have its nodes created. */
  ghost predicate Creatable(st: Store, template: string, a: Assembly) {
    forall g :: g in a.counts && a.counts[g] > 0 ==> NodeSettingsFor(st, template, g).Ok?
  }

  /** The first half of create_cluster: the configuration of the template
      with `name` set and the overrides applied, the group map, and the two
      providers. */
  method Assemble(st: Store, env: map<string, string>, template: string, overrides: map<string, Value>)
    returns (r: Result<Assembly>)
    ensures r == AssemblyFor(st, env, template, overrides)
  {
    var config :- ClusterConfig(st, template, overrides);
    var counts :- NodeCounts(config);
    var cloudName :- SectionName(config["cloud"]);
    var cloudProvider :- CreateCloudProvider(st, env, cloudName);
    var setupName :- SectionName(config["setup_provider"]);
    var setupProvider :- CreateSetupProvider(st, setupName, template);
    if !((config.Keys - Popped) !! ClusterParams) {
      return Err(TypeError);
    }
    return Ok(Assembly(config["name"], config["cloud"], cloudProvider, setupProvider, counts, Keywords(config)));
  }

  /** The call `Cluster(...)` that ends create_cluster: empty groups listed in
      the group map's order, then `count` nodes added to every group, the
      first failing create_node escaping. */
  method Build(st: Store, template: string, a: Assembly, dictOrder: set<string> -> seq<string>)
    returns (r: Result<Cluster>)
    requires ListsKeys(dictOrder)
    ensures r.Ok? <==> Creatable(st, template, a)
    ensures r.Err? ==> exists g :: g in a.counts && a.counts[g] > 0 && NodeSettingsFor(st, template, g) == Err(r.error)
    ensures r.Err? ==> FirstUncreatable(st, template, a, dictOrder(a.counts.Keys), r.error)
    ensures r.Ok? ==> && fresh(r.value) && Assembled(r.value, a, st, template)
                      && r.value.order == dictOrder(a.counts.Keys)
                      && forall g :: g in r.value.nodes ==> |r.value.nodes[g]| == Planned(a.counts[g])
    ensures r.Ok? ==> forall g, k :: g in r.value.nodes && 0 <= k < |r.value.nodes[g]| ==> fresh(r.value.nodes[g][k])
  {
    var groups := dictOrder(a.counts.Keys);
    var c := new Cluster(template, a.name, a.cloud, a.cloudProvider, a.setupProvider,
                         t => NodeSettingsFor(st, template, t), groups, a.extra);
    var done := c.Populate(a.counts);
    if done.Err? {
      return Err(done.error);
    }
    return Ok(c);
  }

  /** create_cluster: Assemble, then Build. */
  method CreateCluster(st: Store, env: map<string, string>, template: string, overrides: map<string, Value>,
                       dictOrder: set<string> -> seq<string>)
    returns (r: Result<Cluster>)
    requires ListsKeys(dictOrder)
    ensures var a := AssemblyFor(st, env, template, overrides);
            && (a.Err? ==> r == Err(a.error))
            && (a.Ok? ==> (r.Ok? <==> Creatable(st, template, a.value)))
            && (a.Ok? && r.Err? ==> exists g :: g in a.value.counts && a.value.counts[g] > 0
                                               && NodeSettingsFor(st, template, g) == Err(r.error))
            && (a.Ok? && r.Err? ==> FirstUncreatable(st, template, a.value, dictOrder(a.value.counts.Keys), r.error))
    ensures r.Ok? ==> var a := AssemblyFor(st, env, template, overrides).value;
                      && fresh(r.value) && Assembled(r.value, a, st, template)
                      && r.value.order == dictOrder(a.counts.Keys)
                      && forall g :: g in r.value.nodes ==> |r.value.nodes[g]| == Planned(a.counts[g])
    ensures r.Ok? ==> forall g, k :: g in r.value.nodes && 0 <= k < |r.value.nodes[g]| ==> fresh(r.value.nodes[g][k])
  {
    var a :- Assemble(st, env, template, overrides);
    r := Build(st, template, a, dictOrder);
  }

  /** The groups of `c` hold the records `recs`, type by type, in record
      order, renamed by position: the sizes and every node's five fields. */
  ghost predicate Restored(c: Cluster, recs: seq<NodeRecord>)
    reads c, c.NodeObjects()
  {
    && c.Valid() && c.Positional() && c.Configured()
    && (forall g :: g in c.nodes ==> |c.nodes[g]| == |Rehydrated(recs, g)|)
    && (forall g, k :: g in c.nodes && 0 <= k < |c.nodes[g]| ==>
                         RecordOf(c.nodes[g][k]) == Rehydrated(recs, g)[k])
  }

  /** One pass of the loop of load_cluster, for the record `recs[i]`: its
      group is created when missing, then AddRecord. */
  method RestoreStep(c: Cluster, recs: seq<NodeRecord>, i: nat, ghost groups: set<string>) returns (r: Result<()>)
    requires i < |recs|
    requires c.Valid() && c.Positional() && c.Configured()
    requires c.nodes.Keys == groups + TypesOf(recs[..i])
    requires forall g :: g in c.nodes ==> |c.nodes[g]| == |Rehydrated(recs[..i], g)|
    requires forall g, k :: g in c.nodes && 0 <= k < |c.nodes[g]| ==>
               RecordOf(c.nodes[g][k]) == Rehydrated(recs[..i], g)[k]
    modifies c
    ensures c.Valid() && c.Positional() && c.Configured()
    ensures r.Ok? <==> c.nodeSettings(recs[i].nodeType).Ok?
    ensures r.Err? ==> c.nodeSettings(recs[i].nodeType) == Err(r.error)
    ensures r.Ok? ==> c.nodes.Keys == groups + TypesOf(recs[..i + 1])
    ensures r.Ok? ==> forall g :: g in c.nodes ==> |c.nodes[g]| == |Rehydrated(recs[..i + 1], g)|
    ensures r.Ok? ==> forall g, k :: g in c.nodes && 0 <= k < |c.nodes[g]| ==>
                        RecordOf(c.nodes[g][k]) == Rehydrated(recs[..i + 1], g)[k]
  {
    PrepareGroup(c, recs, i, groups);
    r := AddRecord(c, recs, i);
  }

  /** The start of a pass of the loop of load_cluster: the group of `recs[i]`
      is created, empty, when it is missing; the existing nodes are untouched. */
  method PrepareGroup(c: Cluster, recs: seq<NodeRecord>, i: nat, ghost groups: set<string>)
    requires i < |recs|
    requires c.Valid() && c.Positional() && c.Configured()
    requires c.nodes.Keys == groups + TypesOf(recs[..i])
    requires forall g :: g in c.nodes ==> |c.nodes[g]| == |Rehydrated(recs[..i], g)|
    requires forall g, k :: g in c.nodes && 0 <= k < |c.nodes[g]| ==>
               RecordOf(c.nodes[g][k]) == Rehydrated(recs[..i], g)[k]
    modifies c
    ensures c.Valid() && c.Positional() && c.Configured()
    ensures recs[i].nodeType in c.nodes
    ensures c.nodes.Keys == groups + TypesOf(recs[..i + 1])
    ensures forall g :: g in c.nodes ==> |c.nodes[g]| == |Rehydrated(recs[..i], g)|
    ensures forall g, k :: g in c.nodes && 0 <= k < |c.nodes[g]| ==>
              RecordOf(c.nodes[g][k]) == Rehydrated(recs[..i], g)[k]
  {
    label Head:
    var t := recs[i].nodeType;
    TakeSnoc(recs, i);
    TypesOfSnoc(recs[..i], recs[i]);
    if t !in c.nodes {
      RehydratedAbsent(recs[..i], t);
    }
    c.EnsureGroup(t);
    forall g, k | g in c.nodes && 0 <= k < |c.nodes[g]|
      ensures RecordOf(c.nodes[g][k]) == Rehydrated(recs[..i], g)[k]
    {
      var n := c.nodes[g][k];
      assert n == old@Head(c.nodes[g][k]);
      assert RecordOf(n) == old@Head(RecordOf(n));
    }
  }

  /** The rest of a pass of the loop of load_cluster, once the group of
      `recs[i]` exists: add_node appends a node to it and the stored
      instance id and addresses are copied onto that node. */
  method AddRecord(c: Cluster, recs: seq<NodeRecord>, i: nat) returns (r: Result<()>)
    requires i < |recs| && recs[i].nodeType in c.nodes
    requires c.Valid() && c.Positional() && c.Configured()
    requires forall g :: g in c.nodes ==> |c.nodes[g]| == |Rehydrated(recs[..i], g)|
    requires forall g, k :: g in c.nodes && 0 <= k < |c.nodes[g]| ==>
               RecordOf(c.nodes[g][k]) == Rehydrated(recs[..i], g)[k]
    modifies c
    ensures c.Valid() && c.Positional() && c.Configured() && c.nodes.Keys == old(c.nodes).Keys
    ensures r.Ok? <==> c.nodeSettings(recs[i].nodeType).Ok?
    ensures r.Err? ==> c.nodeSettings(recs[i].nodeType) == Err(r.error)
    ensures r.Ok? ==> forall g :: g in c.nodes ==> |c.nodes[g]| == |Rehydrated(recs[..i + 1], g)|
    ensures r.Ok? ==> forall g, k :: g in c.nodes && 0 <= k < |c.nodes[g]| ==>
                        RecordOf(c.nodes[g][k]) == Rehydrated(recs[..i + 1], g)[k]
  {
    label Head:
    var rec := recs[i];
    var t := rec.nodeType;
    TakeSnoc(recs, i);
    var added :- c.AddRestored(rec);
    forall g | g in c.nodes ensures |c.nodes[g]| == |Rehydrated(recs[..i + 1], g)| {
      RehydratedSnoc(recs[..i], rec, g);
    }
    forall g, k | g in c.nodes && 0 <= k < |c.nodes[g]|
      ensures RecordOf(c.nodes[g][k]) == Rehydrated(recs[..i + 1], g)[k]
    {
      RehydratedSnoc(recs[..i], rec, g);
      if g != t || k < |c.nodes[g]| - 1 {
        var n := c.nodes[g][k];
        assert n == old@Head(c.nodes[g][k]);
        assert RecordOf(n) == old@Head(RecordOf(n));
      }
    }
    return Ok(());
  }

  /** The loop of load_cluster over the stored node records, on a cluster
      whose groups were emptied. The first failing create_node escapes. */
  method RestoreNodes(c: Cluster, recs: seq<NodeRecord>) returns (r: Result<()>)
    requires c.Valid() && c.Positional() && c.Configured()
    requires forall g :: g in c.nodes ==> c.nodes[g] == []
    modifies c
    ensures c.Valid() && c.Positional() && c.Configured()
    ensures r.Ok? <==> forall j :: 0 <= j < |recs| ==> c.nodeSettings(recs[j].nodeType).Ok?
    ensures r.Err? ==> exists j :: && 0 <= j < |recs| && c.nodeSettings(recs[j].nodeType) == Err(r.error)
                                   && forall k :: 0 <= k < j ==> c.nodeSettings(recs[k].nodeType).Ok?
    ensures r.Ok? ==> c.nodes.Keys == old(c.nodes).Keys + TypesOf(recs)
    ensures r.Ok? ==> forall g :: g in c.nodes ==> |c.nodes[g]| == |Rehydrated(recs, g)|
    ensures r.Ok? ==> forall g, k :: g in c.nodes && 0 <= k < |c.nodes[g]| ==>
                        RecordOf(c.nodes[g][k]) == Rehydrated(recs, g)[k]
  {
    ghost var groups := c.nodes.Keys;
    for i := 0 to |recs|
      invariant c.Valid() && c.Positional() && c.Configured()
      invariant forall j :: 0 <= j < i ==> c.nodeSettings(recs[j].nodeType).Ok?
      invariant c.nodes.Keys == groups + TypesOf(recs[..i])
      invariant forall g :: g in c.nodes ==> |c.nodes[g]| == |Rehydrated(recs[..i], g)|
      invariant forall g, k :: g in c.nodes && 0 <= k < |c.nodes[g]| ==>
                  RecordOf(c.nodes[g][k]) == Rehydrated(recs[..i], g)[k]
    {
      label Head:
      r := RestoreStep(c, recs, i, groups);
      if r.Err? {
        return;
      }
      forall j | 0 <= j < i ensures c.nodeSettings(recs[j].nodeType).Ok? {
        assert c.nodeSettings(recs[j].nodeType) == old@Head(c.nodeSettings(recs[j].nodeType));
      }
    }
    assert recs[..|recs|] == recs;
    return Ok(());
  }

  /** Configurator.load_cluster: the stored record of `clusterName` (a
      missing storage file is ClusterNotFound), create_cluster's assembly
      for its template and stored name, then the cluster LoadBuilt makes of
      them. `stored` maps each cluster name to the record held in its
      storage file. */
  method LoadCluster(st: Store, env: map<string, string>, stored: map<string, ClusterRecord>, clusterName: string,
                     dictOrder: set<string> -> seq<string>)
    returns (r: Result<Cluster>)
    requires ListsKeys(dictOrder)
    ensures clusterName !in stored ==> r == Err(ClusterNotFound(clusterName))
    ensures clusterName in stored ==>
              var info := stored[clusterName];
              var a := AssemblyFor(st, env, info.template, map["name" := info.name]);
              && (a.Err? ==> r == Err(a.error))
              && (a.Ok? ==> Loaded(r, st, info, a.value))
    ensures r.Ok? ==> fresh(r.value)
  {
    if clusterName !in stored {
      return Err(ClusterNotFound(clusterName));
    }
    var info := stored[clusterName];
    var a :- Assemble(st, env, info.template, map["name" := info.name]);
    r := LoadBuilt(st, info, a, dictOrder);
  }

  /** What load_cluster yields for the stored record `info` once
      create_cluster has assembled `a`: the error of a group asking for
      nodes in create_cluster's own loop, or else that of the first stored
      node whose settings cannot be read; or a
      cluster with the assembled attributes whose groups are those of `a`
      and of the stored nodes, and hold the stored nodes, type by type,
      renamed by position. */
  ghost predicate Loaded(r: Result<Cluster>, st: Store, info: ClusterRecord, a: Assembly)
    reads if r.Ok? then {r.value as object} + r.value.NodeObjects() else {}
  {
    && (r.Ok? <==> Creatable(st, info.template, a)
                   && forall j :: 0 <= j < |info.nodes| ==>
                        NodeSettingsFor(st, info.template, info.nodes[j].nodeType).Ok?)
    && (r.Err? ==> || (exists g :: g in a.counts && a.counts[g] > 0 && NodeSettingsFor(st, info.template, g) == Err(r.error))
                   || (Creatable(st, info.template, a)
                       && exists j :: && 0 <= j < |info.nodes|
                                      && NodeSettingsFor(st, info.template, info.nodes[j].nodeType) == Err(r.error)
                                      && forall k :: 0 <= k < j ==>
                                           NodeSettingsFor(st, info.template, info.nodes[k].nodeType).Ok?))
    && (r.Ok? ==> var c := r.value;
                  && c.template == info.template && c.name == a.name && c.cloud == a.cloud
                  && c.cloudProvider == a.cloudProvider && c.setupProvider == a.setupProvider
                  && c.extra == a.extra && c.sshTo == (if "ssh_to" in a.extra then a.extra["ssh_to"] else None)
                  && (forall t :: c.nodeSettings(t) == NodeSettingsFor(st, info.template, t))
                  && c.nodes.Keys == a.counts.Keys + TypesOf(info.nodes)
                  && Restored(c, info.nodes))
  }

  /** The types of the records dump_cluster writes are groups of the
      dumped cluster. */
  lemma DumpedTypes(order: seq<string>, groups: map<string, seq<Node>>)
    requires WellFormed(order, groups)
    ensures TypesOf(Records(Concat(order, groups))) <= groups.Keys
  {
    var all := Concat(order, groups);
    var recs := Records(all);
    forall t | t in TypesOf(recs) ensures t in groups {
      var j :| 0 <= j < |recs| && recs[j].nodeType == t;
      ConcatMember(order, groups, all[j]);
    }
  }

  /** Loading what dump_cluster wrote for the groups `groups` gives every one
      of them back, node by node, with its five stored fields; a group
      that only the template adds stays empty. */
  lemma {:induction false} LoadAfterDump(c: Cluster, order: seq<string>, groups: map<string, seq<Node>>)
    requires WellFormed(order, groups) && Named(groups)
    requires Restored(c, Records(Concat(order, groups)))
    ensures forall g :: g in c.nodes && g !in groups ==> c.nodes[g] == []
    ensures forall g :: g in c.nodes && g in groups ==> |c.nodes[g]| == |groups[g]|
    ensures forall g, k :: g in c.nodes && g in groups && 0 <= k < |c.nodes[g]| ==>
                             RecordOf(c.nodes[g][k]) == RecordOf(groups[g][k])
  {
    var recs := Records(Concat(order, groups));
    DumpedTypes(order, groups);
    forall g | g in c.nodes && g !in groups ensures c.nodes[g] == [] {
      RehydratedAbsent(recs, g);
    }
    forall g | g in c.nodes && g in groups ensures |c.nodes[g]| == |groups[g]| {
      DumpLoad(order, groups, g);
    }
    forall g, k | g in c.nodes && g in groups && 0 <= k < |c.nodes[g]|
      ensures RecordOf(c.nodes[g][k]) == RecordOf(groups[g][k])
    {
      DumpLoad(order, groups, g);
    }
  }

  /** load_cluster from the assembly on: Build, then Reload. */
  method LoadBuilt(st: Store, info: ClusterRecord, a: Assembly, dictOrder: set<string> -> seq<string>)
    returns (r: Result<Cluster>)
    requires ListsKeys(dictOrder)
    ensures r.Ok? ==> fresh(r.value)
    ensures Loaded(r, st, info, a)
    ensures !Creatable(st, info.template, a) ==> r.Err? && FirstUncreatable(st, info.template, a, dictOrder(a.counts.Keys), r.error)
  {
    var c :- Build(st, info.template, a, dictOrder);
    var done := Reload(c, info.nodes);
    if done.Err? {
      return Err(done.error);
    }
    return Ok(c);
  }

  /** The part of load_cluster after create_cluster: every group emptied, then
      RestoreNodes. */
  method Reload(c: Cluster, recs: seq<NodeRecord>) returns (r: Result<()>)
    requires c.Valid()
    modifies c
    ensures r.Ok? <==> forall j :: 0 <= j < |recs| ==> c.nodeSettings(recs[j].nodeType).Ok?
    ensures r.Err? ==> exists j :: && 0 <= j < |recs| && c.nodeSettings(recs[j].nodeType) == Err(r.error)
                                   && forall k :: 0 <= k < j ==> c.nodeSettings(recs[k].nodeType).Ok?
    ensures r.Ok? ==> c.nodes.Keys == old(c.nodes).Keys + TypesOf(recs) && Restored(c, recs)
  {
    c.ClearGroups();
    r := RestoreNodes(c, recs);
  }
}
