/** elasticluster/cluster.py: the node and cluster objects and the
    bookkeeping of a cluster's node groups, with every call into a cloud
    provider, SSH or the setup provider replaced by the outcome it reports.
    Also Configurator.create_node, which builds the nodes add_node appends,
    and the record shape ClusterStorage writes and the names it lists. */
module Cluster {
  import opened Common
  import opened Conf

  /** Python truthiness of an optional string: `None` and `""` are false. */
  predicate Truthy(v: Option<string>) {
    v.Some? && v.value != ""
  }

  /** Python truthiness of a configuration value. */
  predicate TruthyValue(v: Value) {
    match v
    case Str(s) => s != ""
    case Num(n) => n != 0
  }

  // ---------------------------------------------------------------------
  // Node

  class Node {
    const name: string
    const nodeType: string
    const cloudProvider: CloudProvider
    const settings: NodeSettings
    var instanceId: Option<string>
    var ipPublic: Option<string>
    var ipPrivate: Option<string>

    /** A node that has not been started: no instance and no addresses. */
    constructor (name: string, nodeType: string, cloudProvider: CloudProvider, settings: NodeSettings)
      ensures this.name == name && this.nodeType == nodeType
      ensures this.cloudProvider == cloudProvider && this.settings == settings
      ensures instanceId == None && ipPublic == None && ipPrivate == None
    {
      this.name := name;
      this.nodeType := nodeType;
      this.cloudProvider := cloudProvider;
      this.settings := settings;
      instanceId := None;
      ipPublic := None;
      ipPrivate := None;
    }

    /** The three fields load_cluster copies from a stored record. */
    method Restore(rec: NodeRecord)
      modifies this
      ensures RecordOf(this) == rec.(name := name, nodeType := nodeType)
    {
      instanceId, ipPublic, ipPrivate := rec.instanceId, rec.ipPublic, rec.ipPrivate;
    }

    /** Both addresses are known. */
    predicate HasAddresses()
      reads this
    {
      Truthy(ipPrivate) && Truthy(ipPublic)
    }

    /** update_ips: the provider is asked for the addresses, `reported`
        (private, public), only when one of them is unset; then both are
        overwritten. */
    method UpdateIps(reported: (Option<string>, Option<string>))
      modifies this
      ensures instanceId == old(instanceId)
      ensures old(HasAddresses()) ==> ipPrivate == old(ipPrivate) && ipPublic == old(ipPublic)
      ensures !old(HasAddresses()) ==> ipPrivate == reported.0 && ipPublic == reported.1
    {
      if !Truthy(ipPrivate) || !Truthy(ipPublic) {
        var (private, public) := reported;
        ipPublic := public;
        ipPrivate := private;
      }
    }

    /** is_alive: a node without an instance is not alive and the provider is
        not asked. Otherwise `running` is what the provider reports (false
        when the query raises), and a running node refreshes its addresses. */
    method IsAlive(running: bool, reported: (Option<string>, Option<string>)) returns (alive: bool)
      modifies this
      ensures alive <==> Truthy(old(instanceId)) && running
      ensures instanceId == old(instanceId)
      ensures !alive ==> ipPrivate == old(ipPrivate) && ipPublic == old(ipPublic)
      ensures alive && !old(HasAddresses()) ==> ipPrivate == reported.0 && ipPublic == reported.1
      ensures alive && old(HasAddresses()) ==> ipPrivate == old(ipPrivate) && ipPublic == old(ipPublic)
    {
      alive := false;
      if !Truthy(instanceId) {
        return;
      }
      alive := running;
      if alive {
        UpdateIps(reported);
      }
    }
  }

  // ---------------------------------------------------------------------
  // Configurator.create_node

  /** create_node: the node settings of the type in the cluster's
      configuration become a fresh, not yet started node. */
  method CreateNode(config: Store, cluster: string, nodeType: string, provider: CloudProvider, name: string)
    returns (r: Result<Node>)
    ensures var s := NodeSettingsFor(config, cluster, nodeType);
            && (s.Err? ==> r == Err(s.error))
            && (s.Ok? ==> r.Ok? && fresh(r.value) && r.value.settings == s.value)
    ensures r.Ok? ==> && r.value.name == name && r.value.nodeType == nodeType
                      && r.value.cloudProvider == provider
                      && r.value.instanceId == None && r.value.ipPublic == None && r.value.ipPrivate == None
  {
    var section :- ReadNodeSection(config, cluster, nodeType);
    r := NewNode(section, nodeType, provider, name);
  }

  /** The node create_node builds from its node configuration, checked key by
      key (ConfigurationError for the first key missing). */
  method NewNode(section: Section, nodeType: string, provider: CloudProvider, name: string)
    returns (r: Result<Node>)
    requires "user_key_public" in section
    ensures var s := NodeSettingsFrom(section);
            && (s.Err? ==> r == Err(s.error))
            && (s.Ok? ==> r.Ok? && fresh(r.value) && r.value.settings == s.value)
    ensures r.Ok? ==> && r.value.name == name && r.value.nodeType == nodeType
                      && r.value.cloudProvider == provider
                      && r.value.instanceId == None && r.value.ipPublic == None && r.value.ipPrivate == None
  {
    for i := 0 to |NodeKeys|
      invariant forall j :: 0 <= j < i ==> NodeKeys[j] in section
    {
      if NodeKeys[i] !in section {
        NodeSettingsFirstMissing(section, i);
        return Err(ConfigurationError(NodeKeys[i]));
      }
    }
    assert NodeKeys[0] in section && NodeKeys[1] in section && NodeKeys[2] in section;
    assert NodeKeys[3] in section && NodeKeys[4] in section && NodeKeys[5] in section;
    var userdata := if "image_userdata" in section then section["image_userdata"] else "";
    var settings := NodeSettings(
      section["user_key_public"], section["user_key_private"], section["user_key_name"],
      section["image_user"], section["security_group"], section["image_id"], section["flavor"],
      userdata);
    var node := new Node(name, nodeType, provider, settings);
    return Ok(node);
  }

  // ---------------------------------------------------------------------
  // Sequences of nodes

  /** `reduce(operator.add, groups)` over the groups in dict order. */
  function Concat(order: seq<string>, groups: map<string, seq<Node>>): seq<Node>
    requires forall g :: g in order ==> g in groups
  {
    if order == [] then [] else Concat(order[..|order| - 1], groups) + groups[order[|order| - 1]]
  }

  /** A node is listed exactly when one of the listed groups holds it. */
  lemma {:induction false} ConcatMember(order: seq<string>, groups: map<string, seq<Node>>, n: Node)
    requires forall g :: g in order ==> g in groups
    ensures n in Concat(order, groups) <==> exists g :: g in order && n in groups[g]
  {
    if order != [] {
      var init := order[..|order| - 1];
      var last := order[|order| - 1];
      ConcatMember(init, groups, n);
      assert forall g :: g in order <==> g in init || g == last;
    }
  }

  /** The sum of the group sizes. */
  function TotalSize(order: seq<string>, groups: map<string, seq<Node>>): nat
    requires forall g :: g in order ==> g in groups
  {
    if order == [] then 0 else TotalSize(order[..|order| - 1], groups) + |groups[order[|order| - 1]]|
  }

  lemma {:induction false} ConcatLength(order: seq<string>, groups: map<string, seq<Node>>)
    requires forall g :: g in order ==> g in groups
    ensures |Concat(order, groups)| == TotalSize(order, groups)
  {
    if order != [] {
      ConcatLength(order[..|order| - 1], groups);
    }
  }

  /** When the groups are distinct keys and every node sits in the group of
      its own type, the concatenation lists no node twice. */
  lemma {:induction false} ConcatDistinct(order: seq<string>, groups: map<string, seq<Node>>)
    requires Distinct(order) && forall g :: g in order ==> g in groups
    requires forall g :: g in groups ==> Distinct(groups[g])
    requires forall g, n :: g in groups && n in groups[g] ==> n.nodeType == g
    ensures Distinct(Concat(order, groups))
  {
    if order != [] {
      var init := order[..|order| - 1];
      var last := order[|order| - 1];
      assert Distinct(init) by {
        forall i, j | 0 <= i < j < |init| ensures init[i] != init[j] { assert init[i] == order[i] && init[j] == order[j]; }
      }
      assert last !in init by {
        forall i | 0 <= i < |init| ensures init[i] != last { assert init[i] == order[i]; }
      }
      ConcatDistinct(init, groups);
      var a := Concat(init, groups);
      var b := groups[last];
      forall i, j | 0 <= i < j < |a + b| ensures (a + b)[i] != (a + b)[j] {
        if i < |a| && j >= |a| {
          var x := a[i];
          ConcatMember(init, groups, x);
          var g :| g in init && x in groups[g];
          assert x.nodeType == g;
          assert b[j - |a|] in groups[last];
        } else if i >= |a| {
          assert (a + b)[i] == b[i - |a|] && (a + b)[j] == b[j - |a|];
        }
      }
    }
  }

  /** The nodes of `s` not in `gone`, in their order. */
  function Without(s: seq<Node>, gone: set<Node>): (r: seq<Node>)
    ensures |r| <= |s|
  {
    if s == [] then []
    else Without(s[..|s| - 1], gone) + (if s[|s| - 1] in gone then [] else [s[|s| - 1]])
  }

  lemma {:induction false} WithoutMember(s: seq<Node>, gone: set<Node>, n: Node)
    ensures n in Without(s, gone) <==> n in s && n !in gone
  {
    if s != [] {
      WithoutMember(s[..|s| - 1], gone, n);
      assert n in s <==> n in s[..|s| - 1] || n == s[|s| - 1];
    }
  }

  lemma {:induction false} WithoutDistinct(s: seq<Node>, gone: set<Node>)
    requires Distinct(s)
    ensures Distinct(Without(s, gone))
  {
    if s != [] {
      var init := s[..|s| - 1];
      assert Distinct(init) by {
        forall i, j | 0 <= i < j < |init| ensures init[i] != init[j] { assert init[i] == s[i] && init[j] == s[j]; }
      }
      WithoutDistinct(init, gone);
      WithoutMember(init, gone, s[|s| - 1]);
      assert s[|s| - 1] !in init by {
        forall i | 0 <= i < |init| ensures init[i] != s[|s| - 1] { assert init[i] == s[i]; }
      }
    }
  }

  lemma {:induction false} WithoutNothing(s: seq<Node>)
    ensures Without(s, {}) == s
  {
    if s != [] {
      WithoutNothing(s[..|s| - 1]);
      assert s == s[..|s| - 1] + [s[|s| - 1]];
    }
  }

  /** Removing one more node that the sequence does not hold changes nothing. */
  lemma {:induction false} WithoutAbsent(s: seq<Node>, gone: set<Node>, x: Node)
    requires x !in s
    ensures Without(s, gone + {x}) == Without(s, gone)
  {
    if s != [] {
      WithoutAbsent(s[..|s| - 1], gone, x);
    }
  }

  /** `list.remove(x)`: the first occurrence of `x` goes. */
  function RemoveFirst(s: seq<Node>, x: Node): (r: seq<Node>)
    requires x in s
    ensures |r| == |s| - 1
  {
    if s[0] == x then s[1..] else [s[0]] + RemoveFirst(s[1..], x)
  }

  /** In a sequence without repetitions, `list.remove(x)` of a member drops
      exactly that member. */
  lemma {:induction false} RemoveFirstWithout(s: seq<Node>, gone: set<Node>, x: Node)
    requires Distinct(s) && x in s && x !in gone
    ensures x in Without(s, gone)
    ensures RemoveFirst(Without(s, gone), x) == Without(s, gone + {x})
  {
    var init := s[..|s| - 1];
    var last := s[|s| - 1];
    assert Distinct(init) by {
      forall i, j | 0 <= i < j < |init| ensures init[i] != init[j] { assert init[i] == s[i] && init[j] == s[j]; }
    }
    assert last !in init by {
      forall i | 0 <= i < |init| ensures init[i] != last { assert init[i] == s[i]; }
    }
    WithoutMember(s, gone, x);
    if x == last {
      WithoutAbsent(init, gone, x);
      WithoutMember(init, gone, x);
      RemoveLast(Without(init, gone), x);
    } else {
      assert x in init;
      RemoveFirstWithout(init, gone, x);
      var w := Without(init, gone);
      RemoveFirstAppend(w, if last in gone then [] else [last], x);
    }
  }

  lemma {:induction false} RemoveLast(s: seq<Node>, x: Node)
    requires x !in s
    ensures RemoveFirst(s + [x], x) == s
  {
    if s != [] {
      RemoveLast(s[1..], x);
      assert (s + [x])[1..] == s[1..] + [x];
    }
  }

  lemma {:induction false} RemoveFirstAppend(s: seq<Node>, t: seq<Node>, x: Node)
    requires x in s
    ensures RemoveFirst(s + t, x) == RemoveFirst(s, x) + t
  {
    assert (s + t)[0] == s[0];
    if s[0] != x {
      RemoveFirstAppend(s[1..], t, x);
      assert (s + t)[1..] == s[1..] + t;
    } else {
      assert (s + t)[1..] == s[1..] + t;
    }
  }

  lemma DistinctAppend(s: seq<Node>, x: Node)
    requires Distinct(s) && x !in s
    ensures Distinct(s + [x])
  {
  }

  /** The nodes of `s` whose termination failed, in their order. */
  function Kept(s: seq<Node>, failing: set<Node>): (r: seq<Node>)
    ensures |r| <= |s|
  {
    if s == [] then []
    else Kept(s[..|s| - 1], failing) + (if s[|s| - 1] in failing then [s[|s| - 1]] else [])
  }

  lemma {:induction false} WithoutIsKept(s: seq<Node>, gone: set<Node>, failing: set<Node>)
    requires forall i :: 0 <= i < |s| ==> (s[i] in gone <==> s[i] !in failing)
    ensures Without(s, gone) == Kept(s, failing)
  {
    if s != [] {
      WithoutIsKept(s[..|s| - 1], gone, failing);
    }
  }

  // ---------------------------------------------------------------------
  // ClusterStorage.dump_cluster: the stored record

  /** The five fields stored per node. */
  datatype NodeRecord = NodeRecord(
    instanceId: Option<string>, name: string, nodeType: string,
    ipPublic: Option<string>, ipPrivate: Option<string>)

  /** The stored description of a cluster: its name and template, the size of
      every group (stored under `<group>_nodes`) and one record per node. */
  datatype ClusterRecord = ClusterRecord(
    name: Value, template: string, sizes: map<string, int>, nodes: seq<NodeRecord>)

  function RecordOf(n: Node): NodeRecord
    reads n
  {
    NodeRecord(n.instanceId, n.name, n.nodeType, n.ipPublic, n.ipPrivate)
  }

  /** One record per node, in the order of the nodes. */
  function Records(s: seq<Node>): (r: seq<NodeRecord>)
    reads s
    ensures |r| == |s|
    ensures forall i :: 0 <= i < |s| ==> r[i] == RecordOf(s[i])
  {
    if s == [] then []
    else
      var r := Records(s[..|s| - 1]) + [RecordOf(s[|s| - 1])];
      assert forall i :: 0 <= i < |s| - 1 ==> s[..|s| - 1][i] == s[i];
      r
  }

  lemma {:induction false} RecordsAppend(a: seq<Node>, b: seq<Node>)
    ensures Records(a + b) == Records(a) + Records(b)
    decreases |b|
  {
    if b != [] {
      var c := b[..|b| - 1];
      assert (a + b)[..|a + b| - 1] == a + c;
      RecordsAppend(a, c);
    } else {
      assert a + b == a;
    }
  }

  // ---------------------------------------------------------------------
  // Configurator.load_cluster: the groups rebuilt from a stored record

  /** The records of the nodes of type `g`, in record order. */
  function OfType(recs: seq<NodeRecord>, g: string): (r: seq<NodeRecord>)
    ensures |r| <= |recs|
  {
    if recs == [] then []
    else
      var last := recs[|recs| - 1];
      OfType(recs[..|recs| - 1], g) + (if last.nodeType == g then [last] else [])
  }

  /** The node types the records name. */
  function TypesOf(recs: seq<NodeRecord>): set<string> {
    set r | r in recs :: r.nodeType
  }

  /** The records as add_node names the nodes of group `g`: by position, the
      stored name being dropped. */
  function Renamed(recs: seq<NodeRecord>, g: string): (r: seq<NodeRecord>)
    ensures |r| == |recs|
    ensures forall i :: 0 <= i < |r| ==> r[i] == recs[i].(name := g + Format03(i + 1))
  {
    seq(|recs|, i requires 0 <= i < |recs| => recs[i].(name := g + Format03(i + 1)))
  }

  /** What load_cluster puts in group `g`: one node per record of type `g`, in
      record order, named by position, with the stored instance id and
      addresses. */
  function Rehydrated(recs: seq<NodeRecord>, g: string): seq<NodeRecord> {
    if recs == [] then []
    else
      var prev := Rehydrated(recs[..|recs| - 1], g);
      var last := recs[|recs| - 1];
      if last.nodeType == g then prev + [last.(name := g + Format03(|prev| + 1))] else prev
  }

  /** One more record adds one node to its own group, named after the new
      size of that group, and leaves every other group alone. */
  lemma RehydratedSnoc(recs: seq<NodeRecord>, rec: NodeRecord, g: string)
    ensures rec.nodeType != g ==> Rehydrated(recs + [rec], g) == Rehydrated(recs, g)
    ensures rec.nodeType == g ==>
              Rehydrated(recs + [rec], g) == Rehydrated(recs, g) + [rec.(name := g + Format03(|Rehydrated(recs, g)| + 1))]
  {
    assert (recs + [rec])[..|recs|] == recs;
  }

  /** A type no record has yields an empty group. */
  lemma {:induction false} RehydratedAbsent(recs: seq<NodeRecord>, g: string)
    requires g !in TypesOf(recs)
    ensures Rehydrated(recs, g) == []
  {
    if recs != [] {
      var init := recs[..|recs| - 1];
      assert TypesOf(init) <= TypesOf(recs);
      RehydratedAbsent(init, g);
      assert recs[|recs| - 1].nodeType in TypesOf(recs);
    }
  }

  /** Group `g` of a loaded cluster holds the records of type `g`, in record
      order, each renamed after its position. */
  lemma {:induction false} RehydratedRenamed(recs: seq<NodeRecord>, g: string)
    ensures Rehydrated(recs, g) == Renamed(OfType(recs, g), g)
  {
    if recs != [] {
      var init := recs[..|recs| - 1];
      RehydratedRenamed(init, g);
      var last := recs[|recs| - 1];
      if last.nodeType == g {
        var o := OfType(init, g);
        assert OfType(recs, g) == o + [last];
        assert Renamed(o + [last], g) == Renamed(o, g) + [last.(name := g + Format03(|o| + 1))];
      }
    }
  }

  /** A type no record names has no node. */
  lemma {:induction false} OfTypeAbsent(recs: seq<NodeRecord>, g: string)
    requires g !in TypesOf(recs)
    ensures OfType(recs, g) == []
  {
    if recs != [] {
      OfTypeAbsent(recs[..|recs| - 1], g);
    }
  }

  lemma TakeSnoc(recs: seq<NodeRecord>, i: nat)
    requires i < |recs|
    ensures recs[..i + 1] == recs[..i] + [recs[i]]
  {
  }

  lemma TypesOfSnoc(recs: seq<NodeRecord>, rec: NodeRecord)
    ensures TypesOf(recs + [rec]) == TypesOf(recs) + {rec.nodeType}
  {
    assert forall r :: r in recs + [rec] <==> r in recs || r == rec;
  }

  lemma {:induction false} OfTypeAppend(a: seq<NodeRecord>, b: seq<NodeRecord>, g: string)
    ensures OfType(a + b, g) == OfType(a, g) + OfType(b, g)
    decreases |b|
  {
    if b == [] {
      assert a + b == a;
    } else {
      var c := b[..|b| - 1];
      assert (a + b)[..|a + b| - 1] == a + c;
      OfTypeAppend(a, c, g);
    }
  }

  /** The records of nodes that all have type `h`. */
  lemma {:induction false} OfTypeGroup(s: seq<Node>, h: string, g: string)
    requires forall n :: n in s ==> n.nodeType == h
    ensures OfType(Records(s), g) == if h == g then Records(s) else []
  {
    if s != [] {
      var init := s[..|s| - 1];
      assert forall n :: n in init ==> n in s;
      OfTypeGroup(init, h, g);
      assert Records(s)[..|s| - 1] == Records(init);
    }
  }

  // ---------------------------------------------------------------------
  // Node groups

  /** `order` lists every group once, no group holds a node twice, and every
      node sits in the group of its own type. */
  ghost predicate WellFormed(order: seq<string>, groups: map<string, seq<Node>>) {
    && Distinct(order)
    && (forall g :: g in order <==> g in groups)
    && (forall g :: g in groups ==> Distinct(groups[g]))
    && (forall g, n :: g in groups && n in groups[g] ==> n.nodeType == g)
  }

  /** Every node is named after its group and its position in it, as
      add_node names them. */
  ghost predicate Named(groups: map<string, seq<Node>>) {
    forall g, i :: g in groups && 0 <= i < |groups[g]| ==> groups[g][i].name == g + Format03(i + 1)
  }

  /** Every node carries the settings the configuration gives its group, as
      create_node reads them. */
  ghost predicate ConfiguredGroups(nodeSettings: string -> Result<NodeSettings>, groups: map<string, seq<Node>>) {
    forall g, n :: g in groups && n in groups[g] ==> nodeSettings(g) == Ok(n.settings)
  }

  /** Appending a new node of type `t`, named and configured as add_node does,
      to group `t` keeps the groups well formed, named and configured. */
  lemma AppendToGroup(order: seq<string>, groups: map<string, seq<Node>>, t: string, node: Node,
                      nodeSettings: string -> Result<NodeSettings>)
    requires WellFormed(order, groups) && t in groups && node !in groups[t] && node.nodeType == t
    ensures WellFormed(order, groups[t := groups[t] + [node]])
    ensures Named(groups) && node.name == t + Format03(|groups[t]| + 1) ==> Named(groups[t := groups[t] + [node]])
    ensures ConfiguredGroups(nodeSettings, groups) && nodeSettings(t) == Ok(node.settings) ==>
              ConfiguredGroups(nodeSettings, groups[t := groups[t] + [node]])
  {
    var after: map<string, seq<Node>> := groups[t := groups[t] + [node]];
    DistinctAppend(groups[t], node);
    forall g, n | g in after && n in after[g] ensures n.nodeType == g {
      if g != t || n != node { assert n in groups[g]; }
    }
    if Named(groups) && node.name == t + Format03(|groups[t]| + 1) {
      forall g, i | g in after && 0 <= i < |after[g]| ensures after[g][i].name == g + Format03(i + 1) {
        if g != t || i < |groups[t]| { assert after[g][i] == groups[g][i]; }
      }
    }
    if ConfiguredGroups(nodeSettings, groups) && nodeSettings(t) == Ok(node.settings) {
      forall g, n | g in after && n in after[g] ensures nodeSettings(g) == Ok(n.settings) {
        if g != t || n != node { assert n in groups[g]; }
      }
    }
  }

  /** `cur` is every group of `groups` with the nodes of `gone` taken out. */
  ghost predicate ShrunkBy(cur: map<string, seq<Node>>, groups: map<string, seq<Node>>, gone: set<Node>) {
    cur.Keys == groups.Keys && forall g :: g in groups ==> cur[g] == Without(groups[g], gone)
  }

  /** Taking nodes out of the groups keeps them well formed. */
  lemma ShrunkWellFormed(order: seq<string>, groups: map<string, seq<Node>>, cur: map<string, seq<Node>>,
                         gone: set<Node>)
    requires WellFormed(order, groups) && ShrunkBy(cur, groups, gone)
    ensures WellFormed(order, cur)
  {
    forall g | g in cur ensures Distinct(cur[g]) {
      WithoutDistinct(groups[g], gone);
    }
    forall g: string, n: Node | g in cur && n in cur[g] ensures n.nodeType == g {
      WithoutMember(groups[g], gone, n);
    }
  }

  /** `self.nodes[node.type].remove(node)` for a node still in its group
      takes exactly that node out of the groups. */
  lemma ShrinkStep(order: seq<string>, groups: map<string, seq<Node>>, cur: map<string, seq<Node>>,
                   gone: set<Node>, x: Node)
    requires WellFormed(order, groups) && ShrunkBy(cur, groups, gone)
    requires x.nodeType in groups && x in groups[x.nodeType] && x !in gone
    ensures x in cur[x.nodeType]
    ensures ShrunkBy(cur[x.nodeType := RemoveFirst(cur[x.nodeType], x)], groups, gone + {x})
  {
    var t := x.nodeType;
    RemoveFirstWithout(groups[t], gone, x);
    var next := cur[t := RemoveFirst(cur[t], x)];
    forall g | g in groups ensures next[g] == Without(groups[g], gone + {x}) {
      if g != t {
        assert x !in groups[g];
        WithoutAbsent(groups[g], gone, x);
      }
    }
  }

  /** When exactly the listed nodes outside `failing` are gone, each group
      keeps just its failing nodes. */
  lemma StoppedAll(order: seq<string>, groups: map<string, seq<Node>>, all: seq<Node>, gone: set<Node>,
                   failing: set<Node>)
    requires WellFormed(order, groups) && all == Concat(order, groups)
    requires forall n :: n in gone ==> n in all && n !in failing
    requires forall j :: 0 <= j < |all| && all[j] !in failing ==> all[j] in gone
    ensures forall g :: g in groups ==> Without(groups[g], gone) == Kept(groups[g], failing)
  {
    forall g | g in groups ensures Without(groups[g], gone) == Kept(groups[g], failing) {
      forall k | 0 <= k < |groups[g]| ensures groups[g][k] in gone <==> groups[g][k] !in failing {
        var n := groups[g][k];
        ConcatMember(order, groups, n);
        var j :| 0 <= j < |all| && all[j] == n;
      }
      WithoutIsKept(groups[g], gone, failing);
    }
  }

  /** A new empty group, listed last, keeps the groups well formed, named
      and configured. */
  lemma NewGroup(order: seq<string>, groups: map<string, seq<Node>>, t: string,
                 nodeSettings: string -> Result<NodeSettings>)
    requires WellFormed(order, groups) && t !in groups
    ensures WellFormed(order + [t], groups[t := []])
    ensures Named(groups) ==> Named(groups[t := []])
    ensures ConfiguredGroups(nodeSettings, groups) ==> ConfiguredGroups(nodeSettings, groups[t := []])
  {
    assert forall g :: g in order + [t] <==> g in order || g == t;
  }

  /** One more node at the end of group `t` keeps every other group and the
      earlier nodes of `t` as they were in `base`. */
  lemma GrowGroup(base: map<string, seq<Node>>, groups: map<string, seq<Node>>, t: string, n: Node)
    requires t in base && t in groups && groups == base[t := groups[t]]
    requires |groups[t]| >= |base[t]| && groups[t][..|base[t]|] == base[t]
    ensures var after := groups[t := groups[t] + [n]];
            && after == base[t := after[t]]
            && |after[t]| == |groups[t]| + 1
            && after[t][..|base[t]|] == base[t]
  {
    var after := groups[t := groups[t] + [n]];
    assert after[t][..|base[t]|] == groups[t][..|base[t]|];
  }

  /** How many nodes `range(count)` adds: none for a count below one. */
  function Planned(count: int): (r: nat)
    ensures count > 0 ==> r == count
    ensures count <= 0 ==> r == 0
  {
    if count > 0 then count else 0
  }

  /** The records of the listed groups, picked out by type, are the records
      of one group. */
  lemma {:induction false} OfTypeConcat(order: seq<string>, groups: map<string, seq<Node>>, g: string)
    requires Distinct(order) && forall h :: h in order ==> h in groups
    requires forall h, n :: h in groups && n in groups[h] ==> n.nodeType == h
    ensures OfType(Records(Concat(order, groups)), g) == if g in order then Records(groups[g]) else []
  {
    if order != [] {
      var init := order[..|order| - 1];
      var last := order[|order| - 1];
      assert forall h :: h in order <==> h in init || h == last;
      assert last !in init;
      OfTypeConcat(init, groups, g);
      RecordsAppend(Concat(init, groups), groups[last]);
      OfTypeAppend(Records(Concat(init, groups)), Records(groups[last]), g);
      OfTypeGroup(groups[last], last, g);
    }
  }

  /** Records of nodes already named by position keep their names. */
  lemma RenamedPositional(s: seq<Node>, g: string)
    requires forall i :: 0 <= i < |s| ==> s[i].name == g + Format03(i + 1)
    ensures Renamed(Records(s), g) == Records(s)
  {
  }

  /** Loading what dump_cluster stored gives every group back its nodes:
      same number, same order, same names, instance ids and addresses. */
  lemma DumpLoad(order: seq<string>, groups: map<string, seq<Node>>, g: string)
    requires WellFormed(order, groups) && Named(groups) && g in groups
    ensures Rehydrated(Records(Concat(order, groups)), g) == Records(groups[g])
  {
    RehydratedRenamed(Records(Concat(order, groups)), g);
    OfTypeConcat(order, groups, g);
    RenamedPositional(groups[g], g);
  }

  /** The nodes among the first `i` of `all` whose termination succeeded. */
  ghost function Stopped(all: seq<Node>, i: nat, failing: set<Node>): set<Node>
    requires i <= |all|
  {
    if i == 0 then {}
    else Stopped(all, i - 1, failing) + (if all[i - 1] in failing then {} else {all[i - 1]})
  }

  lemma {:induction false} StoppedFacts(all: seq<Node>, i: nat, failing: set<Node>)
    requires i <= |all|
    ensures forall n :: n in Stopped(all, i, failing) ==> n !in failing && exists j :: 0 <= j < i && all[j] == n
    ensures forall j :: 0 <= j < i && all[j] !in failing ==> all[j] in Stopped(all, i, failing)
  {
    if i > 0 {
      StoppedFacts(all, i - 1, failing);
    }
  }

  /** The groups after the first `i` nodes of `all` went through the loop of
      stop: each one whose termination succeeded is removed from its group. */
  ghost function Shrink(groups: map<string, seq<Node>>, all: seq<Node>, i: nat, failing: set<Node>)
    : map<string, seq<Node>>
    requires i <= |all|
  {
    if i == 0 then groups
    else
      var prev := Shrink(groups, all, i - 1, failing);
      var x := all[i - 1];
      if x in failing || x.nodeType !in prev || x !in prev[x.nodeType] then prev
      else prev[x.nodeType := RemoveFirst(prev[x.nodeType], x)]
  }

  /** After `i` steps exactly the stopped nodes are gone from every group. */
  lemma {:induction false} ShrinkShrunk(order: seq<string>, groups: map<string, seq<Node>>, all: seq<Node>,
                                        i: nat, failing: set<Node>)
    requires WellFormed(order, groups) && all == Concat(order, groups) && i <= |all|
    ensures ShrunkBy(Shrink(groups, all, i, failing), groups, Stopped(all, i, failing))
    decreases i, 1
  {
    if i == 0 {
      forall g | g in groups ensures groups[g] == Without(groups[g], {}) {
        WithoutNothing(groups[g]);
      }
    } else if all[i - 1] !in failing {
      ShrinkNext(order, groups, all, i - 1, failing);
    } else {
      ShrinkShrunk(order, groups, all, i - 1, failing);
      assert Stopped(all, i, failing) == Stopped(all, i - 1, failing);
    }
  }

  /** The next node to stop is still in its group, and removing it keeps
      exactly the stopped nodes out. */
  lemma {:induction false} ShrinkNext(order: seq<string>, groups: map<string, seq<Node>>, all: seq<Node>,
                                      i: nat, failing: set<Node>)
    requires WellFormed(order, groups) && all == Concat(order, groups) && i < |all| && all[i] !in failing
    ensures var cur := Shrink(groups, all, i, failing);
            all[i].nodeType in cur && all[i] in cur[all[i].nodeType]
    ensures ShrunkBy(Shrink(groups, all, i + 1, failing), groups, Stopped(all, i + 1, failing))
    decreases i + 1, 0
  {
    var x := all[i];
    ShrinkShrunk(order, groups, all, i, failing);
    StoppedFacts(all, i, failing);
    ConcatDistinct(order, groups);
    ConcatMember(order, groups, x);
    ShrinkStep(order, groups, Shrink(groups, all, i, failing), Stopped(all, i, failing), x);
  }

  /** Once every node went through the loop, the groups are well formed and
      each keeps exactly its failing nodes. */
  lemma ShrinkDone(order: seq<string>, groups: map<string, seq<Node>>, all: seq<Node>, failing: set<Node>)
    requires WellFormed(order, groups) && all == Concat(order, groups)
    ensures var cur := Shrink(groups, all, |all|, failing);
            && WellFormed(order, cur) && cur.Keys == groups.Keys
            && forall g :: g in cur ==> cur[g] == Kept(groups[g], failing)
  {
    var cur := Shrink(groups, all, |all|, failing);
    var gone := Stopped(all, |all|, failing);
    ShrinkShrunk(order, groups, all, |all|, failing);
    StoppedFacts(all, |all|, failing);
    ShrunkWellFormed(order, groups, cur, gone);
    StoppedAll(order, groups, all, gone, failing);
  }

  /** The loop of stop: every node of `all` (get_all_nodes) whose
      termination succeeds is removed from its group; `failing` are the
      nodes whose termination raises, and they stay where they are. */
  method RemoveStopped(order: seq<string>, groups: map<string, seq<Node>>, all: seq<Node>, failing: set<Node>)
    returns (cur: map<string, seq<Node>>)
    requires WellFormed(order, groups) && all == Concat(order, groups)
    ensures WellFormed(order, cur) && cur.Keys == groups.Keys
    ensures forall g :: g in cur ==> cur[g] == Kept(groups[g], failing)
  {
    cur := groups;
    for i := 0 to |all|
      invariant cur == Shrink(groups, all, i, failing)
    {
      var node := all[i];
      if node !in failing {
        ShrinkNext(order, groups, all, i, failing);
        cur := cur[node.nodeType := RemoveFirst(cur[node.nodeType], node)];
      }
    }
    ShrinkDone(order, groups, all, failing);
  }

  /** What stop's loop, as written, leaves of a group when get_all_nodes
      hands it that group's own list: with a single group, `reduce` returns
      the one list itself rather than a copy. The loop then walks by
      position the list it removes from, so every removal moves the next node
      into the position just visited, and that node is never stopped. `r` is
      the part of the list not visited yet. */
  function LiveKept(r: seq<Node>, failing: set<Node>): (k: seq<Node>)
    ensures |k| <= |r|
    decreases |r|
  {
    if r == [] then []
    else if r[0] in failing then [r[0]] + LiveKept(r[1..], failing)
    else if |r| == 1 then []
    else [r[1]] + LiveKept(r[2..], failing)
  }

  /** What the live walk keeps comes from the list, without repetitions. */
  lemma {:induction false} LiveKeptNodes(r: seq<Node>, failing: set<Node>)
    ensures forall n :: n in LiveKept(r, failing) ==> n in r
    ensures Distinct(r) ==> Distinct(LiveKept(r, failing))
    decreases |r|
  {
    if r == [] {
    } else if r[0] in failing {
      LiveKeptNodes(r[1..], failing);
      assert Distinct(r) ==> Distinct(r[1..]) && r[0] !in r[1..];
    } else if |r| > 1 {
      LiveKeptNodes(r[2..], failing);
      assert Distinct(r) ==> Distinct(r[2..]) && r[1] !in r[2..];
    }
  }

  /** The discrepancy: when the first node of a single group stops without
      error and a second node follows, the loop as written leaves that
      second node running in the group, even when its termination would
      succeed, where the intended loop removes it. */
  lemma {:induction false} LiveKeptSkipsSecond(s: seq<Node>, failing: set<Node>)
    requires |s| >= 2 && s[0] !in failing && s[1] !in failing
    ensures s[1] in LiveKept(s, failing)
    ensures s[1] !in Kept(s, failing)
  {
    assert LiveKept(s, failing) == [s[1]] + LiveKept(s[2..], failing);
    KeptFailing(s, failing);
  }

  /** The intended loop keeps only nodes of the list whose termination
      failed. */
  lemma {:induction false} KeptFailing(s: seq<Node>, failing: set<Node>)
    ensures forall n :: n in Kept(s, failing) ==> n in s && n in failing
  {
    if s != [] {
      KeptFailing(s[..|s| - 1], failing);
    }
  }

  /** A concrete instance: one group of two nodes, both terminated without
      error. The group should end empty (and stop delete the storage); as
      written it ends holding the second node (and stop dumps the cluster). */
  lemma LiveStopSkips(c1: Node, c2: Node)
    requires c1 != c2
    ensures Kept([c1, c2], {}) == []
    ensures LiveKept([c1, c2], {}) == [c2]
  {
    assert [c1, c2][..1] == [c1];
    assert [c1, c2][2..] == [];
  }

  /** `list.remove` of the node at position `i` of a list without
      repetitions removes that position. */
  lemma {:induction false} RemoveFirstAt(s: seq<Node>, i: nat)
    requires Distinct(s) && i < |s|
    ensures RemoveFirst(s, s[i]) == s[..i] + s[i + 1..]
    ensures Distinct(s[..i] + s[i + 1..])
  {
    if i > 0 {
      assert s[0] != s[i];
      RemoveFirstAt(s[1..], i - 1);
      assert s[1..][i - 1] == s[i];
      assert s[..i] + s[i + 1..] == [s[0]] + (s[1..][..i - 1] + s[1..][i..]);
    } else {
      assert s[..0] + s[1..] == s[1..];
    }
  }

  /** stop's loop as written over a single group's own list: the Python list
      iterator's position walk, removing every node whose termination
      succeeds (see LiveKept). */
  method RemoveLive(s: seq<Node>, failing: set<Node>) returns (cur: seq<Node>)
    requires Distinct(s)
    ensures cur == LiveKept(s, failing)
  {
    cur := s;
    var i := 0;
    while i < |cur|
      invariant i <= |cur| + 1 && Distinct(cur)
      invariant i <= |cur| ==> LiveKept(s, failing) == cur[..i] + LiveKept(cur[i..], failing)
      invariant i == |cur| + 1 ==> LiveKept(s, failing) == cur
      decreases |cur| + 1 - i
    {
      var node := cur[i];
      if node !in failing {
        LiveStopStep(cur, i, failing);
        RemoveFirstAt(cur, i);
        cur := RemoveFirst(cur, node);
      } else {
        LiveFailStep(cur, i, failing);
      }
      i := i + 1;
    }
  }

  /** One step of the live walk at position `p`, when the node there stops:
      the list closes up over it and the walk moves past the node that took
      its place. */
  lemma LiveStopStep(c: seq<Node>, p: nat, failing: set<Node>)
    requires p < |c| && c[p] !in failing
    ensures var d := c[..p] + c[p + 1..];
            && (p + 1 <= |d| ==> c[..p] + LiveKept(c[p..], failing) == d[..p + 1] + LiveKept(d[p + 1..], failing))
            && (p + 1 == |d| + 1 ==> c[..p] + LiveKept(c[p..], failing) == d)
  {
    var d := c[..p] + c[p + 1..];
    if p + 1 < |c| {
      assert c[p..][1] == c[p + 1] && c[p..][2..] == c[p + 2..];
      assert d[..p + 1] == c[..p] + [c[p + 1]];
      assert d[p + 1..] == c[p + 2..];
    } else {
      assert d == c[..p];
    }
  }

  /** One step of the live walk at position `p`, when the node there fails
      to stop: it stays, and the walk moves on. */
  lemma LiveFailStep(c: seq<Node>, p: nat, failing: set<Node>)
    requires p < |c| && c[p] in failing
    ensures c[..p] + LiveKept(c[p..], failing) == c[..p + 1] + LiveKept(c[p + 1..], failing)
  {
    assert c[..p + 1] == c[..p] + [c[p]];
    assert c[p..][1..] == c[p + 1..];
  }

  /** What stop leaves in the storage: the record deleted, or dumped again. */
  datatype StopOutcome = StorageDeleted | StorageDumped(record: ClusterRecord)

  // ---------------------------------------------------------------------
  // Cluster

  class Cluster {
    const template: string
    const name: Value
    const cloud: Value
    const cloudProvider: CloudProvider
    const setupProvider: SetupProvider
    /** The configurator's create_node, as the cluster sees it: the node
        settings it reads for a node type of the template, or the error it
        raises. */
    const nodeSettings: string -> Result<NodeSettings>
    /** `extra.get('ssh_to')`. */
    const sshTo: Option<Value>
    /** The keyword arguments the constructor was called with. */
    const extra: map<string, Option<Value>>
    /** The node groups, and the order in which the dict lists them. */
    var nodes: map<string, seq<Node>>
    var order: seq<string>

    ghost predicate Valid()
      reads this
    {
      WellFormed(order, nodes)
    }

    ghost predicate Positional()
      reads this
    {
      Named(nodes)
    }

    ghost predicate Configured()
      reads this
    {
      ConfiguredGroups(nodeSettings, nodes)
    }

    /** `__init__` up to the node loop: one empty group per entry of the
        group map, listed in `groups`, the map's iteration order. */
    constructor (template: string, name: Value, cloud: Value, cloudProvider: CloudProvider,
                 setupProvider: SetupProvider, nodeSettings: string -> Result<NodeSettings>, groups: seq<string>,
                 extra: map<string, Option<Value>>)
      requires Distinct(groups)
      ensures Valid() && Positional() && Configured()
      ensures this.template == template && this.name == name && this.cloud == cloud
      ensures this.cloudProvider == cloudProvider && this.setupProvider == setupProvider
      ensures this.nodeSettings == nodeSettings && this.extra == extra
      ensures sshTo == if "ssh_to" in extra then extra["ssh_to"] else None
      ensures order == groups && nodes == map g | g in groups :: []
    {
      this.template := template;
      this.name := name;
      this.cloud := cloud;
      this.cloudProvider := cloudProvider;
      this.setupProvider := setupProvider;
      this.nodeSettings := nodeSettings;
      this.sshTo := if "ssh_to" in extra then extra["ssh_to"] else None;
      this.extra := extra;
      nodes := map g | g in groups :: [];
      order := groups;
    }

    /** Every node object of every group, whatever the layout. */
    function NodeObjects(): set<object>
      reads this
    {
      set g, k | g in nodes && 0 <= k < |nodes[g]| :: nodes[g][k] as object
    }

    /** The node objects of all groups. */
    function Members(): set<Node>
      reads this
      requires Valid()
    {
      set n | n in AllNodes()
    }

    /** get_all_nodes: the groups concatenated in dict order; as long as the
        sizes together, and without repetitions. */
    function AllNodes(): (r: seq<Node>)
      reads this
      requires Valid()
      ensures |r| == TotalSize(order, nodes)
      ensures Distinct(r)
      ensures order == [] ==> r == []
    {
      ConcatLength(order, nodes);
      ConcatDistinct(order, nodes);
      Concat(order, nodes)
    }

    /** dump_cluster: the record stored for the cluster, with the size of
        every group and the five fields of every node in get_all_nodes order. */
    function Record(): (r: ClusterRecord)
      reads this, Members()
      requires Valid()
      ensures r.name == name && r.template == template
      ensures r.sizes.Keys == nodes.Keys && forall g :: g in nodes ==> r.sizes[g] == |nodes[g]|
      ensures |r.nodes| == TotalSize(order, nodes)
      ensures forall i :: 0 <= i < |r.nodes| ==> r.nodes[i] == RecordOf(AllNodes()[i])
    {
      ClusterRecord(name, template, map g | g in nodes :: |nodes[g]|, Records(AllNodes()))
    }

    /** add_node: a fresh node named after its type and the new size of its
        group (`%s%03d`), appended to that group. The group must exist
        (KeyError otherwise); the node settings come from the template's
        configuration, and their errors escape with nothing changed. */
    method AddNode(t: string) returns (r: Result<Node>)
      requires Valid()
      modifies this
      ensures Valid() && order == old(order)
      ensures old(Positional()) ==> Positional()
      ensures old(Configured()) ==> Configured()
      ensures t !in old(nodes) ==> r == Err(KeyError(t))
      ensures t in old(nodes) && nodeSettings(t).Err? ==>
                r == Err(nodeSettings(t).error)
      ensures r.Err? ==> nodes == old(nodes)
      ensures t in old(nodes) && nodeSettings(t).Ok? ==>
                && r.Ok? && fresh(r.value)
                && nodes == old(nodes)[t := old(nodes)[t] + [r.value]]
                && r.value.name == t + Format03(|old(nodes)[t]| + 1)
                && r.value.nodeType == t
                && r.value.settings == nodeSettings(t).value
                && r.value.cloudProvider == cloudProvider
                && r.value.instanceId == None && r.value.ipPublic == None && r.value.ipPrivate == None
    {
      if t !in nodes {
        return Err(KeyError(t));
      }
      var name := t + Format03(|nodes[t]| + 1);
      var settings :- nodeSettings(t);
      var node := new Node(name, t, cloudProvider, settings);
      AppendToGroup(order, nodes, t, node, nodeSettings);
      nodes := nodes[t := nodes[t] + [node]];
      r := Ok(node);
    }

    /** `for i in range(count): self.add_node(t)`: `count` new nodes (none
        when `count` is below one) appended to group `t`. Every call reads the
        same settings, so if one add_node fails the first one does, and the
        group is left as it was. */
    method AddNodes(t: string, count: int) returns (r: Result<()>)
      requires Valid()
      modifies this
      ensures Valid() && order == old(order)
      ensures old(Positional()) ==> Positional()
      ensures old(Configured()) ==> Configured()
      ensures r.Ok? <==> count <= 0 || (t in old(nodes) && nodeSettings(t).Ok?)
      ensures r.Err? ==> nodes == old(nodes)
      ensures r.Err? && t !in old(nodes) ==> r.error == KeyError(t)
      ensures r.Err? && t in old(nodes) ==> nodeSettings(t) == Err(r.error)
      ensures count <= 0 ==> nodes == old(nodes)
      ensures r.Ok? && count > 0 ==>
                && t in nodes && nodes == old(nodes)[t := nodes[t]]
                && |nodes[t]| == |old(nodes)[t]| + count
                && nodes[t][..|old(nodes)[t]|] == old(nodes)[t]
      ensures r.Ok? && count > 0 ==> forall k :: |old(nodes)[t]| <= k < |nodes[t]| ==> fresh(nodes[t][k])
    {
      if count <= 0 {
        return Ok(());
      }
      for i := 0 to count
        invariant Valid() && order == old(order)
        invariant old(Positional()) ==> Positional()
        invariant old(Configured()) ==> Configured()
        invariant i == 0 ==> nodes == old(nodes)
        invariant i > 0 ==> && t in old(nodes) && nodeSettings(t).Ok?
                            && t in nodes && nodes == old(nodes)[t := nodes[t]]
                            && |nodes[t]| == |old(nodes)[t]| + i
                            && nodes[t][..|old(nodes)[t]|] == old(nodes)[t]
                            && forall k :: |old(nodes)[t]| <= k < |nodes[t]| ==> fresh(nodes[t][k])
      {
        ghost var prev := nodes;
        var added := AddNode(t);
        if added.Err? {
          return Err(added.error);
        }
        GrowGroup(old(nodes), prev, t, added.value);
      }
      return Ok(());
    }

    /** The `__init__` node loop: `counts[g]` nodes added to each group `g`,
        group after group in `order`. The first group that asks for nodes and
        whose node settings cannot be read stops the loop with that error. */
    method Populate(counts: map<string, int>) returns (r: Result<()>)
      requires Valid() && Positional() && Configured()
      requires counts.Keys == nodes.Keys && forall g :: g in nodes ==> nodes[g] == []
      modifies this
      ensures Valid() && Positional() && Configured() && order == old(order) && nodes.Keys == old(nodes).Keys
      ensures r.Ok? <==> forall g :: g in counts && counts[g] > 0 ==> nodeSettings(g).Ok?
      ensures r.Ok? ==> forall g :: g in nodes ==> |nodes[g]| == Planned(counts[g])
      ensures r.Err? ==> exists k :: && 0 <= k < |order| && counts[order[k]] > 0
                                     && nodeSettings(order[k]) == Err(r.error)
                                     && forall j :: 0 <= j < k && counts[order[j]] > 0 ==> nodeSettings(order[j]).Ok?
      ensures forall g, k :: g in nodes && 0 <= k < |nodes[g]| ==> fresh(nodes[g][k])
    {
      for k := 0 to |order|
        invariant Valid() && Positional() && Configured() && order == old(order) && nodes.Keys == old(nodes).Keys
        invariant forall g :: g in order[..k] && counts[g] > 0 ==> nodeSettings(g).Ok?
        invariant forall g :: g in nodes ==> |nodes[g]| == (if g in order[..k] then Planned(counts[g]) else 0)
        invariant forall g, j :: g in nodes && 0 <= j < |nodes[g]| ==> fresh(nodes[g][j])
      {
        var g := order[k];
        assert order[..k + 1] == order[..k] + [g];
        assert g !in order[..k] by {
          forall j | 0 <= j < k ensures order[..k][j] != g { assert order[..k][j] == order[j]; }
        }
        ghost var prev := nodes;
        r := AddNodes(g, counts[g]);
        forall h, j | h in nodes && 0 <= j < |nodes[h]| ensures fresh(nodes[h][j]) {
          if h != g || counts[g] <= 0 || r.Err? {
            assert nodes[h] == prev[h];
          }
        }
        if r.Err? {
          forall j | 0 <= j < k ensures order[j] in order[..k] { assert order[..k][j] == order[j]; }
          return;
        }
      }
      assert order[..|order|] == order;
      return Ok(());
    }

    /** `cluster.nodes = dict((k, []) for k in cluster.nodes)` in
        load_cluster: every group emptied, none dropped. */
    method ClearGroups()
      requires Valid()
      modifies this
      ensures Valid() && Positional() && Configured() && order == old(order)
      ensures nodes == map g | g in old(nodes) :: []
    {
      nodes := map g | g in nodes :: [];
    }

    /** `if dnode['type'] not in cluster.nodes: cluster.nodes[dnode['type']] = []`
        in load_cluster: a missing group is created empty and listed last. */
    method EnsureGroup(t: string)
      requires Valid()
      modifies this
      ensures Valid() && t in nodes
      ensures old(Positional()) ==> Positional()
      ensures old(Configured()) ==> Configured()
      ensures t in old(nodes) ==> nodes == old(nodes) && order == old(order)
      ensures t !in old(nodes) ==> nodes == old(nodes)[t := []] && order == old(order) + [t]
    {
      if t !in nodes {
        NewGroup(order, nodes, t, nodeSettings);
        nodes := nodes[t := []];
        order := order + [t];
      }
    }

    /** One pass of load_cluster's loop over the stored node records, once
        the record's group exists: add_node appends a node to it (named by
        position; the stored name is dropped) and the stored instance id and
        addresses are copied onto that node. */
    method AddRestored(rec: NodeRecord) returns (r: Result<Node>)
      requires Valid() && rec.nodeType in nodes
      modifies this
      ensures Valid() && order == old(order)
      ensures old(Positional()) ==> Positional()
      ensures old(Configured()) ==> Configured()
      ensures r.Ok? <==> nodeSettings(rec.nodeType).Ok?
      ensures r.Err? ==> nodeSettings(rec.nodeType) == Err(r.error) && nodes == old(nodes)
      ensures r.Ok? ==> && fresh(r.value) && r.value.settings == nodeSettings(rec.nodeType).value
                        && nodes == old(nodes)[rec.nodeType := old(nodes)[rec.nodeType] + [r.value]]
                        && RecordOf(r.value) == rec.(name := rec.nodeType + Format03(|old(nodes)[rec.nodeType]| + 1))
    {
      var node :- AddNode(rec.nodeType);
      node.Restore(rec);
      r := Ok(node);
    }

    /** stop, applied to this cluster's groups: see RemoveStopped. */
    method StopNodes(failing: set<Node>)
      requires Valid()
      modifies this
      ensures Valid() && order == old(order) && nodes.Keys == old(nodes).Keys
      ensures forall g :: g in nodes ==> nodes[g] == Kept(old(nodes)[g], failing)
    {
      var all := AllNodes();
      nodes := RemoveStopped(order, nodes, all, failing);
    }

    /** stop's loop as written: with exactly one group, get_all_nodes returns
        that group's own list and the loop walks it while removing from it
        (see LiveKept); with any other number of groups it walks a fresh
        concatenation, as StopNodes says. */
    method StopNodesAsWritten(failing: set<Node>)
      requires Valid()
      modifies this
      ensures Valid() && order == old(order) && nodes.Keys == old(nodes).Keys
      ensures |order| == 1 ==> nodes == old(nodes)[order[0] := LiveKept(old(nodes)[order[0]], failing)]
      ensures |order| != 1 ==> forall g :: g in nodes ==> nodes[g] == Kept(old(nodes)[g], failing)
    {
      if |order| == 1 {
        var g := order[0];
        var kept := RemoveLive(nodes[g], failing);
        LiveKeptNodes(nodes[g], failing);
        nodes := nodes[g := kept];
      } else {
        StopNodes(failing);
      }
    }

    /** stop: the nodes are terminated as StopNodes says; then the storage is
        deleted when no node is left or `force` is set, and the cluster is
        dumped again otherwise. */
    method Stop(force: bool, failing: set<Node>) returns (outcome: StopOutcome)
      requires Valid()
      modifies this
      ensures Valid() && order == old(order) && nodes.Keys == old(nodes).Keys
      ensures forall g :: g in nodes ==> nodes[g] == Kept(old(nodes)[g], failing)
      ensures outcome.StorageDeleted? <==> AllNodes() == [] || force
      ensures outcome.StorageDumped? ==> outcome.record == Record()
    {
      StopNodes(failing);
      if AllNodes() == [] || force {
        outcome := StorageDeleted;
      } else {
        outcome := StorageDumped(Record());
      }
    }

    /** get_frontend_node: the first node of the `ssh_to` group when that
        group has nodes; an `ssh_to` that names no group is NodeNotFound;
        otherwise the first node of the alphabetically least group that has
        nodes, and NodeNotFound when every group is empty. */
    function FrontendNode(): (r: Result<Node>)
      reads this
      requires Valid()
      ensures sshTo.Some? && TruthyValue(sshTo.value) && !(sshTo.value.Str? && sshTo.value.s in nodes) ==>
                r == Err(NodeNotFound)
      ensures sshTo.Some? && sshTo.value.Str? && sshTo.value.s in nodes && nodes[sshTo.value.s] != [] ==>
                r == Ok(nodes[sshTo.value.s][0])
      ensures r.Err? ==> r.error == NodeNotFound
      ensures r.Ok? ==> exists g :: g in nodes && nodes[g] != [] && r.value == nodes[g][0]
      ensures (sshTo.None? || !TruthyValue(sshTo.value) || (sshTo.value.Str? && sshTo.value.s in nodes && nodes[sshTo.value.s] == [])) ==>
                && (r.Ok? <==> exists g :: g in nodes && nodes[g] != [])
                && (r.Ok? ==> exists g :: && g in nodes && nodes[g] != [] && r.value == nodes[g][0]
                                          && forall h :: h in nodes && nodes[h] != [] ==> LexLessEq(g, h))
    {
      if sshTo.Some? && TruthyValue(sshTo.value) then
        if sshTo.value.Str? && sshTo.value.s in nodes then
          if nodes[sshTo.value.s] != [] then Ok(nodes[sshTo.value.s][0]) else FirstOfLeastGroup()
        else Err(NodeNotFound)
      else FirstOfLeastGroup()
    }

    function FirstOfLeastGroup(): (r: Result<Node>)
      reads this
      requires Valid()
      ensures r.Err? ==> r.error == NodeNotFound
      ensures r.Ok? <==> exists g :: g in nodes && nodes[g] != []
      ensures r.Ok? ==> exists g :: && g in nodes && nodes[g] != [] && r.value == nodes[g][0]
                                    && forall h :: h in nodes && nodes[h] != [] ==> LexLessEq(g, h)
    {
      match LeastNonEmpty(order, nodes)
      case None => Err(NodeNotFound)
      case Some(g) => Ok(nodes[g][0])
    }
  }

  /** The alphabetically least of the listed groups that hold a node. */
  function LeastNonEmpty(order: seq<string>, groups: map<string, seq<Node>>): (r: Option<string>)
    requires forall g :: g in order ==> g in groups
    ensures r.None? <==> forall g :: g in order ==> groups[g] == []
    ensures r.Some? ==> r.value in order && groups[r.value] != []
    ensures r.Some? ==> forall g :: g in order && groups[g] != [] ==> LexLessEq(r.value, g)
  {
    if order == [] then None
    else
      var init := order[..|order| - 1];
      var last := order[|order| - 1];
      assert forall g :: g in order <==> g in init || g == last;
      var best := LeastNonEmpty(init, groups);
      if groups[last] == [] then best
      else if best.None? then LexReflexive(last); Some(last)
      else if LexLessEq(best.value, last) then best
      else
        LexTotal(best.value, last);
        LexReflexive(last);
        assert forall g :: g in init && groups[g] != [] ==> LexLessEq(last, g) by {
          forall g | g in init && groups[g] != [] ensures LexLessEq(last, g) {
            LexTransitive(last, best.value, g);
          }
        }
        Some(last)
  }

  // ---------------------------------------------------------------------
  // ClusterStorage.get_stored_clusters

  /** One entry of the storage directory: its name, and whether it is a
      regular file. */
  datatype DirEntry = DirEntry(name: string, isFile: bool)

  /** A stored cluster: a regular file named `<cluster>.json`. */
  predicate IsStorageFile(e: DirEntry) {
    e.isFile && EndsWith(e.name, ".json")
  }

  /** The cluster names of the storage files among `entries`, in listing order. */
  function StoredNames(entries: seq<DirEntry>): seq<string> {
    if entries == [] then []
    else
      var e := entries[|entries| - 1];
      StoredNames(entries[..|entries| - 1]) + (if IsStorageFile(e) then [e.name[..|e.name| - 5]] else [])
  }

  /** A name is listed exactly when `<name>.json` is a regular file of the
      directory. */
  lemma {:induction false} StoredNamesMember(entries: seq<DirEntry>, c: string)
    ensures c in StoredNames(entries) <==> DirEntry(c + ".json", true) in entries
  {
    if entries != [] {
      var init := entries[..|entries| - 1];
      var e := entries[|entries| - 1];
      StoredNamesMember(init, c);
      assert entries == init + [e];
      if IsStorageFile(e) {
        var n := e.name[..|e.name| - 5];
        assert e.name == n + ".json";
        if c == n {
          assert e == DirEntry(c + ".json", true);
        }
        if e == DirEntry(c + ".json", true) {
          assert e.name[..|e.name| - 5] == c;
        }
      } else {
        assert e != DirEntry(c + ".json", true);
      }
    }
  }

  /** get_stored_clusters: every storage file, with `.json` dropped; other
      entries are ignored. */
  method StoredClusters(entries: seq<DirEntry>) returns (names: seq<string>)
    ensures names == StoredNames(entries)
    ensures |names| <= |entries|
  {
    names := [];
    for i := 0 to |entries|
      invariant names == StoredNames(entries[..i])
      invariant |names| <= i
    {
      var e := entries[i];
      if e.isFile && EndsWith(e.name, ".json") {
        names := names + [e.name[..|e.name| - 5]];
      }
      assert entries[..i + 1][..i] == entries[..i];
    }
    assert entries[..|entries|] == entries;
  }
}
