/** The command-line side of elasticluster/subcommands.py that has logic of
    its own: the `--nodes` arguments of `start` and `resize`, the add and
    pop loops of `resize`, the pattern filter of `list-templates`, and the
    argument vectors of `ssh` and `sftp`. */
module Subcommands {
  import opened Common
  import opened Conf
  import opened Cluster

  // ---------------------------------------------------------------------
  // Start.pre_run: `--nodes N1:GROUP1,N2:GROUP2,...`

  /** What pre_run raises when a spec does not split into two parts on `:`
      or its count is not an integer. */
  const NodesError: Error := ConfigurationError("--nodes")

  /** One `N:GROUP` spec of start: the group and `int(N)`. */
  function StartSpec(spec: string): (r: Result<(string, int)>)
    ensures r.Ok? <==> |Split(spec, ':')| == 2 && ParseInt(Split(spec, ':')[0]).Some?
    ensures r.Err? ==> r.error == NodesError
    ensures r.Ok? ==> ':' !in r.value.0
  {
    var parts := Split(spec, ':');
    if |parts| != 2 then Err(NodesError)
    else
      match ParseInt(parts[0])
      case None => Err(NodesError)
      case Some(n) => Ok((parts[1], n))
  }

  /** A spec written as `"%d:%s"` from a count and a group without `:` reads
      back as that count and group. */
  lemma StartSpecRoundTrip(n: nat, g: string)
    requires ':' !in g
    ensures StartSpec(ShowNat(n) + ":" + g) == Ok((g, n))
  {
    var d := ShowNat(n);
    assert ':' !in d by { ShowNatValue(n); }
    assert d + ":" + g == Join([d, g], ':');
    SplitJoin([d, g], ':');
    ParseShowNat(n);
  }

  /** The map that specs write one after the other, `parse` giving each
      spec's key and value: a later spec for a key replaces an earlier one,
      and the first malformed spec stops everything with its error. */
  function Assign<K(==), V>(specs: seq<string>, parse: string -> Result<(K, V)>): Result<map<K, V>> {
    if specs == [] then Ok(map[])
    else
      var m :- Assign(specs[..|specs| - 1], parse);
      var p :- parse(specs[|specs| - 1]);
      Ok(m[p.0 := p.1])
  }

  /** The map is written exactly when every spec is well formed, and the
      error is otherwise that of the first malformed spec. */
  lemma {:induction false} AssignOk<K, V>(specs: seq<string>, parse: string -> Result<(K, V)>)
    ensures Assign(specs, parse).Ok? <==> forall i :: 0 <= i < |specs| ==> parse(specs[i]).Ok?
    ensures Assign(specs, parse).Err? ==>
              exists i :: && 0 <= i < |specs| && parse(specs[i]) == Err(Assign(specs, parse).error)
                          && forall j :: 0 <= j < i ==> parse(specs[j]).Ok?
  {
    if specs != [] {
      var init := specs[..|specs| - 1];
      AssignOk(init, parse);
      assert forall i :: 0 <= i < |init| ==> init[i] == specs[i];
    }
  }

  /** Every key comes from some spec, and holds the value of the last spec
      for that key. */
  lemma {:induction false} AssignLast<K, V>(specs: seq<string>, parse: string -> Result<(K, V)>)
    requires Assign(specs, parse).Ok?
    ensures var m := Assign(specs, parse).value;
            && (forall k :: k in m <==> exists i :: 0 <= i < |specs| && parse(specs[i]).Ok?
                                                   && k == parse(specs[i]).value.0)
            && (forall i :: 0 <= i < |specs| && parse(specs[i]).Ok?
                             && (forall j :: i < j < |specs| && parse(specs[j]).Ok? ==>
                                               parse(specs[j]).value.0 != parse(specs[i]).value.0) ==>
                  parse(specs[i]).value.0 in m && m[parse(specs[i]).value.0] == parse(specs[i]).value.1)
  {
    if specs != [] {
      var init := specs[..|specs| - 1];
      AssignLast(init, parse);
      assert forall i :: 0 <= i < |init| ==> init[i] == specs[i];
    }
  }

  /** One more well-formed spec writes its entry over the map so far. */
  lemma AssignStep<K, V>(specs: seq<string>, parse: string -> Result<(K, V)>, i: nat, m: map<K, V>)
    requires i < |specs| && Assign(specs[..i], parse) == Ok(m) && parse(specs[i]).Ok?
    ensures Assign(specs[..i + 1], parse) == Ok(m[parse(specs[i]).value.0 := parse(specs[i]).value.1])
  {
    assert specs[..i + 1][..i] == specs[..i];
  }

  /** The spec that stops the writing is the first malformed one. */
  lemma AssignStops<K, V>(specs: seq<string>, parse: string -> Result<(K, V)>, i: nat)
    requires i < |specs| && Assign(specs[..i], parse).Ok? && parse(specs[i]).Err?
    ensures Assign(specs, parse) == Err(parse(specs[i]).error)
  {
    AssignOk(specs[..i], parse);
    forall j | 0 <= j < i ensures parse(specs[j]).Ok? {
      assert specs[..i][j] == specs[j];
    }
    AssignOk(specs, parse);
  }

  /** One start spec as the override it sets. */
  function StartEntry(spec: string): (r: Result<(string, Value)>)
    ensures r.Err? ==> r.error == NodesError
    ensures r.Ok? ==> StartSpec(spec).Ok? && r.value == (StartSpec(spec).value.0 + "_nodes", Num(StartSpec(spec).value.1))
  {
    var p :- StartSpec(spec);
    Ok((p.0 + "_nodes", Num(p.1)))
  }

  /** The overrides start's specs set. */
  function StartOverrides(specs: seq<string>): Result<map<string, Value>> {
    Assign(specs, StartEntry)
  }

  /** `a + s == b + s` only when `a == b`. */
  lemma SuffixCancel(a: string, b: string, s: string)
    requires a + s == b + s
    ensures a == b
  {
    assert |a| == |b|;
    forall i | 0 <= i < |a| ensures a[i] == b[i] {
      assert (a + s)[i] == a[i] && (b + s)[i] == b[i];
    }
  }

  /** With every spec well formed, the keys are the `<group>_nodes` of the
      specs' groups. */
  lemma StartOverridesKeys(specs: seq<string>)
    requires forall j :: 0 <= j < |specs| ==> StartSpec(specs[j]).Ok?
    ensures StartOverrides(specs).Ok?
    ensures forall k :: k in StartOverrides(specs).value <==>
                          exists j :: 0 <= j < |specs| && k == StartSpec(specs[j]).value.0 + "_nodes"
  {
    AssignOk(specs, StartEntry);
    AssignLast(specs, StartEntry);
  }

  /** The override of a group is the count of the last spec for it. */
  lemma StartOverridesLast(specs: seq<string>, i: nat)
    requires forall j :: 0 <= j < |specs| ==> StartSpec(specs[j]).Ok?
    requires i < |specs|
    requires forall j :: i < j < |specs| ==> StartSpec(specs[j]).value.0 != StartSpec(specs[i]).value.0
    ensures StartOverrides(specs).Ok?
    ensures var key := StartSpec(specs[i]).value.0 + "_nodes";
            key in StartOverrides(specs).value && StartOverrides(specs).value[key] == Num(StartSpec(specs[i]).value.1)
  {
    AssignOk(specs, StartEntry);
    forall j | i < j < |specs|
      ensures StartEntry(specs[j]).value.0 != StartEntry(specs[i]).value.0
    {
      var g, h := StartSpec(specs[j]).value.0, StartSpec(specs[i]).value.0;
      if g + "_nodes" == h + "_nodes" {
        SuffixCancel(g, h, "_nodes");
      }
    }
    AssignLast(specs, StartEntry);
  }

  /** Start.pre_run: the `<group>_nodes` overrides of `--nodes`; none when
      the option is absent or empty. */
  method StartPreRun(nodes: Option<string>) returns (r: Result<map<string, Value>>)
    ensures nodes.None? || nodes.value == "" ==> r == Ok(map[])
    ensures nodes.Some? && nodes.value != "" ==> r == StartOverrides(Split(nodes.value, ','))
  {
    if nodes.Some? && nodes.value != "" {
      r := StartSpecs(Split(nodes.value, ','));
    } else {
      r := Ok(map[]);
    }
  }

  /** The loop of Start.pre_run over the comma-separated specs. */
  method StartSpecs(specs: seq<string>) returns (r: Result<map<string, Value>>)
    ensures r == StartOverrides(specs)
  {
    var extra: map<string, Value> := map[];
    for i := 0 to |specs|
      invariant Assign(specs[..i], StartEntry) == Ok(extra)
    {
      var parts := Split(specs[i], ':');
      if |parts| != 2 || ParseInt(parts[0]).None? {
        AssignStops(specs, StartEntry, i);
        return Err(NodesError);
      }
      var n := ParseInt(parts[0]).value;
      AssignStep(specs, StartEntry, i, extra);
      extra := extra[parts[1] + "_nodes" := Num(n)];
    }
    assert specs[..|specs|] == specs;
    return Ok(extra);
  }

  // ---------------------------------------------------------------------
  // ResizeCluster.pre_run: `--nodes +-N1:GROUP1,+-N2:GROUP2,...`

  /** One spec of resize: whether it removes nodes (its count starts with
      `-`), its group and its count. An empty count fails on `n[0]` with an
      IndexError, which pre_run does not catch. */
  function ResizeSpec(spec: string): (r: Result<(bool, string, int)>)
    ensures r.Err? ==> r.error == NodesError || r.error == IndexError
    ensures r.Ok? ==> |Split(spec, ':')| == 2 && r.value.1 == Split(spec, ':')[1]
    ensures r.Ok? ==> |Split(spec, ':')[0]| > 0 && (r.value.0 <==> Split(spec, ':')[0][0] == '-')
  {
    var parts := Split(spec, ':');
    if |parts| != 2 then Err(NodesError)
    else
      var n := parts[0];
      if n == "" then Err(IndexError)
      else if n[0] == '-' then
        match ParseInt(n[1..])
        case None => Err(NodesError)
        case Some(k) => Ok((true, parts[1], k))
      else
        match ParseInt(n)
        case None => Err(NodesError)
        case Some(k) => Ok((false, parts[1], k))
  }

  /** `int("+" + d)` for a run of digits `d`. */
  lemma ParsePlus(d: string)
    requires |d| >= 1 && AllDigits(d)
    ensures ParseInt("+" + d) == Some(DigitsValue(d))
  {
    var s := "+" + d;
    assert ParseInt(s) == ParseSigned(s) by { StripPlus(d); }
    assert s[0] == '+' && s[1..] == d;
    LeadingDigit(d);
    assert ParseSigned(s) == ParseUnsigned(d);
  }

  lemma StripPlus(d: string)
    requires |d| >= 1 && AllDigits(d)
    ensures Strip("+" + d, Whitespace) == "+" + d
  {
    var s := "+" + d;
    assert s[0] !in Whitespace;
    assert StripLeft(s, Whitespace) == s;
    assert IsDigit(s[|s| - 1]) && s[|s| - 1] !in Whitespace;
    assert StripRight(s, Whitespace) == s;
  }

  /** The three spellings of a count: `N` and `+N` add `N` nodes, `-N`
      removes `N`. */
  lemma ResizeSpecRoundTrip(n: nat, g: string)
    requires ':' !in g
    ensures ResizeSpec(ShowNat(n) + ":" + g) == Ok((false, g, n))
    ensures ResizeSpec("+" + ShowNat(n) + ":" + g) == Ok((false, g, n))
    ensures ResizeSpec("-" + ShowNat(n) + ":" + g) == Ok((true, g, n))
  {
    var d := ShowNat(n);
    ShowNatValue(n);
    ResizeSpecCount(d, g);
    ParseShowNat(n);
    assert IsDigit(d[0]);
    ResizeSpecCount("+" + d, g);
    ParsePlus(d);
    ResizeSpecCount("-" + d, g);
    assert ("-" + d)[1..] == d;
  }

  /** A count without `:` before a group without `:`: the spec splits into
      the two. */
  lemma ResizeSpecCount(c: string, g: string)
    requires ':' !in c && ':' !in g && c != ""
    ensures c[0] == '-' ==> ResizeSpec(c + ":" + g) == match ParseInt(c[1..])
                                                        case None => Err(NodesError)
                                                        case Some(k) => Ok((true, g, k))
    ensures c[0] != '-' ==> ResizeSpec(c + ":" + g) == match ParseInt(c)
                                                        case None => Err(NodesError)
                                                        case Some(k) => Ok((false, g, k))
  {
    assert c + ":" + g == Join([c, g], ':');
    SplitJoin([c, g], ':');
  }

  /** A spec with nothing before its `:` is an IndexError, not a
      ConfigurationError. */
  lemma ResizeSpecEmptyCount(g: string)
    requires ':' !in g
    ensures ResizeSpec(":" + g) == Err(IndexError)
  {
    assert ":" + g == Join(["", g], ':');
    SplitJoin(["", g], ':');
  }

  /** One resize spec as the entry it writes, keyed by the map it goes to
      (removal or not) and its group. */
  function ResizeEntry(spec: string): (r: Result<((bool, string), int)>)
    ensures r.Err? ==> ResizeSpec(spec) == Err(r.error)
    ensures r.Ok? ==> ResizeSpec(spec).Ok? && r.value == ((ResizeSpec(spec).value.0, ResizeSpec(spec).value.1),
                                                         ResizeSpec(spec).value.2)
  {
    var p :- ResizeSpec(spec);
    Ok(((p.0, p.1), p.2))
  }

  /** `nodes_to_add` and `nodes_to_remove`. */
  datatype Plan = Plan(toAdd: map<string, int>, toRemove: map<string, int>)

  /** The entries of one of the two maps. */
  function Part(m: map<(bool, string), int>, removal: bool): (r: map<string, int>)
    ensures forall g :: g in r <==> (removal, g) in m
    ensures forall g :: g in r ==> r[g] == m[(removal, g)]
  {
    map k | k in m && k.0 == removal :: k.1 := m[k]
  }

  /** Writing an entry changes only the map it is tagged for. */
  lemma PartUpdate(m: map<(bool, string), int>, removal: bool, g: string, k: int)
    ensures Part(m[(removal, g) := k], removal) == Part(m, removal)[g := k]
    ensures Part(m[(removal, g) := k], !removal) == Part(m, !removal)
  {
  }

  /** The two maps the specs write, one spec after the other. */
  function ResizePlan(specs: seq<string>): Result<Plan> {
    var m :- Assign(specs, ResizeEntry);
    Ok(Plan(Part(m, false), Part(m, true)))
  }

  /** The plan is made exactly when every spec is well formed; otherwise the
      error is that of the first malformed spec. */
  lemma ResizePlanOk(specs: seq<string>)
    ensures ResizePlan(specs).Ok? <==> forall j :: 0 <= j < |specs| ==> ResizeSpec(specs[j]).Ok?
    ensures ResizePlan(specs).Err? ==>
              exists i :: && 0 <= i < |specs| && ResizeSpec(specs[i]) == Err(ResizePlan(specs).error)
                          && forall j :: 0 <= j < i ==> ResizeSpec(specs[j]).Ok?
  {
    AssignOk(specs, ResizeEntry);
  }

  /** A group is in the add map exactly when some spec adds to it, and in the
      remove map exactly when some spec removes from it. */
  lemma ResizePlanKeys(specs: seq<string>)
    requires forall j :: 0 <= j < |specs| ==> ResizeSpec(specs[j]).Ok?
    ensures ResizePlan(specs).Ok?
    ensures forall g :: g in ResizePlan(specs).value.toAdd <==>
                          exists j :: 0 <= j < |specs| && ResizeSpec(specs[j]).value.0 == false
                                      && ResizeSpec(specs[j]).value.1 == g
    ensures forall g :: g in ResizePlan(specs).value.toRemove <==>
                          exists j :: 0 <= j < |specs| && ResizeSpec(specs[j]).value.0 == true
                                      && ResizeSpec(specs[j]).value.1 == g
  {
    AssignOk(specs, ResizeEntry);
    AssignLast(specs, ResizeEntry);
    var m := Assign(specs, ResizeEntry).value;
    forall removal: bool, g: string
      ensures (removal, g) in m <==>
              exists j :: 0 <= j < |specs| && ResizeSpec(specs[j]).value.0 == removal
                          && ResizeSpec(specs[j]).value.1 == g
    {
      if (removal, g) in m {
        var j :| 0 <= j < |specs| && ResizeEntry(specs[j]).Ok? && (removal, g) == ResizeEntry(specs[j]).value.0;
        assert ResizeSpec(specs[j]).value.0 == removal && ResizeSpec(specs[j]).value.1 == g;
      }
      if exists j :: 0 <= j < |specs| && ResizeSpec(specs[j]).value.0 == removal
                     && ResizeSpec(specs[j]).value.1 == g {
        var j :| 0 <= j < |specs| && ResizeSpec(specs[j]).value.0 == removal
                 && ResizeSpec(specs[j]).value.1 == g;
        assert ResizeEntry(specs[j]).Ok? && (removal, g) == ResizeEntry(specs[j]).value.0;
      }
    }
  }

  /** The entry of a group is the count of the last spec that adds to it,
      or removes from it; a repeated group does not accumulate. */
  lemma ResizePlanLast(specs: seq<string>, i: nat)
    requires forall j :: 0 <= j < |specs| ==> ResizeSpec(specs[j]).Ok?
    requires i < |specs|
    requires forall j :: i < j < |specs| ==>
               (ResizeSpec(specs[j]).value.0, ResizeSpec(specs[j]).value.1)
               != (ResizeSpec(specs[i]).value.0, ResizeSpec(specs[i]).value.1)
    ensures ResizePlan(specs).Ok?
    ensures var p := ResizeSpec(specs[i]).value;
            var plan := ResizePlan(specs).value;
            var target := if p.0 then plan.toRemove else plan.toAdd;
            p.1 in target && target[p.1] == p.2
  {
    AssignOk(specs, ResizeEntry);
    AssignLast(specs, ResizeEntry);
  }

  /** ResizeCluster.pre_run: `nodes_to_add` and `nodes_to_remove` from
      `--nodes`; both empty when the option is absent or empty. */
  method ResizePreRun(nodes: Option<string>) returns (r: Result<Plan>)
    ensures nodes.None? || nodes.value == "" ==> r == Ok(Plan(map[], map[]))
    ensures nodes.Some? && nodes.value != "" ==> r == ResizePlan(Split(nodes.value, ','))
  {
    if nodes.Some? && nodes.value != "" {
      r := PlanSpecs(Split(nodes.value, ','));
    } else {
      r := Ok(Plan(map[], map[]));
    }
  }

  /** The loop of ResizeCluster.pre_run over the comma-separated specs. */
  method PlanSpecs(specs: seq<string>) returns (r: Result<Plan>)
    ensures r == ResizePlan(specs)
  {
    var toAdd: map<string, int> := map[];
    var toRemove: map<string, int> := map[];
    ghost var m: map<(bool, string), int> := map[];
    for i := 0 to |specs|
      invariant Assign(specs[..i], ResizeEntry) == Ok(m)
      invariant toAdd == Part(m, false) && toRemove == Part(m, true)
    {
      var spec := ResizeSpec(specs[i]);
      if spec.Err? {
        AssignStops(specs, ResizeEntry, i);
        return Err(spec.error);
      }
      var (removal, group, count) := spec.value;
      AssignStep(specs, ResizeEntry, i, m);
      PartUpdate(m, removal, group, count);
      if removal {
        toRemove := toRemove[group := count];
      } else {
        toAdd := toAdd[group := count];
      }
      m := m[(removal, group) := count];
    }
    assert specs[..|specs|] == specs;
    return Ok(Plan(toAdd, toRemove));
  }

  // ---------------------------------------------------------------------
  // ResizeCluster.execute: the pop loop

  /** The nodes that `k` calls of `list.pop()` return, in the order they
      come: the last `k` of `s`, last one first. */
  function Popped(s: seq<Node>, k: nat): (r: seq<Node>)
    requires k <= |s|
    ensures |r| == k
    ensures forall j :: 0 <= j < k ==> r[j] == s[|s| - 1 - j]
  {
    if k == 0 then [] else Popped(s, k - 1) + [s[|s| - k]]
  }

  /** `count` pops from group `g`: the new groups and the popped nodes, or
      KeyError for a missing group and IndexError for `pop` on an empty
      list. A count below one pops nothing. */
  function PopStep(groups: map<string, seq<Node>>, g: string, count: int)
    : (r: Result<(map<string, seq<Node>>, seq<Node>)>)
  {
    if count <= 0 then Ok((groups, []))
    else if g !in groups then Err(KeyError(g))
    else if |groups[g]| < count then Err(IndexError)
    else Ok((groups[g := groups[g][..|groups[g]| - count]], Popped(groups[g], count)))
  }

  /** The pop loop over the groups listed in `order`: the new groups and all
      popped nodes, or the error of the first group that cannot give up its
      count. */
  function Removal(groups: map<string, seq<Node>>, toRemove: map<string, int>, order: seq<string>)
    : Result<(map<string, seq<Node>>, seq<Node>)>
    requires forall g :: g in order ==> g in toRemove
  {
    if order == [] then Ok((groups, []))
    else
      var done :- Removal(groups, toRemove, order[..|order| - 1]);
      var g := order[|order| - 1];
      var step :- PopStep(done.0, g, toRemove[g]);
      Ok((step.0, done.1 + step.1))
  }

  /** Once the pops fail on a prefix of the groups, they fail the same way
      on all of them. */
  lemma {:induction false} RemovalStops(groups: map<string, seq<Node>>, toRemove: map<string, int>,
                                        order: seq<string>, i: nat)
    requires i <= |order| && forall g :: g in order ==> g in toRemove
    requires Removal(groups, toRemove, order[..i]).Err?
    ensures Removal(groups, toRemove, order) == Removal(groups, toRemove, order[..i])
    decreases |order| - i
  {
    if i < |order| {
      var next := order[..i + 1];
      assert next[..i] == order[..i];
      RemovalStops(groups, toRemove, order, i + 1);
    } else {
      assert order[..i] == order;
    }
  }

  /** How many nodes a plan's map asks of group `g`: `range(count)` runs
      no times for a missing group or a count below one. */
  function Requested(toRemove: map<string, int>, g: string): nat {
    if g in toRemove then Planned(toRemove[g]) else 0
  }

  /** With each group listed once, the pops succeed exactly when every group
      asked for nodes exists and holds at least as many; each group then
      loses exactly its last `count` nodes, and no group appears or vanishes.
      Otherwise the error is a KeyError for a missing group, or IndexError. */
  lemma {:induction false} RemovalFacts(groups: map<string, seq<Node>>, toRemove: map<string, int>,
                                        order: seq<string>)
    requires Distinct(order) && forall g :: g in order ==> g in toRemove
    ensures Removal(groups, toRemove, order).Ok? <==>
              forall g :: g in order && toRemove[g] > 0 ==> g in groups && toRemove[g] <= |groups[g]|
    ensures Removal(groups, toRemove, order).Ok? ==>
              var cur := Removal(groups, toRemove, order).value.0;
              && cur.Keys == groups.Keys
              && forall g :: g in groups ==>
                   var k := if g in order then Requested(toRemove, g) else 0;
                   k <= |groups[g]| && cur[g] == groups[g][..|groups[g]| - k]
    ensures Removal(groups, toRemove, order).Err? ==>
              || Removal(groups, toRemove, order).error == IndexError
              || exists g :: && g in order && toRemove[g] > 0 && g !in groups
                             && Removal(groups, toRemove, order).error == KeyError(g)
  {
    if order != [] {
      var init := order[..|order| - 1];
      var last := order[|order| - 1];
      RemovalFacts(groups, toRemove, init);
      assert forall g :: g in order <==> g in init || g == last;
      assert last !in init;
    }
  }

  /** Cutting a group short keeps the groups well formed, named and
      configured. */
  lemma Truncate(order: seq<string>, groups: map<string, seq<Node>>, g: string, n: nat,
                 nodeSettings: string -> Result<NodeSettings>)
    requires WellFormed(order, groups) && g in groups && n <= |groups[g]|
    ensures WellFormed(order, groups[g := groups[g][..n]])
    ensures Named(groups) ==> Named(groups[g := groups[g][..n]])
    ensures ConfiguredGroups(nodeSettings, groups) ==> ConfiguredGroups(nodeSettings, groups[g := groups[g][..n]])
  {
    var after := groups[g := groups[g][..n]];
    forall h, x | h in after && x in after[h] ensures x in groups[h] {
      if h == g {
        var i :| 0 <= i < n && after[h][i] == x;
        assert groups[g][i] == x;
      }
    }
    forall h | h in after ensures Distinct(after[h]) {
      if h == g {
        forall i, j | 0 <= i < j < |after[h]| ensures after[h][i] != after[h][j] {
          assert after[h][i] == groups[g][i] && after[h][j] == groups[g][j];
        }
      }
    }
  }

  /** `cluster.nodes[grp].pop()` on an existing group: its last node, taken
      off the group, or IndexError for an empty group. */
  method PopLast(c: Cluster, g: string) returns (r: Result<Node>)
    requires c.Valid() && g in c.nodes
    modifies c
    ensures c.Valid() && c.order == old(c.order)
    ensures old(c.Positional()) ==> c.Positional()
    ensures old(c.Configured()) ==> c.Configured()
    ensures old(c.nodes)[g] == [] ==> r == Err(IndexError) && c.nodes == old(c.nodes)
    ensures old(c.nodes)[g] != [] ==>
              && r == Ok(old(c.nodes)[g][|old(c.nodes)[g]| - 1])
              && c.nodes == old(c.nodes)[g := old(c.nodes)[g][..|old(c.nodes)[g]| - 1]]
  {
    if c.nodes[g] == [] {
      return Err(IndexError);
    }
    var last := c.nodes[g][|c.nodes[g]| - 1];
    Truncate(c.order, c.nodes, g, |c.nodes[g]| - 1, c.nodeSettings);
    c.nodes := c.nodes[g := c.nodes[g][..|c.nodes[g]| - 1]];
    return Ok(last);
  }

  /** `count` times `cluster.nodes[grp].pop()`, the popped nodes in the
      order they come. */
  method PopGroup(c: Cluster, g: string, count: int) returns (r: Result<seq<Node>>)
    requires c.Valid()
    modifies c
    ensures c.Valid() && c.order == old(c.order) && c.nodes.Keys == old(c.nodes).Keys
    ensures old(c.Positional()) ==> c.Positional()
    ensures old(c.Configured()) ==> c.Configured()
    ensures r.Ok? ==> PopStep(old(c.nodes), g, count) == Ok((c.nodes, r.value))
    ensures r.Err? ==> PopStep(old(c.nodes), g, count) == Err(r.error)
  {
    if count <= 0 {
      return Ok([]);
    }
    if g !in c.nodes {
      return Err(KeyError(g));
    }
    r := PopN(c, g, count);
  }

  /** What the pop after the first `j` ones sees: the group cut to its first
      `|s| - j` nodes, whose last node is the next one popped. */
  lemma PopOne(s: seq<Node>, j: nat)
    requires j < |s|
    ensures s[..|s| - j][..|s| - j - 1] == s[..|s| - (j + 1)]
    ensures s[..|s| - j][|s| - j - 1] == s[|s| - 1 - j]
    ensures Popped(s, j + 1) == Popped(s, j) + [s[|s| - 1 - j]]
  {
  }

  /** The pop after the first `j` ones, on a group `g` that started as `s`:
      the next node from the end, or IndexError once all of `s` is gone. */
  method PopNext(c: Cluster, g: string, ghost base: map<string, seq<Node>>, ghost s: seq<Node>, j: nat)
    returns (r: Result<Node>)
    requires c.Valid() && j <= |s| && c.nodes == base[g := s[..|s| - j]]
    modifies c
    ensures c.Valid() && c.order == old(c.order)
    ensures old(c.Positional()) ==> c.Positional()
    ensures old(c.Configured()) ==> c.Configured()
    ensures r.Err? ==> r.error == IndexError && j == |s| && c.nodes == base[g := []]
    ensures r.Ok? ==> && j < |s| && c.nodes == base[g := s[..|s| - (j + 1)]]
                      && Popped(s, j + 1) == Popped(s, j) + [r.value]
  {
    r := PopLast(c, g);
    if r.Ok? {
      PopOne(s, j);
    }
  }

  /** The pop loop on an existing group: `count` nodes off its end, or
      IndexError once it runs empty. */
  method PopN(c: Cluster, g: string, count: nat) returns (r: Result<seq<Node>>)
    requires c.Valid() && g in c.nodes
    modifies c
    ensures c.Valid() && c.order == old(c.order)
    ensures old(c.Positional()) ==> c.Positional()
    ensures old(c.Configured()) ==> c.Configured()
    ensures r.Ok? <==> count <= |old(c.nodes)[g]|
    ensures r.Err? ==> r.error == IndexError && c.nodes == old(c.nodes)[g := []]
    ensures r.Ok? ==> && c.nodes == old(c.nodes)[g := old(c.nodes)[g][..|old(c.nodes)[g]| - count]]
                      && r.value == Popped(old(c.nodes)[g], count)
  {
    ghost var s := c.nodes[g];
    assert s[..|s|] == s;
    assert c.nodes == old(c.nodes)[g := s[..|s|]];
    var popped: seq<Node> := [];
    for j := 0 to count
      invariant c.Valid() && c.order == old(c.order)
      invariant old(c.Positional()) ==> c.Positional()
      invariant old(c.Configured()) ==> c.Configured()
      invariant j <= |s| && c.nodes == old(c.nodes)[g := s[..|s| - j]]
      invariant popped == Popped(s, j)
    {
      var last := PopNext(c, g, old(c.nodes), s, j);
      if last.Err? {
        return Err(IndexError);
      }
      popped := popped + [last.value];
    }
    return Ok(popped);
  }

  /** The second loop of ResizeCluster.execute: the groups of `order`, one
      after the other, each popped `count` times; the popped nodes come back
      in the order they were popped. */
  method RemovePhase(c: Cluster, toRemove: map<string, int>, order: seq<string>) returns (r: Result<seq<Node>>)
    requires c.Valid() && forall g :: g in order ==> g in toRemove
    modifies c
    ensures c.Valid() && c.order == old(c.order) && c.nodes.Keys == old(c.nodes).Keys
    ensures old(c.Positional()) ==> c.Positional()
    ensures old(c.Configured()) ==> c.Configured()
    ensures r.Ok? ==> Removal(old(c.nodes), toRemove, order) == Ok((c.nodes, r.value))
    ensures r.Err? ==> Removal(old(c.nodes), toRemove, order) == Err(r.error)
  {
    var popped: seq<Node> := [];
    for i := 0 to |order|
      invariant c.Valid() && c.order == old(c.order) && c.nodes.Keys == old(c.nodes).Keys
      invariant old(c.Positional()) ==> c.Positional()
      invariant old(c.Configured()) ==> c.Configured()
      invariant Removal(old(c.nodes), toRemove, order[..i]) == Ok((c.nodes, popped))
    {
      assert order[..i + 1][..i] == order[..i];
      var step := PopGroup(c, order[i], toRemove[order[i]]);
      if step.Err? {
        RemovalStops(old(c.nodes), toRemove, order, i + 1);
        return Err(step.error);
      }
      popped := popped + step.value;
    }
    assert order[..|order|] == order;
    return Ok(popped);
  }

  // ---------------------------------------------------------------------
  // ResizeCluster.execute: the add loop

  /** Every group of `base` is still there in `cur`, with its old nodes
      first and, for the groups in `done`, as many new ones after them as
      the plan asks. */
  ghost predicate GrownBy(base: map<string, seq<Node>>, cur: map<string, seq<Node>>,
                          toAdd: map<string, int>, done: seq<string>) {
    && cur.Keys == base.Keys
    && forall g :: g in base ==>
         && |cur[g]| == |base[g]| + (if g in done then Requested(toAdd, g) else 0)
         && cur[g][..|base[g]|] == base[g]
  }

  /** Adding a group's nodes after the earlier groups' extends the grown
      groups by that one. */
  lemma GrowStep(base: map<string, seq<Node>>, prev: map<string, seq<Node>>, cur: map<string, seq<Node>>,
                 toAdd: map<string, int>, done: seq<string>, g: string)
    requires GrownBy(base, prev, toAdd, done) && g !in done && g in toAdd
    requires toAdd[g] <= 0 ==> cur == prev
    requires toAdd[g] > 0 ==> && g in prev && g in cur && cur == prev[g := cur[g]]
                              && |cur[g]| == |prev[g]| + toAdd[g] && cur[g][..|prev[g]|] == prev[g]
    ensures GrownBy(base, cur, toAdd, done + [g])
  {
    if toAdd[g] > 0 {
      assert cur[g][..|base[g]|] == prev[g][..|base[g]|];
    }
  }

  /** One pass of the first loop of ResizeCluster.execute: `count` calls of
      `cluster.add_node(grp)` for the group `order[i]`, after the groups
      before it have grown. */
  method AddGroupStep(c: Cluster, toAdd: map<string, int>, order: seq<string>, i: nat,
                      ghost base: map<string, seq<Node>>) returns (r: Result<()>)
    requires c.Valid() && Distinct(order) && i < |order| && forall g :: g in order ==> g in toAdd
    requires GrownBy(base, c.nodes, toAdd, order[..i])
    modifies c
    ensures c.Valid() && c.order == old(c.order) && c.nodes.Keys == base.Keys
    ensures old(c.Positional()) ==> c.Positional()
    ensures old(c.Configured()) ==> c.Configured()
    ensures r.Ok? <==> toAdd[order[i]] <= 0 || (order[i] in base && c.nodeSettings(order[i]).Ok?)
    ensures r.Err? ==> if order[i] in base then c.nodeSettings(order[i]) == Err(r.error)
                       else r.error == KeyError(order[i])
    ensures r.Ok? ==> GrownBy(base, c.nodes, toAdd, order[..i + 1])
  {
    var g := order[i];
    ghost var prev := c.nodes;
    ghost var done := order[..i];
    assert g !in done;
    assert order[..i + 1] == done + [g];
    r := c.AddNodes(g, toAdd[g]);
    if r.Ok? {
      GrowStep(base, prev, c.nodes, toAdd, done, g);
    }
  }

  /** The first loop of ResizeCluster.execute: for each group to grow,
      `count` calls of `cluster.add_node(grp)`. The first group that asks
      for nodes and is missing, or whose node settings cannot be read, stops
      the loop with that error. */
  method AddPhase(c: Cluster, toAdd: map<string, int>, order: seq<string>) returns (r: Result<()>)
    requires c.Valid() && Distinct(order) && forall g :: g in order ==> g in toAdd
    modifies c
    ensures c.Valid() && c.order == old(c.order) && c.nodes.Keys == old(c.nodes).Keys
    ensures old(c.Positional()) ==> c.Positional()
    ensures old(c.Configured()) ==> c.Configured()
    ensures r.Ok? <==> forall g :: g in order && toAdd[g] > 0 ==> g in old(c.nodes) && c.nodeSettings(g).Ok?
    ensures r.Err? ==> exists i :: && 0 <= i < |order| && toAdd[order[i]] > 0
                                   && (if order[i] in old(c.nodes) then c.nodeSettings(order[i]) == Err(r.error)
                                       else r.error == KeyError(order[i]))
                                   && forall j :: 0 <= j < i && toAdd[order[j]] > 0 ==>
                                        order[j] in old(c.nodes) && c.nodeSettings(order[j]).Ok?
    ensures r.Ok? ==> GrownBy(old(c.nodes), c.nodes, toAdd, order)
  {
    for i := 0 to |order|
      invariant c.Valid() && c.order == old(c.order)
      invariant old(c.Positional()) ==> c.Positional()
      invariant old(c.Configured()) ==> c.Configured()
      invariant GrownBy(old(c.nodes), c.nodes, toAdd, order[..i])
      invariant forall j :: 0 <= j < i && toAdd[order[j]] > 0 ==>
                  order[j] in old(c.nodes) && c.nodeSettings(order[j]).Ok?
    {
      var step := AddGroupStep(c, toAdd, order, i, old(c.nodes));
      if step.Err? {
        return Err(step.error);
      }
    }
    assert order[..|order|] == order;
    return Ok(());
  }

  /** `cur` is `base` after the plan: every group with its old size plus
      what was added minus what was popped, the nodes that stay keeping
      their places. */
  ghost predicate Resized(base: map<string, seq<Node>>, cur: map<string, seq<Node>>, plan: Plan) {
    && cur.Keys == base.Keys
    && forall g :: g in base ==>
         && |cur[g]| == |base[g]| + Requested(plan.toAdd, g) - Requested(plan.toRemove, g)
         && var n := if |cur[g]| < |base[g]| then |cur[g]| else |base[g]|;
            cur[g][..n] == base[g][..n]
  }

  /** After the adds, the pops succeed exactly when every group asked to
      shrink exists and holds enough nodes once grown, and they leave the
      groups resized by the whole plan. */
  lemma ResizeAfterAdd(base: map<string, seq<Node>>, mid: map<string, seq<Node>>, plan: Plan,
                       addOrder: seq<string>, removeOrder: seq<string>)
    requires forall g :: g in addOrder <==> g in plan.toAdd
    requires Distinct(removeOrder) && forall g :: g in removeOrder <==> g in plan.toRemove
    requires GrownBy(base, mid, plan.toAdd, addOrder)
    ensures Removal(mid, plan.toRemove, removeOrder).Ok? <==>
              forall g :: g in plan.toRemove && plan.toRemove[g] > 0 ==>
                g in base && plan.toRemove[g] <= |base[g]| + Requested(plan.toAdd, g)
    ensures Removal(mid, plan.toRemove, removeOrder).Ok? ==>
              Resized(base, Removal(mid, plan.toRemove, removeOrder).value.0, plan)
  {
    RemovalFacts(mid, plan.toRemove, removeOrder);
    if Removal(mid, plan.toRemove, removeOrder).Ok? {
      var cur := Removal(mid, plan.toRemove, removeOrder).value.0;
      forall g | g in base
        ensures && |cur[g]| == |base[g]| + Requested(plan.toAdd, g) - Requested(plan.toRemove, g)
                && var n := if |cur[g]| < |base[g]| then |cur[g]| else |base[g]|;
                   cur[g][..n] == base[g][..n]
      {
        var n := if |cur[g]| < |base[g]| then |cur[g]| else |base[g]|;
        assert cur[g][..n] == mid[g][..n];
        assert mid[g][..n] == mid[g][..|base[g]|][..n];
      }
    }
  }

  /** The node changes of ResizeCluster.execute on the loaded cluster: first
      the adds, group after group, then the pops. It succeeds exactly when
      every group asked to grow exists and has readable node settings, and
      every group asked to shrink exists and holds enough nodes once grown;
      the groups are then resized by the whole plan, and the popped nodes
      come back in the order they were popped. */
  method ResizeExecute(c: Cluster, plan: Plan, addOrder: seq<string>, removeOrder: seq<string>)
    returns (r: Result<seq<Node>>)
    requires c.Valid()
    requires Distinct(addOrder) && forall g :: g in addOrder <==> g in plan.toAdd
    requires Distinct(removeOrder) && forall g :: g in removeOrder <==> g in plan.toRemove
    modifies c
    ensures c.Valid() && c.order == old(c.order) && c.nodes.Keys == old(c.nodes).Keys
    ensures old(c.Positional()) ==> c.Positional()
    ensures old(c.Configured()) ==> c.Configured()
    ensures r.Ok? <==>
              && (forall g :: g in plan.toAdd && plan.toAdd[g] > 0 ==> g in old(c.nodes) && c.nodeSettings(g).Ok?)
              && (forall g :: g in plan.toRemove && plan.toRemove[g] > 0 ==>
                    g in old(c.nodes) && plan.toRemove[g] <= |old(c.nodes)[g]| + Requested(plan.toAdd, g))
    ensures r.Ok? ==> Resized(old(c.nodes), c.nodes, plan)
  {
    var added := AddPhase(c, plan.toAdd, addOrder);
    if added.Err? {
      return Err(added.error);
    }
    ResizeAfterAdd(old(c.nodes), c.nodes, plan, addOrder, removeOrder);
    r := RemovePhase(c, plan.toRemove, removeOrder);
  }

  // ---------------------------------------------------------------------
  // ListTemplates.execute: `templates = [t for t in templates if fnmatch(t, pattern)]`

  /** The templates that match one pattern, in their order, repetitions
      kept. `matches` stands for `fnmatch`. */
  function Matching(templates: seq<string>, pattern: string, matches: (string, string) -> bool)
    : (r: seq<string>)
  {
    if templates == [] then []
    else
      var rest := Matching(templates[1..], pattern, matches);
      if matches(templates[0], pattern) then [templates[0]] + rest else rest
  }

  /** Whether a template matches every pattern. */
  predicate MatchesAll(t: string, patterns: seq<string>, matches: (string, string) -> bool) {
    forall p :: p in patterns ==> matches(t, p)
  }

  /** The templates that match every pattern, in their order, each as many
      times as it is listed. */
  function MatchingAll(templates: seq<string>, patterns: seq<string>, matches: (string, string) -> bool)
    : (r: seq<string>)
    ensures forall t :: multiset(r)[t] == if MatchesAll(t, patterns, matches) then multiset(templates)[t] else 0
  {
    if templates == [] then []
    else
      var rest := MatchingAll(templates[1..], patterns, matches);
      assert templates == [templates[0]] + templates[1..];
      if MatchesAll(templates[0], patterns, matches) then [templates[0]] + rest else rest
  }

  /** With no pattern every template is kept. */
  lemma {:induction false} MatchingNone(templates: seq<string>, matches: (string, string) -> bool)
    ensures MatchingAll(templates, [], matches) == templates
  {
    if templates != [] {
      MatchingNone(templates[1..], matches);
    }
  }

  /** Filtering by one more pattern is filtering by all of them at once:
      the chain of filters is their intersection. */
  lemma {:induction false} MatchingStep(templates: seq<string>, patterns: seq<string>, pattern: string,
                                        matches: (string, string) -> bool)
    ensures Matching(MatchingAll(templates, patterns, matches), pattern, matches)
            == MatchingAll(templates, patterns + [pattern], matches)
  {
    if templates != [] {
      MatchingStep(templates[1..], patterns, pattern, matches);
      var t := templates[0];
      assert MatchesAll(t, patterns + [pattern], matches) <==>
             MatchesAll(t, patterns, matches) && matches(t, pattern);
    }
  }

  /** The loop of ListTemplates.execute: the templates that match every
      pattern, in their order. */
  method FilterTemplates(templates: seq<string>, patterns: seq<string>, matches: (string, string) -> bool)
    returns (result: seq<string>)
    ensures result == MatchingAll(templates, patterns, matches)
  {
    result := templates;
    MatchingNone(templates, matches);
    for i := 0 to |patterns|
      invariant result == MatchingAll(templates, patterns[..i], matches)
    {
      assert patterns[..i + 1] == patterns[..i] + [patterns[i]] by {
        assert patterns[..i + 1][..i] == patterns[..i];
      }
      MatchingStep(templates, patterns[..i], patterns[i], matches);
      result := Matching(result, patterns[i], matches);
    }
    assert patterns[..|patterns|] == patterns;
  }

  // ---------------------------------------------------------------------
  // SshFrontend.execute and SftpFrontend.execute: the argument vectors

  /** `'%s' % v`: a missing address prints as `None`. */
  function Shown(v: Option<string>): string {
    match v
    case None => "None"
    case Some(s) => s
  }

  /** `'%s@%s' % (username, host)`. */
  function Destination(user: string, host: Option<string>): string {
    user + "@" + Shown(host)
  }

  /** `['-v'] * verbose`. */
  function Verbosity(verbose: nat): (r: seq<string>)
    ensures |r| == verbose && forall i :: 0 <= i < |r| ==> r[i] == "-v"
  {
    if verbose == 0 then [] else Verbosity(verbose - 1) + ["-v"]
  }

  /** The ssh command line. */
  function SshArgv(key: string, verbose: nat, user: string, host: Option<string>, args: seq<string>)
    : (r: seq<string>)
  {
    ["ssh", "-i", key] + Verbosity(verbose) + [Destination(user, host)] + args
  }

  /** The sftp command line: the user's arguments come before the
      destination. */
  function SftpArgv(key: string, verbose: nat, user: string, host: Option<string>, args: seq<string>)
    : (r: seq<string>)
  {
    ["sftp", "-i", key] + Verbosity(verbose) + args + [Destination(user, host)]
  }

  /** Where each piece sits in the ssh command line: the program, the key
      after `-i`, one `-v` per verbosity level, the destination, and then the
      command to run, unchanged. */
  lemma SshArgvLayout(key: string, verbose: nat, user: string, host: Option<string>, args: seq<string>)
    ensures var r := SshArgv(key, verbose, user, host, args);
            && |r| == 4 + verbose + |args|
            && r[0] == "ssh" && r[1] == "-i" && r[2] == key
            && (forall i :: 3 <= i < 3 + verbose ==> r[i] == "-v")
            && r[3 + verbose] == user + "@" + Shown(host)
            && r[4 + verbose..] == args
  {
    var r := SshArgv(key, verbose, user, host, args);
    assert r[4 + verbose..] == args;
  }

  /** Where each piece sits in the sftp command line: the user's arguments
      right after the `-v` flags, and the destination last. */
  lemma SftpArgvLayout(key: string, verbose: nat, user: string, host: Option<string>, args: seq<string>)
    ensures var r := SftpArgv(key, verbose, user, host, args);
            && |r| == 4 + verbose + |args|
            && r[0] == "sftp" && r[1] == "-i" && r[2] == key
            && (forall i :: 3 <= i < 3 + verbose ==> r[i] == "-v")
            && r[3 + verbose..3 + verbose + |args|] == args
            && r[|r| - 1] == user + "@" + Shown(host)
  {
    var r := SftpArgv(key, verbose, user, host, args);
    assert r[3 + verbose..3 + verbose + |args|] == args;
  }

  /** Past the program name the two command lines hold the same words, the
      destination moved from before the arguments to after them; they agree
      exactly when there are no arguments. */
  lemma SshSftpSameWords(key: string, verbose: nat, user: string, host: Option<string>, args: seq<string>)
    ensures multiset(SshArgv(key, verbose, user, host, args)[1..])
            == multiset(SftpArgv(key, verbose, user, host, args)[1..])
    ensures args == [] ==> SshArgv(key, verbose, user, host, args)[1..] == SftpArgv(key, verbose, user, host, args)[1..]
  {
    var head := ["-i", key] + Verbosity(verbose);
    var d := [Destination(user, host)];
    assert SshArgv(key, verbose, user, host, args)[1..] == head + (d + args);
    assert SftpArgv(key, verbose, user, host, args)[1..] == head + (args + d);
    calc {
      multiset(head + (d + args));
      multiset(head) + multiset(d + args);
      { assert multiset(d + args) == multiset(d) + multiset(args) == multiset(args + d); }
      multiset(head) + multiset(args + d);
      multiset(head + (args + d));
    }
  }

  /** The frontend node is one of the cluster's node objects. */
  lemma FrontendMember(c: Cluster)
    requires c.Valid() && c.FrontendNode().Ok?
    ensures c.FrontendNode().value in c.NodeObjects()
  {
    var g :| g in c.nodes && c.nodes[g] != [] && c.FrontendNode().value == c.nodes[g][0];
  }

  /** The command line `ssh` (or `sftp`) runs for a loaded cluster: the
      frontend node's private key, image user and public address, or
      NodeNotFound when there is no frontend to connect to. */
  function FrontendCommand(c: Cluster, sftp: bool, verbose: nat, args: seq<string>): (r: Result<seq<string>>)
    reads c, c.NodeObjects()
    requires c.Valid()
    ensures r.Err? <==> c.FrontendNode().Err?
    ensures r.Err? ==> r.error == NodeNotFound
    ensures r.Ok? ==> && |r.value| == 4 + verbose + |args|
                      && r.value[2] == c.FrontendNode().value.settings.userKeyPrivate
                      && var n := c.FrontendNode().value;
                         Destination(n.settings.imageUser, n.ipPublic) in r.value
    ensures r.Ok? ==> var n := c.FrontendNode().value;
                      var key, user := n.settings.userKeyPrivate, n.settings.imageUser;
                      r.value == if sftp then SftpArgv(key, verbose, user, n.ipPublic, args)
                                 else SshArgv(key, verbose, user, n.ipPublic, args)
  {
    match c.FrontendNode()
    case Err(e) => Err(e)
    case Ok(n) =>
      FrontendMember(c);
      var key, user := n.settings.userKeyPrivate, n.settings.imageUser;
      if sftp then
        SftpArgvLayout(key, verbose, user, n.ipPublic, args);
        Ok(SftpArgv(key, verbose, user, n.ipPublic, args))
      else
        SshArgvLayout(key, verbose, user, n.ipPublic, args);
        Ok(SshArgv(key, verbose, user, n.ipPublic, args))
  }
}
