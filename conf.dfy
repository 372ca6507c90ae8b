/** The configuration side of elasticluster/conf.py: reading and merging the
    sections of the INI file (class Configuration and QuotelessConfigParser),
    and the pure parts of the Configurator: the cloud- and setup-provider
    arguments, the node settings checked by create_node, and the cluster
    configuration and group counts computed by create_cluster.

    The configuration file is an in-memory Store: its section names in file
    order, the raw key/value entries of each section, and the parser defaults
    injected into every section. Path expansion (os.path.expanduser and
    os.path.expandvars) is an opaque function carried by the Store. */
module Conf {
  import opened Common

  type Section = map<string, string>

  datatype Store = Store(
    names: seq<string>,               // section names, in file order
    sections: map<string, Section>,   // the entries of each section, as written
    defaults: Section,                // the parser defaults (ansible_pb_dir, ansible_module_dir)
    expandUser: string -> string,     // os.path.expanduser
    expandVars: string -> string)     // os.path.expandvars

  /** The section names list each section of the map exactly once. */
  ghost predicate Indexed(st: Store) {
    Distinct(st.names) && (forall n :: n in st.names <==> n in st.sections)
  }

  // ---------------------------------------------------------------------
  // QuotelessConfigParser

  /** The value `items()` reports: a non-empty value loses its surrounding
      single quotes and then its surrounding double quotes. */
  function ItemValue(v: string): (r: string)
    ensures r == [] || (r[0] != '"' && r[|r| - 1] != '"')
  {
    StripEnds(Strip(v, {'\''}), {'"'});
    if v == [] then v else Strip(Strip(v, {'\''}), {'"'})
  }

  /** The value `get()` reports: double quotes are stripped first, then
      single quotes. */
  function GetValue(v: string): (r: string)
    ensures r == [] || (r[0] != '\'' && r[|r| - 1] != '\'')
  {
    StripEnds(Strip(v, {'"'}), {'\''});
    Strip(Strip(v, {'"'}), {'\''})
  }

  /** `get(section, option)`: the section's own entry, else the default;
      NoSectionError or NoOptionError when there is neither. */
  function GetOption(st: Store, path: string, option: string): (r: Result<string>)
    ensures path !in st.sections ==> r == Err(NoSectionError(path))
    ensures path in st.sections ==>
              (r.Ok? <==> option in st.sections[path] || option in st.defaults)
    ensures path in st.sections && option !in st.sections[path] && option !in st.defaults ==>
              r == Err(NoOptionError(option))
    ensures r.Ok? && option in st.sections[path] ==> r.value == GetValue(st.sections[path][option])
  {
    if path !in st.sections then Err(NoSectionError(path))
    else if option in st.sections[path] then Ok(GetValue(st.sections[path][option]))
    else if option in st.defaults then Ok(GetValue(st.defaults[option]))
    else Err(NoOptionError(option))
  }

  // ---------------------------------------------------------------------
  // Configuration: the section readers

  /** `_read_section`: the section's entries over the parser defaults, with
      quotes stripped; NoSectionError when the file has no such section. */
  function ReadSection(st: Store, path: string): (r: Result<Section>)
    ensures r.Ok? <==> path in st.sections
    ensures r.Err? ==> r.error == NoSectionError(path)
    ensures r.Ok? ==> r.value.Keys == st.defaults.Keys + st.sections[path].Keys
    ensures r.Ok? ==> forall k :: k in st.sections[path] ==> r.value[k] == ItemValue(st.sections[path][k])
    ensures r.Ok? ==> forall k :: k in st.defaults && k !in st.sections[path] ==>
                        r.value[k] == ItemValue(st.defaults[k])
  {
    if path in st.sections then
      var raw := Merge(st.defaults, st.sections[path]);
      Ok(map k | k in raw :: ItemValue(raw[k]))
    else
      Err(NoSectionError(path))
  }

  function ExpandKeyPath(st: Store, p: string): string {
    st.expandUser(st.expandVars(p))
  }

  /** `read_login_section`: the `login/<name>` section with both key-file
      paths expanded. Both paths are looked up, so either one missing is a
      KeyError. */
  function ReadLoginSection(st: Store, name: string): (r: Result<Section>)
    ensures r.Ok? ==> "user_key_private" in r.value && "user_key_public" in r.value
  {
    var config :- ReadSection(st, "login/" + name);
    if "user_key_private" !in config then Err(KeyError("user_key_private"))
    else if "user_key_public" !in config then Err(KeyError("user_key_public"))
    else Ok(ExpandKeys(st, config))
  }

  /** The login section with both key paths expanded and every other entry
      as it was. */
  function ExpandKeys(st: Store, config: Section): (r: Section)
    requires "user_key_private" in config && "user_key_public" in config
    ensures r.Keys == config.Keys
    ensures r["user_key_private"] == ExpandKeyPath(st, config["user_key_private"])
    ensures r["user_key_public"] == ExpandKeyPath(st, config["user_key_public"])
    ensures forall k :: k in config && k != "user_key_private" && k != "user_key_public" ==> r[k] == config[k]
  {
    config["user_key_private" := ExpandKeyPath(st, config["user_key_private"])]
          ["user_key_public" := ExpandKeyPath(st, config["user_key_public"])]
  }

  /** The login section fails exactly when the section or one of the key
      paths is missing, the private one looked up first; otherwise it is the
      section with both paths expanded. */
  lemma LoginSection(st: Store, name: string)
    ensures var s := ReadSection(st, "login/" + name);
            var r := ReadLoginSection(st, name);
            && (r.Ok? <==> s.Ok? && "user_key_private" in s.value && "user_key_public" in s.value)
            && (s.Err? ==> r == Err(s.error))
            && (s.Ok? && "user_key_private" !in s.value ==> r == Err(KeyError("user_key_private")))
            && (s.Ok? && "user_key_private" in s.value && "user_key_public" !in s.value ==>
                  r == Err(KeyError("user_key_public")))
            && (r.Ok? ==> r.value == ExpandKeys(st, s.value))
  {
  }

  /** `read_cluster_section`: the `cluster/<name>` section merged with the
      login section its `login` key names. */
  function ReadClusterSection(st: Store, name: string): (r: Result<Section>)
    ensures r.Ok? ==> "login" in r.value && "user_key_private" in r.value && "user_key_public" in r.value
  {
    var config :- ReadSection(st, "cluster/" + name);
    if "login" !in config then Err(KeyError("login"))
    else
      var login :- ReadLoginSection(st, config["login"]);
      Ok(Merge(config, login))
  }

  /** The cluster configuration is the cluster section under its login
      section (the login values win), and fails with the first failure among
      the section, its `login` key and the login section. */
  lemma ClusterSection(st: Store, name: string)
    ensures var c := ReadSection(st, "cluster/" + name);
            var r := ReadClusterSection(st, name);
            && (c.Err? ==> r == Err(c.error))
            && (c.Ok? && "login" !in c.value ==> r == Err(KeyError("login")))
            && (c.Ok? && "login" in c.value ==>
                  var l := ReadLoginSection(st, c.value["login"]);
                  && (l.Err? ==> r == Err(l.error))
                  && (l.Ok? ==> r == Ok(Merge(c.value, l.value))))
  {
  }

  /** `read_node_section`: the cluster's resolved configuration, overridden by
      `cluster/<name>/<type>` when that section exists. */
  function ReadNodeSection(st: Store, cluster: string, nodeType: string): (r: Result<Section>)
    ensures r.Ok? ==> "user_key_private" in r.value && "user_key_public" in r.value
  {
    var general := "cluster/" + cluster;
    var specific := "cluster/" + cluster + "/" + nodeType;
    if general in st.sections then
      if specific in st.sections then
        var c :- ReadClusterSection(st, cluster);
        Ok(Merge(c, ReadSection(st, specific).value))
      else
        ReadClusterSection(st, cluster)
    else
      Err(NoSectionError(general))
  }

  /** The node configuration is the cluster configuration when the file has
      no section for the node type, and that configuration under the
      node-type section otherwise; NoSectionError when `cluster/<name>`
      itself is absent. */
  lemma NodeSection(st: Store, cluster: string, nodeType: string)
    ensures var r := ReadNodeSection(st, cluster, nodeType);
            var c := ReadClusterSection(st, cluster);
            var specific := "cluster/" + cluster + "/" + nodeType;
            && ("cluster/" + cluster !in st.sections ==> r == Err(NoSectionError("cluster/" + cluster)))
            && ("cluster/" + cluster in st.sections && specific !in st.sections ==> r == c)
            && ("cluster/" + cluster in st.sections && specific in st.sections ==>
                  && (c.Err? ==> r == c)
                  && (c.Ok? ==> r == Ok(Merge(c.value, ReadSection(st, specific).value))))
  {
  }

  function ReadCloudSection(st: Store, name: string): Result<Section> {
    ReadSection(st, "cloud/" + name)
  }

  /** `read_setup_section`: the `setup/<name>` section, with its playbook path
      expanded, merged with the login section named by the resolved
      configuration of the cluster (not by the setup section). */
  function ReadSetupSection(st: Store, name: string, cluster: string): (r: Result<Section>)
    ensures r.Ok? ==> "playbook_path" in r.value && "user_key_private" in r.value
  {
    var config :- ReadSection(st, "setup/" + name);
    if "playbook_path" !in config then Err(KeyError("playbook_path"))
    else
      var resolved :- ReadClusterSection(st, cluster);
      var login :- ReadLoginSection(st, resolved["login"]);
      Ok(SetupMerge(st, config, login))
  }

  /** The setup configuration fails with the first failure among the setup
      section, its playbook path, the cluster configuration and the login
      section. */
  lemma SetupSectionErrors(st: Store, name: string, cluster: string)
    ensures var s := ReadSection(st, "setup/" + name);
            var c := ReadClusterSection(st, cluster);
            var r := ReadSetupSection(st, name, cluster);
            && (s.Err? ==> r == Err(s.error))
            && (s.Ok? && "playbook_path" !in s.value ==> r == Err(KeyError("playbook_path")))
            && (s.Ok? && "playbook_path" in s.value && c.Err? ==> r == Err(c.error))
            && (s.Ok? && "playbook_path" in s.value && c.Ok? && ReadLoginSection(st, c.value["login"]).Err? ==>
                  r == Err(ReadLoginSection(st, c.value["login"]).error))
  {
  }

  /** The setup section, its playbook path expanded, under the login section:
      every key of both is kept and the login values win. */
  function SetupMerge(st: Store, s: Section, login: Section): (r: Section)
    requires "playbook_path" in s
    ensures r.Keys == s.Keys + login.Keys
    ensures forall k :: k in login ==> r[k] == login[k]
    ensures forall k :: k in s && k !in login && k != "playbook_path" ==> r[k] == s[k]
    ensures "playbook_path" !in login ==> r["playbook_path"] == st.expandUser(st.expandUser(s["playbook_path"]))
  {
    Merge(s["playbook_path" := st.expandUser(st.expandUser(s["playbook_path"]))], login)
  }

  /** When the setup section, the cluster configuration and its login section
      all read, the setup configuration is their merge. */
  lemma SetupSection(st: Store, name: string, cluster: string, s: Section, c: Section, l: Section)
    requires ReadSection(st, "setup/" + name) == Ok(s) && "playbook_path" in s
    requires ReadClusterSection(st, cluster) == Ok(c)
    requires ReadLoginSection(st, c["login"]) == Ok(l)
    ensures ReadSetupSection(st, name, cluster) == Ok(SetupMerge(st, s, l))
  {
  }

  /** A default of the parser shadows a cluster's own setting of the same key
      whenever the login section leaves that key unset: the login section's
      entries include the defaults, and the login entries win the merge. */
  lemma LoginDefaultsMaskClusterSetting(st: Store, name: string, k: string)
    requires ReadClusterSection(st, name).Ok?
    requires k in st.defaults && k in st.sections["cluster/" + name]
    requires var login := ReadSection(st, "cluster/" + name).value["login"];
             k !in st.sections["login/" + login] && k !in {"user_key_private", "user_key_public"}
    ensures ReadClusterSection(st, name).value[k] == ItemValue(st.defaults[k])
  {
    ClusterSection(st, name);
    var c := ReadSection(st, "cluster/" + name).value;
    LoginSection(st, c["login"]);
    var s := ReadSection(st, "login/" + c["login"]).value;
    assert s[k] == ItemValue(st.defaults[k]);
    var l := ExpandKeys(st, s);
    assert l[k] == s[k];
    assert ReadClusterSection(st, name) == Ok(Merge(c, l));
    assert Merge(c, l)[k] == l[k];
  }

  // ---------------------------------------------------------------------
  // Configuration.list_cluster_templates

  /** The template a `cluster/...` section belongs to: `section.split('/')[1]`. */
  function TemplateOf(section: string): (t: string)
    requires StartsWith(section, "cluster/")
    ensures '/' !in t && StartsWith(section[8..], t)
    ensures |section| == 8 + |t| || section[8 + |t|] == '/'
  {
    var rest := section[8..];
    assert section == "cluster" + "/" + rest;
    SplitAfter("cluster", rest, '/');
    JoinSplit(rest, '/');
    var parts := Split(rest, '/');
    assert |parts| == 1 ==> rest == parts[0];
    assert |parts| > 1 ==> rest == parts[0] + ['/'] + Join(parts[1..], '/');
    Split(section, '/')[1]
  }

  lemma {:induction false} SplitAfter(p: string, rest: string, sep: char)
    requires sep !in p
    ensures Split(p + [sep] + rest, sep) == [p] + Split(rest, sep)
    decreases |p|
  {
    if p == [] {
      assert p + [sep] + rest == [sep] + rest;
      assert ([sep] + rest)[1..] == rest;
    } else {
      assert sep !in p[1..] by { assert forall c :: c in p[1..] ==> c in p; }
      SplitAfter(p[1..], rest, sep);
      assert (p + [sep] + rest)[1..] == p[1..] + [sep] + rest;
      assert [p[0]] + p[1..] == p;
    }
  }

  /** The template names, one per `cluster/...` section in file order:
      node-type sections repeat their cluster's name. */
  function TemplateNames(names: seq<string>): (r: seq<string>)
    ensures |r| <= |names|
    ensures forall t :: t in r <==>
              exists i :: 0 <= i < |names| && StartsWith(names[i], "cluster/") && TemplateOf(names[i]) == t
  {
    if names == [] then []
    else
      var last := names[|names| - 1];
      var prev := TemplateNames(names[..|names| - 1]);
      assert forall i :: 0 <= i < |names| - 1 ==> names[..|names| - 1][i] == names[i];
      if StartsWith(last, "cluster/") then prev + [TemplateOf(last)] else prev
  }

  /** The names of consecutive section lists follow each other: one entry per
      `cluster/...` section, in file order. */
  lemma {:induction false} TemplateNamesAppend(a: seq<string>, b: seq<string>)
    ensures TemplateNames(a + b) == TemplateNames(a) + TemplateNames(b)
    decreases |b|
  {
    if b == [] {
      assert a + b == a;
    } else {
      var b' := b[..|b| - 1];
      assert (a + b)[..|a + b| - 1] == a + b';
      assert (a + b)[|a + b| - 1] == b[|b| - 1];
      TemplateNamesAppend(a, b');
    }
  }

  /** The template of `cluster/<t>` and of `cluster/<t>/...` is `t`. */
  lemma TemplateOfSection(t: string, rest: string)
    requires '/' !in t && (rest == [] || rest[0] == '/')
    ensures StartsWith("cluster/" + t + rest, "cluster/")
    ensures TemplateOf("cluster/" + t + rest) == t
  {
    var s := "cluster/" + t + rest;
    assert s[..8] == "cluster/";
    assert s == "cluster" + ['/'] + (t + rest);
    SplitAfter("cluster", t + rest, '/');
    if rest == [] {
      assert t + rest == t;
      SplitPiece(t, '/');
    } else {
      assert t + rest == t + ['/'] + rest[1..];
      SplitAfter(t, rest[1..], '/');
    }
  }

  /** A node-type section `cluster/<t>/<type>` lists its cluster's name
      again, so `cluster/<t>` with one node-type section lists `t` twice. */
  lemma TemplateRepeats(t: string, nodeType: string)
    requires '/' !in t
    ensures TemplateNames(["cluster/" + t, "cluster/" + t + "/" + nodeType]) == [t, t]
  {
    TemplateOfSection(t, "");
    assert "cluster/" + t + "" == "cluster/" + t;
    TemplateOfSection(t, "/" + nodeType);
    assert "cluster/" + t + ("/" + nodeType) == "cluster/" + t + "/" + nodeType;
    var names := ["cluster/" + t, "cluster/" + t + "/" + nodeType];
    assert names[..1] == ["cluster/" + t];
    assert names[..1][..0] == [];
  }

  method ListClusterTemplates(st: Store) returns (templates: seq<string>)
    ensures templates == TemplateNames(st.names)
  {
    templates := [];
    for i := 0 to |st.names|
      invariant templates == TemplateNames(st.names[..i])
    {
      assert st.names[..i + 1][..i] == st.names[..i];
      var section := st.names[i];
      if StartsWith(section, "cluster/") {
        templates := templates + [TemplateOf(section)];
      }
    }
    assert st.names[..|st.names|] == st.names;
  }

  /** In an indexed store every `cluster/...` section contributes a template
      name, and every template name comes from a section that exists. */
  lemma TemplatesOfStore(st: Store, t: string)
    requires Indexed(st)
    ensures t in TemplateNames(st.names) <==>
              exists s :: s in st.sections && StartsWith(s, "cluster/") && TemplateOf(s) == t
  {
    if t in TemplateNames(st.names) {
      var i :| 0 <= i < |st.names| && StartsWith(st.names[i], "cluster/") && TemplateOf(st.names[i]) == t;
      assert st.names[i] in st.sections;
    }
    if s :| s in st.sections && StartsWith(s, "cluster/") && TemplateOf(s) == t {
      var i :| 0 <= i < |st.names| && st.names[i] == s;
    }
  }

  // ---------------------------------------------------------------------
  // Configurator.create_node: the settings a node takes from the configuration

  datatype NodeSettings = NodeSettings(
    userKeyPublic: string, userKeyPrivate: string, userKeyName: string,
    imageUser: string, securityGroup: string, image: string, flavor: string,
    imageUserdata: string)

  /** The keys create_node checks, in the order it checks them. */
  const NodeKeys: seq<string> :=
    ["user_key_private", "user_key_name", "image_user", "security_group", "image_id", "flavor"]

  /** The first of `keys` that `config` lacks. */
  function FirstMissing(keys: seq<string>, config: Section): (r: Option<string>)
    ensures r.None? <==> forall k :: k in keys ==> k in config
    ensures r.Some? ==> exists i :: 0 <= i < |keys| && keys[i] == r.value && r.value !in config
                                    && forall j :: 0 <= j < i ==> keys[j] in config
  {
    if keys == [] then None
    else if keys[0] !in config then Some(keys[0])
    else
      var r := FirstMissing(keys[1..], config);
      if r.Some? then
        var i :| 0 <= i < |keys[1..]| && keys[1..][i] == r.value && r.value !in config
                 && forall j :: 0 <= j < i ==> keys[1..][j] in config;
        assert keys[i + 1] == r.value;
        r
      else r
  }

  /** The key at `i` is the first missing one when it is absent and every key
      before it is present. */
  lemma {:induction false} FirstMissingAt(keys: seq<string>, config: Section, i: nat)
    requires i < |keys| && keys[i] !in config
    requires forall j :: 0 <= j < i ==> keys[j] in config
    ensures FirstMissing(keys, config) == Some(keys[i])
  {
    if i > 0 {
      assert keys[0] in config;
      FirstMissingAt(keys[1..], config, i - 1);
    }
  }

  /** What create_node builds a node from, given the node configuration: it
      must hold the six required keys (ConfigurationError naming the first one
      missing, in the order create_node checks them); `image_userdata`
      defaults to the empty string. */
  function NodeSettingsFrom(config: Section): (r: Result<NodeSettings>)
    requires "user_key_public" in config
    ensures r.Ok? <==> forall k :: k in NodeKeys ==> k in config
    ensures r.Err? ==> r.error.ConfigurationError? && r.error.what in NodeKeys && r.error.what !in config
    ensures r.Ok? ==>
              && r.value.userKeyPublic == config["user_key_public"]
              && r.value.userKeyPrivate == config["user_key_private"]
              && r.value.userKeyName == config["user_key_name"]
              && r.value.imageUser == config["image_user"]
              && r.value.securityGroup == config["security_group"]
              && r.value.image == config["image_id"]
              && r.value.flavor == config["flavor"]
              && r.value.imageUserdata == (if "image_userdata" in config then config["image_userdata"] else "")
  {
    match FirstMissing(NodeKeys, config)
    case Some(k) => Err(ConfigurationError(k))
    case None => Ok(SettingsOf(config))
  }

  /** The error names the first required key missing, in the order
      create_node checks them. */
  lemma NodeSettingsFirstMissing(config: Section, i: nat)
    requires "user_key_public" in config
    requires i < |NodeKeys| && NodeKeys[i] !in config
    requires forall j :: 0 <= j < i ==> NodeKeys[j] in config
    ensures NodeSettingsFrom(config) == Err(ConfigurationError(NodeKeys[i]))
  {
    FirstMissingAt(NodeKeys, config, i);
  }

  /** The node settings of one node type of a cluster: its resolved node
      section, read with read_node_section, checked by create_node. */
  function NodeSettingsFor(st: Store, cluster: string, nodeType: string): Result<NodeSettings> {
    var config :- ReadNodeSection(st, cluster, nodeType);
    NodeSettingsFrom(config)
  }

  function SettingsOf(config: Section): NodeSettings
    requires forall k :: k in NodeKeys ==> k in config
    requires "user_key_public" in config
  {
    NodeSettings(
      config["user_key_public"], config["user_key_private"], config["user_key_name"],
      config["image_user"], config["security_group"], config["image_id"], config["flavor"],
      if "image_userdata" in config then config["image_userdata"] else "")
  }

  // ---------------------------------------------------------------------
  // Configurator.create_cluster: the cluster configuration and its groups

  /** A configuration value once caller-supplied overrides are mixed in: the
      file gives strings, the command line gives node counts as integers. */
  datatype Value = Str(s: string) | Num(n: int)

  /** `int(v)`; `None` where Python raises ValueError. */
  function IntOf(v: Value): Option<int> {
    match v
    case Num(n) => Some(n)
    case Str(s) => ParseInt(s)
  }

  /** The configuration create_cluster works on, given the resolved cluster
      section: its entries, `name` set to the template, then the overrides,
      which win. ConfigurationError exactly when `cloud` or `setup_provider`
      is still missing. */
  function ConfigWithOverrides(section: Section, template: string, overrides: map<string, Value>): (r: Result<map<string, Value>>)
    ensures r.Ok? <==> ("cloud" in section || "cloud" in overrides)
                       && ("setup_provider" in section || "setup_provider" in overrides)
    ensures r.Err? ==> r.error.ConfigurationError?
    ensures r.Ok? ==> r.value.Keys == section.Keys + overrides.Keys + {"name"}
    ensures r.Ok? ==> forall k :: k in overrides ==> r.value[k] == overrides[k]
    ensures r.Ok? ==> forall k :: k in section && k !in overrides && k != "name" ==> r.value[k] == Str(section[k])
    ensures r.Ok? && "name" !in overrides ==> r.value["name"] == Str(template)
  {
    var config := (map k | k in section :: Str(section[k]))["name" := Str(template)];
    var config := Merge(config, overrides);
    if "cloud" !in config then Err(ConfigurationError("cloud"))
    else if "setup_provider" !in config then Err(ConfigurationError("setup_provider"))
    else Ok(config)
  }

  /** The cluster section of a template with the overrides applied. Every
      NoSectionError while reading it, the login section's included,
      becomes a ConfigurationError; any other error, such as a missing
      `login` key (KeyError), escapes as is. */
  function ClusterConfig(st: Store, template: string, overrides: map<string, Value>): (r: Result<map<string, Value>>)
    ensures var c := ReadClusterSection(st, template);
            && (c.Err? && c.error.NoSectionError? ==> r == Err(ConfigurationError("cluster/" + template)))
            && (c.Err? && !c.error.NoSectionError? ==> r == Err(c.error))
            && (c.Ok? ==> r == ConfigWithOverrides(c.value, template, overrides))
  {
    match ReadClusterSection(st, template)
    case Err(e) =>
      if e.NoSectionError? then Err(ConfigurationError("cluster/" + template)) else Err(e)
    case Ok(section) => ConfigWithOverrides(section, template, overrides)
  }

  /** The group named by a `<group>_nodes` key. */
  function GroupOf(k: string): string
    requires EndsWith(k, "_nodes")
  {
    k[..|k| - 6]
  }

  lemma GroupKeys(config: map<string, Value>, groups: set<string>)
    requires groups == set k | k in config && EndsWith(k, "_nodes") :: GroupOf(k)
    ensures forall g :: g in groups <==> g + "_nodes" in config
  {
    forall g | g in groups ensures g + "_nodes" in config {
      var k :| k in config && EndsWith(k, "_nodes") && g == GroupOf(k);
      assert k == k[..|k| - 6] + "_nodes";
    }
    forall g | g + "_nodes" in config ensures g in groups {
      var k := g + "_nodes";
      assert EndsWith(k, "_nodes") && GroupOf(k) == g;
    }
  }

  /** The group map: one entry per key ending in `_nodes`, named by the key
      without that suffix, holding `int()` of its value; ValueError when some
      such value is not an integer. */
  function NodeCounts(config: map<string, Value>): (r: Result<map<string, int>>)
    ensures r.Ok? <==> forall k :: k in config && EndsWith(k, "_nodes") ==> IntOf(config[k]).Some?
    ensures r.Err? ==> r.error == ValueError
    ensures r.Ok? ==> forall g :: g in r.value <==> g + "_nodes" in config
    ensures r.Ok? ==> forall g :: g in r.value ==> Some(r.value[g]) == IntOf(config[g + "_nodes"])
  {
    if exists k :: k in config && EndsWith(k, "_nodes") && IntOf(config[k]).None? then Err(ValueError)
    else Ok(GroupCounts(config))
  }

  function GroupCounts(config: map<string, Value>): (counts: map<string, int>)
    requires forall k :: k in config && EndsWith(k, "_nodes") ==> IntOf(config[k]).Some?
    ensures forall g :: g in counts <==> g + "_nodes" in config
    ensures forall g :: g in counts ==> Some(counts[g]) == IntOf(config[g + "_nodes"])
  {
    var groups := set k | k in config && EndsWith(k, "_nodes") :: GroupOf(k);
    GroupKeys(config, groups);
    assert forall g :: g in groups ==> EndsWith(g + "_nodes", "_nodes");
    map g | g in groups :: IntOf(config[g + "_nodes"]).value
  }

  // ---------------------------------------------------------------------
  // Configurator.create_cloud_provider

  /** `provider(**args)` for the one provider kind that can be built. */
  datatype CloudProvider = BotoCloudProvider(args: map<string, string>)

  /** The parameters the EC2 provider requires, in the order they are resolved. */
  const Ec2Params: seq<string> := ["ec2_url", "ec2_region", "ec2_access_key", "ec2_secret_key"]

  predicate Resolvable(config: Section, env: map<string, string>, p: string) {
    Upper(p) in env || p in config
  }

  /** The environment variable named by the upper-cased parameter wins over the
      configuration. */
  function ResolvedValue(config: Section, env: map<string, string>, p: string): string
    requires Resolvable(config, env, p)
  {
    if Upper(p) in env then env[Upper(p)] else config[p]
  }

  /** The arguments of the EC2 provider: each parameter from the environment,
      else from the configuration; ConfigurationError naming the first
      parameter found in neither. */
  function Ec2Args(config: Section, env: map<string, string>, params: seq<string>): (r: Result<map<string, string>>)
    ensures r.Ok? <==> forall p :: p in params ==> Resolvable(config, env, p)
    ensures r.Ok? ==> r.value.Keys == set p | p in params
    ensures r.Ok? ==> forall p :: p in params ==>
                        Resolvable(config, env, p) && r.value[p] == ResolvedValue(config, env, p)
    ensures r.Err? ==> r.error.ConfigurationError? && r.error.what in params
                       && !Resolvable(config, env, r.error.what)
  {
    if params == [] then Ok(map[])
    else
      var init := params[..|params| - 1];
      var p := params[|params| - 1];
      assert params == init + [p] && p in params;
      match Ec2Args(config, env, init)
      case Err(e) => Err(e)
      case Ok(args) =>
        if Upper(p) in env then Ok(args[p := env[Upper(p)]])
        else if p in config then Ok(args[p := config[p]])
        else Err(ConfigurationError(p))
  }

  /** The error names the first parameter that cannot be resolved. */
  lemma {:induction false} Ec2ArgsFirstError(config: Section, env: map<string, string>, params: seq<string>, i: nat)
    requires i < |params| && !Resolvable(config, env, params[i])
    requires forall j :: 0 <= j < i ==> Resolvable(config, env, params[j])
    ensures Ec2Args(config, env, params) == Err(ConfigurationError(params[i]))
    decreases |params|
  {
    var init := params[..|params| - 1];
    if i < |params| - 1 {
      Ec2ArgsFirstError(config, env, init, i);
    } else {
      assert forall j :: 0 <= j < |init| ==> Resolvable(config, env, init[j]);
    }
  }

  /** One step of the argument loop: the prefix up to `i` resolved to `args`. */
  lemma Ec2ArgsStep(config: Section, env: map<string, string>, params: seq<string>, i: nat,
                    args: map<string, string>)
    requires i < |params| && Ec2Args(config, env, params[..i]) == Ok(args)
    ensures Upper(params[i]) in env ==>
              Ec2Args(config, env, params[..i + 1]) == Ok(args[params[i] := env[Upper(params[i])]])
    ensures Upper(params[i]) !in env && params[i] in config ==>
              Ec2Args(config, env, params[..i + 1]) == Ok(args[params[i] := config[params[i]]])
    ensures !Resolvable(config, env, params[i]) ==>
              Ec2Args(config, env, params) == Err(ConfigurationError(params[i]))
  {
    assert params[..i + 1][..i] == params[..i];
    if !Resolvable(config, env, params[i]) {
      assert forall j :: 0 <= j < i ==> params[j] in params[..i];
      Ec2ArgsFirstError(config, env, params, i);
    }
  }

  /** The loop of create_cloud_provider that collects the provider's
      arguments, parameter by parameter. */
  method ResolveArgs(config: Section, env: map<string, string>, params: seq<string>)
    returns (r: Result<map<string, string>>)
    ensures r == Ec2Args(config, env, params)
  {
    var args := map[];
    for i := 0 to |params|
      invariant Ec2Args(config, env, params[..i]) == Ok(args)
    {
      Ec2ArgsStep(config, env, params, i, args);
      var param := params[i];
      var PARAM := Upper(param);
      if PARAM in env {
        args := args[param := env[PARAM]];
      } else if param in config {
        args := args[param := config[param]];
      } else {
        return Err(ConfigurationError(param));
      }
    }
    assert params[..|params|] == params;
    return Ok(args);
  }

  /** create_cloud_provider, given the cloud section: a missing `provider` is
      a ConfigurationError, and a provider outside the provider table is a
      KeyError raised by the table lookup before the branch that would report
      it. The `google` branch stores into a variable it never created, so once
      its first required parameter is present it fails with
      UnboundLocalError. */
  function CloudProviderFrom(config: Section, env: map<string, string>): (r: Result<CloudProvider>)
    ensures "provider" !in config ==> r == Err(ConfigurationError("provider"))
    ensures "provider" in config && config["provider"] !in {"ec2_boto", "google"} ==>
              r == Err(KeyError(config["provider"]))
    ensures "provider" in config && config["provider"] == "google" ==>
              r == Err(if "client_id" in config then UnboundLocalError("args") else ConfigurationError("client_id"))
    ensures "provider" in config && config["provider"] == "ec2_boto" ==>
              (r.Ok? <==> forall p :: p in Ec2Params ==> Resolvable(config, env, p))
    ensures r.Ok? ==> && "provider" in config && config["provider"] == "ec2_boto"
                      && r.value.args.Keys == set p | p in Ec2Params
                      && forall p :: p in Ec2Params ==>
                           p in r.value.args && Resolvable(config, env, p)
                           && r.value.args[p] == ResolvedValue(config, env, p)
  {
    if "provider" !in config then Err(ConfigurationError("provider"))
    else if config["provider"] !in {"ec2_boto", "google"} then Err(KeyError(config["provider"]))
    else if config["provider"] == "ec2_boto" then
      var args :- Ec2Args(config, env, Ec2Params);
      Ok(BotoCloudProvider(args))
    else if "client_id" !in config then Err(ConfigurationError("client_id"))
    else Err(UnboundLocalError("args"))
  }

  /** The cloud provider of a cloud section; a missing section escapes as
      NoSectionError. */
  function CloudProviderFor(st: Store, env: map<string, string>, cloud: string): Result<CloudProvider> {
    var config :- ReadCloudSection(st, cloud);
    CloudProviderFrom(config, env)
  }

  method CreateCloudProvider(st: Store, env: map<string, string>, cloud: string) returns (r: Result<CloudProvider>)
    ensures r == CloudProviderFor(st, env, cloud)
  {
    var config :- ReadCloudSection(st, cloud);
    if "provider" !in config {
      return Err(ConfigurationError("provider"));
    }
    if config["provider"] !in {"ec2_boto", "google"} {
      return Err(KeyError(config["provider"]));
    }
    if config["provider"] == "ec2_boto" {
      var args :- ResolveArgs(config, env, Ec2Params);
      return Ok(BotoCloudProvider(args));
    } else if "client_id" !in config {
      return Err(ConfigurationError("client_id"));
    } else {
      return Err(UnboundLocalError("args"));
    }
  }

  /** The environment overrides the configuration file. */
  lemma EnvironmentWins(st: Store, env: map<string, string>, cloud: string, p: string)
    requires CloudProviderFor(st, env, cloud).Ok?
    requires p in Ec2Params && Upper(p) in env
    ensures CloudProviderFor(st, env, cloud).value.args[p] == env[Upper(p)]
  {
  }

  // ---------------------------------------------------------------------
  // Configurator.create_setup_provider

  /** `AnsibleSetupProvider(*five fields, **rest)`. */
  datatype SetupProvider = AnsibleSetupProvider(
    userKeyPrivate: string, imageUser: string, imageUserSudo: string, imageSudo: string,
    playbookPath: string, extra: Section)

  /** The five fields popped, in order, for the provider's positional arguments. */
  const SetupFields: seq<string> :=
    ["user_key_private", "image_user", "image_user_sudo", "image_sudo", "playbook_path"]

  /** create_setup_provider, given the setup section: only the `ansible`
      provider is accepted (ConfigurationError otherwise); the five fields are
      removed and passed positionally (KeyError for the first one missing) and
      every other key, `provider` included, is forwarded. */
  function SetupProviderFrom(config: Section): (r: Result<SetupProvider>)
    ensures ("provider" !in config || config["provider"] != "ansible") ==> r == Err(ConfigurationError("provider"))
    ensures "provider" in config && config["provider"] == "ansible" ==>
              (r.Ok? <==> forall f :: f in SetupFields ==> f in config)
    ensures "provider" in config && config["provider"] == "ansible" && r.Err? ==>
              r.error.KeyError? && r.error.key in SetupFields && r.error.key !in config
    ensures r.Ok? ==>
              && r.value.userKeyPrivate == config["user_key_private"]
              && r.value.imageUser == config["image_user"]
              && r.value.imageUserSudo == config["image_user_sudo"]
              && r.value.imageSudo == config["image_sudo"]
              && r.value.playbookPath == config["playbook_path"]
    ensures r.Ok? ==>
              && r.value.extra.Keys == config.Keys - set f | f in SetupFields
              && "provider" in r.value.extra
              && forall k :: k in r.value.extra ==> k in config && r.value.extra[k] == config[k]
  {
    if "provider" !in config || config["provider"] != "ansible" then Err(ConfigurationError("provider"))
    else match FirstMissing(SetupFields, config)
      case Some(f) => Err(KeyError(f))
      case None =>
        Ok(AnsibleSetupProvider(
             config["user_key_private"], config["image_user"], config["image_user_sudo"],
             config["image_sudo"], config["playbook_path"], config - set f | f in SetupFields))
  }

  /** The error names the first field missing, in the order the fields are
      popped. */
  lemma SetupProviderFirstMissing(config: Section, i: nat)
    requires "provider" in config && config["provider"] == "ansible"
    requires i < |SetupFields| && SetupFields[i] !in config
    requires forall j :: 0 <= j < i ==> SetupFields[j] in config
    ensures SetupProviderFrom(config) == Err(KeyError(SetupFields[i]))
  {
    FirstMissingAt(SetupFields, config, i);
  }

  /** The setup provider of a setup section, read for the given cluster. */
  function SetupProviderFor(st: Store, name: string, cluster: string): Result<SetupProvider> {
    var config :- ReadSetupSection(st, name, cluster);
    SetupProviderFrom(config)
  }

  method CreateSetupProvider(st: Store, name: string, cluster: string) returns (r: Result<SetupProvider>)
    ensures r == SetupProviderFor(st, name, cluster)
  {
    var config :- ReadSetupSection(st, name, cluster);
    r := NewSetupProvider(config);
  }

  /** The provider built from a setup section by popping its five fields. */
  method NewSetupProvider(section: Section) returns (r: Result<SetupProvider>)
    ensures r == SetupProviderFrom(section)
  {
    if "provider" !in section || section["provider"] != "ansible" {
      return Err(ConfigurationError("provider"));
    }
    var config := section;
    if "user_key_private" !in config {
      FirstMissingAt(SetupFields, section, 0);
      return Err(KeyError("user_key_private"));
    }
    var userKeyPrivate := config["user_key_private"];
    config := config - {"user_key_private"};
    if "image_user" !in config {
      FirstMissingAt(SetupFields, section, 1);
      return Err(KeyError("image_user"));
    }
    var imageUser := config["image_user"];
    config := config - {"image_user"};
    if "image_user_sudo" !in config {
      FirstMissingAt(SetupFields, section, 2);
      return Err(KeyError("image_user_sudo"));
    }
    var imageUserSudo := config["image_user_sudo"];
    config := config - {"image_user_sudo"};
    if "image_sudo" !in config {
      FirstMissingAt(SetupFields, section, 3);
      return Err(KeyError("image_sudo"));
    }
    var imageSudo := config["image_sudo"];
    config := config - {"image_sudo"};
    if "playbook_path" !in config {
      FirstMissingAt(SetupFields, section, 4);
      return Err(KeyError("playbook_path"));
    }
    var playbookPath := config["playbook_path"];
    config := config - {"playbook_path"};
    assert config == section - set f | f in SetupFields;
    return Ok(AnsibleSetupProvider(userKeyPrivate, imageUser, imageUserSudo, imageSudo, playbookPath, config));
  }
}
