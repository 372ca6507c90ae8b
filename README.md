# elasticluster core in Dafny

A model of the part of elasticluster that turns an INI configuration into a
cluster topology and keeps that topology up to date:

- **Configuration resolution** (`elasticluster/conf.py`). The parsed file is a
  `Store`: section names in file order, the raw entries of every section and
  the parser defaults. From it the model builds:
  - the quote-stripping `get`/`items` of `QuotelessConfigParser`;
  - the section readers (`_read_section`, `read_cluster_section`,
    `read_node_section`, `read_cloud_section`, `read_setup_section`,
    `read_login_section`), including their `dict(a.items() + b.items())`
    merges, in which the right-hand map wins;
  - template listing;
  - the `Configurator` operations that build providers, nodes and clusters.
    This includes `load_cluster`, which rebuilds a cluster from a stored
    record.
- **Topology bookkeeping** (`elasticluster/cluster.py`).
  - `Node` and `Cluster` are classes whose fields change in place. The
    cluster holds a map from group to a sequence of nodes, and the list of
    its groups in the map's iteration order.
  - `add_node`, `get_all_nodes`, `get_frontend_node` and the bookkeeping of
    `stop` are modelled, together with `Node.update_ips`, the guard of
    `Node.is_alive`, the record `dump_cluster` writes and the name filter of
    `get_stored_clusters`.
- **Command-line subcommands** (`elasticluster/subcommands.py`).
  - The `--nodes` parsing of `start` and of `resize`.
  - The add and pop loops of `resize`.
  - The pattern filter chain of `list-templates`.
  - The `ssh` and `sftp` command lines.

Cloud, SSH and Ansible calls are not modelled. Their outcomes become
parameters:
- the set of nodes whose termination fails;
- the addresses a provider reports;
- whether an instance is running;
- a `matches` predicate standing for `fnmatch`;
- the iteration order of a dictionary.

Path expansion (`expanduser`, `expandvars`) is a function held by the
`Store`. Python errors are the `Error` datatype of module `Common`. Each
operation either returns a `Result` or states when it raises.

The model follows the code where the code departs from what its comments
suggest:
- Login values win over cluster and setup values in the merges.
- The parser defaults therefore also mask a cluster's own setting of the
  same key (`Conf.LoginDefaultsMaskClusterSetting`).
- A repeated group in `--nodes` overwrites the earlier entry.
- `resize` checks no sizes up front: `pop()` on an empty group raises.
- `add_node` ignores the stored name, so reloaded nodes are renamed by
  position.
- An unknown cloud provider is a `KeyError` from the provider table.
- The `google` branch of `create_cloud_provider` writes into a dictionary it
  never created, so it always fails.
- A resize count with nothing before the `:` fails with an `IndexError` that
  `pre_run` does not catch.
- `int()` is Python 2's: whitespace may follow the sign.
- With a single node group, `stop` walks the group's own list while removing
  from it and skips nodes. The model keeps both versions; see "## Findings".

Modules:
- `Common`: Python built-ins used by the core (`str.split`, `str.strip`,
  `int()`, `"%03d"`, string order).
- `Conf`: `conf.py` up to node and provider creation.
- `Cluster`: `cluster.py`.
- `Configurator`: `create_cluster` and `load_cluster` of `conf.py`, which
  need the `Cluster` class.
- `Subcommands`: `subcommands.py`.

## Model

| member | source | states |
|---|---|---|
| Common.Merge | elasticluster/conf.py:284 | `dict(a.items() + b.items())` holds every key of either map; on a collision the right-hand value wins |
| Common.StripLeftShape | elasticluster/conf.py:211 | `lstrip`: the result is a suffix of the input, every character dropped is in the set, and the result does not start with one |
| Common.StripRightShape | elasticluster/conf.py:211 | `rstrip`: the result is a prefix of the input, every character dropped is in the set, and the result does not end with one |
| Common.StripEnds | elasticluster/conf.py:211 | what `strip` leaves neither starts nor ends with a stripped character |
| Common.StripIdempotent | elasticluster/conf.py:211 | stripping twice is stripping once |
| Common.Split | elasticluster/subcommands.py:133 | `split` on one character gives at least one piece, and no piece holds the separator |
| Common.JoinSplit | elasticluster/subcommands.py:133 | joining the pieces of a split with the separator gives back the string |
| Common.SplitJoin | elasticluster/subcommands.py:133 | splitting a join of separator-free pieces gives back the pieces |
| Common.SplitPiece | elasticluster/subcommands.py:135 | a string without the separator splits into itself alone |
| Common.ShowNat | elasticluster/cluster.py:63 | `%d` of a natural number is a run of digits with no leading zero |
| Common.Format03 | elasticluster/cluster.py:63 | `%03d` is a run of at least three digits |
| Common.ShowNatValue | elasticluster/cluster.py:63 | the digits of `%d` denote the number |
| Common.ParseFormat03 | elasticluster/cluster.py:63 | `int("%03d" % n) == n`: the index in a node name reads back |
| Common.ParseShowNat | elasticluster/subcommands.py:136 | `int(str(n)) == n` |
| Common.ParseDigits | elasticluster/subcommands.py:136 | a non-empty run of digits parses as its value |
| Common.SignedDigits | elasticluster/subcommands.py:136 | a sign followed by what `lstrip` reduces to digits parses as those digits' value, negated after `-` |
| Common.ParseSignSpace | elasticluster/subcommands.py:136 | Python 2 `int()` lets whitespace separate the sign from the digits: `int("- 3") == -3` |
| Common.Format03Injective | elasticluster/cluster.py:63 | two different indexes never give the same node-name suffix |
| Common.LexTotal | elasticluster/cluster.py:214 | the string order `sorted` uses is total |
| Common.LexAntisymmetric | elasticluster/cluster.py:214 | two strings each at most the other are equal |
| Common.LexTransitive | elasticluster/cluster.py:214 | the string order is transitive |
| Conf.ItemValue | elasticluster/conf.py:213-222 | a value reported by `items()` neither starts nor ends with a double quote |
| Conf.GetValue | elasticluster/conf.py:209-211 | a value reported by `get()` neither starts nor ends with a single quote |
| Conf.GetOption | elasticluster/conf.py:209-211 | `get` gives the section's own value when it has one, else the default; NoSectionError and NoOptionError exactly when those are missing |
| Conf.ReadSection | elasticluster/conf.py:263-273 | a section reads exactly when it exists (else NoSectionError), with the keys of the section and of the defaults, and the section's own values winning |
| Conf.ReadLoginSection | elasticluster/conf.py:339-356 | a login section that reads holds both key paths |
| Conf.ExpandKeys | elasticluster/conf.py:345-348 | both key paths expanded, every other entry unchanged |
| Conf.LoginSection | elasticluster/conf.py:339-356 | the login section fails exactly when the section or one key path is missing, the private path checked first; otherwise it is the section with both paths expanded |
| Conf.ReadClusterSection | elasticluster/conf.py:275-284 | a resolved cluster section holds `login` and both key paths |
| Conf.ClusterSection | elasticluster/conf.py:275-284 | the resolved cluster section is the cluster section merged under its login section, the login values winning; errors escape in lookup order |
| Conf.ReadNodeSection | elasticluster/conf.py:286-312 | a node configuration that reads holds both key paths |
| Conf.NodeSection | elasticluster/conf.py:286-312 | NoSectionError without `cluster/<name>`; otherwise the cluster configuration, overridden by `cluster/<name>/<type>` exactly when that section exists |
| Conf.ReadSetupSection | elasticluster/conf.py:323-337 | a setup configuration that reads holds `playbook_path` and the private key path |
| Conf.SetupSectionErrors | elasticluster/conf.py:323-337 | the setup configuration fails with the first failure among the setup section, its playbook path, the cluster configuration and the login section that configuration names |
| Conf.SetupMerge | elasticluster/conf.py:330-337 | every key of the setup and login sections, the login values winning; the playbook path expanded twice |
| Conf.SetupSection | elasticluster/conf.py:323-337 | when every part reads, the setup configuration is the setup section merged under the cluster's login section |
| Conf.LoginDefaultsMaskClusterSetting | elasticluster/conf.py:284 | a parser default overrides a cluster's own setting of the same key whenever the login section does not set it |
| Conf.TemplateOf | elasticluster/conf.py:367 | `section.split('/')[1]` is the piece after `cluster/` up to the next `/` |
| Conf.SplitAfter | elasticluster/conf.py:367 | splitting after a separator-free first piece gives that piece, then the split of the rest |
| Conf.TemplateNames | elasticluster/conf.py:358-368 | no more names than sections, and a name is listed exactly when some `cluster/...` section has it |
| Conf.TemplateNamesAppend | elasticluster/conf.py:365-367 | the names of two consecutive section lists are the first list's names followed by the second's: one entry per `cluster/...` section, in file order |
| Conf.TemplateOfSection | elasticluster/conf.py:367 | both `cluster/<t>` and `cluster/<t>/<type>` belong to template `t` |
| Conf.TemplateRepeats | elasticluster/conf.py:365-367 | `cluster/<t>` followed by a node-type section `cluster/<t>/<type>` lists `t` twice |
| Conf.ListClusterTemplates | elasticluster/conf.py:358-368 | the loop over the sections gives exactly TemplateNames of the file's section list |
| Conf.TemplatesOfStore | elasticluster/conf.py:358-368 | a name is listed exactly when an existing `cluster/...` section belongs to it |
| Conf.FirstMissing | elasticluster/conf.py:168-174 | None exactly when every key is present; otherwise the first key missing |
| Conf.FirstMissingAt | elasticluster/conf.py:168-174 | an absent key with every earlier key present is the one reported |
| Conf.NodeSettingsFrom | elasticluster/conf.py:168-180 | a node configuration is accepted exactly when it has the six required keys (else ConfigurationError naming a missing one); the node gets those values, and `image_userdata` defaults to `""` |
| Conf.NodeSettingsFirstMissing | elasticluster/conf.py:168-174 | the error names the first missing key, in the order create_node checks them |
| Conf.ConfigWithOverrides | elasticluster/conf.py:114-123 | `name` is set to the template, then the overrides win; ConfigurationError exactly when `cloud` or `setup_provider` is still missing |
| Conf.ClusterConfig | elasticluster/conf.py:107-123 | every NoSectionError while reading the cluster configuration, the login section's included, becomes ConfigurationError; any other error (a missing `login` key is a KeyError) escapes unchanged; otherwise ConfigWithOverrides |
| Conf.GroupKeys | elasticluster/conf.py:125 | the group names are exactly the `<g>_nodes` keys without the suffix |
| Conf.NodeCounts | elasticluster/conf.py:125 | one group per `_nodes` key holding `int()` of its value; ValueError exactly when some such value is not an integer |
| Conf.GroupCounts | elasticluster/conf.py:125 | the group map when every count parses |
| Conf.Ec2Args | elasticluster/conf.py:66-78 | each EC2 parameter from the upper-cased environment variable, else the configuration; ConfigurationError exactly when one is in neither |
| Conf.Ec2ArgsFirstError | elasticluster/conf.py:66-78 | the error names the first parameter that is in neither place |
| Conf.Ec2ArgsStep | elasticluster/conf.py:68-78 | one pass of the loop adds the parameter from the environment or the configuration, or stops with its error |
| Conf.ResolveArgs | elasticluster/conf.py:62-79 | the loop computes Ec2Args |
| Conf.CloudProviderFrom | elasticluster/conf.py:53-100 | no `provider` is ConfigurationError; an unknown provider is KeyError; `google` always fails; `ec2_boto` succeeds exactly when all four parameters resolve, with the resolved values |
| Conf.CreateCloudProvider | elasticluster/conf.py:48-100 | create_cloud_provider over the named cloud section, a missing section escaping as NoSectionError |
| Conf.EnvironmentWins | elasticluster/conf.py:69-70 | an environment variable overrides the configuration file |
| Conf.SetupProviderFrom | elasticluster/conf.py:192-202 | only `ansible` is accepted (else ConfigurationError); KeyError exactly when one of the five fields is missing; the five fields are passed by position and every other key, `provider` included, is forwarded |
| Conf.SetupProviderFirstMissing | elasticluster/conf.py:199-202 | the KeyError names the first field missing, in pop order |
| Conf.CreateSetupProvider | elasticluster/conf.py:188-202 | create_setup_provider over the setup configuration of the cluster |
| Conf.NewSetupProvider | elasticluster/conf.py:192-202 | the pops compute SetupProviderFrom |
| Cluster.Node.constructor | elasticluster/cluster.py:254-271 | a new node has the given name, type, provider and settings, and no instance or addresses |
| Cluster.Node.Restore | elasticluster/conf.py:152-154 | the stored instance id and addresses are copied; name and type stay |
| Cluster.Node.UpdateIps | elasticluster/cluster.py:342-349 | addresses are replaced by the reported ones only when one of them is unset |
| Cluster.Node.IsAlive | elasticluster/cluster.py:290-314 | alive exactly when there is an instance id and it is running; only a running node refreshes its addresses |
| Cluster.CreateNode | elasticluster/conf.py:158-180 | a fresh, not yet started node with the settings of its type, or the configuration's error |
| Cluster.NewNode | elasticluster/conf.py:168-180 | a fresh node from an already read node configuration, or the ConfigurationError of NodeSettingsFrom |
| Cluster.ConcatMember | elasticluster/cluster.py:158-162 | a node is in get_all_nodes exactly when some group holds it |
| Cluster.ConcatLength | elasticluster/cluster.py:158-162 | get_all_nodes is as long as the group sizes together |
| Cluster.ConcatDistinct | elasticluster/cluster.py:158-162 | in well-formed groups no node is listed twice |
| Cluster.Without | elasticluster/cluster.py:172 | removing nodes never lengthens a group |
| Cluster.WithoutMember | elasticluster/cluster.py:172 | a node stays exactly when it was there and was not removed |
| Cluster.RemoveFirst | elasticluster/cluster.py:172 | `list.remove` of a member drops one element |
| Cluster.RemoveFirstWithout | elasticluster/cluster.py:172 | in a group without repeats, `remove` of a member drops exactly that member |
| Cluster.Records | elasticluster/cluster.py:384-389 | one five-field record per node, in node order |
| Cluster.RecordsAppend | elasticluster/cluster.py:384-389 | the records of two lists joined are their records joined |
| Cluster.Renamed | elasticluster/cluster.py:63 | records renamed by position, `<g>` plus the 1-based `%03d` index |
| Cluster.RehydratedSnoc | elasticluster/conf.py:148-154 | one more stored record adds one node to its own group, named after that group's new size, and leaves the other groups alone |
| Cluster.RehydratedRenamed | elasticluster/conf.py:148-154 | a reloaded group holds its type's records in record order, renamed by position |
| Cluster.OfTypeGroup | elasticluster/cluster.py:384-389 | the records of one group picked out by type are that group's records |
| Cluster.AppendToGroup | elasticluster/cluster.py:63-67 | appending a new, correctly named and configured node keeps the groups well formed, named and configured |
| Cluster.ShrinkStep | elasticluster/cluster.py:172 | removing a node still in its group takes exactly that node out |
| Cluster.StoppedAll | elasticluster/cluster.py:169-176 | once the stopped nodes are gone, each group keeps exactly its failing nodes (the intended loop over a copy; see Findings) |
| Cluster.NewGroup | elasticluster/conf.py:149-150 | an empty new group, listed last, keeps the groups well formed, named and configured |
| Cluster.Planned | elasticluster/cluster.py:55 | `range(count)` runs `count` times, or none for a count below one |
| Cluster.OfTypeConcat | elasticluster/cluster.py:384-389 | the dumped records of one type are the records of that group |
| Cluster.DumpLoad | elasticluster/cluster.py:376-389 | reloading what dump_cluster stores gives each group its nodes back: same number, order, names, instance ids and addresses |
| Cluster.ShrinkDone | elasticluster/cluster.py:169-176 | after the loop the groups are well formed and keep exactly their failing nodes (the intended loop over a copy; see Findings) |
| Cluster.RemoveStopped | elasticluster/cluster.py:169-176 | every node whose termination succeeds leaves its group; failing nodes stay in place (the intended loop over a copy; see Findings) |
| Cluster.KeptFailing | elasticluster/cluster.py:169-176 | the intended loop keeps only nodes whose termination failed |
| Cluster.LiveKept | elasticluster/cluster.py:154-176 | the loop as written over a single group's own list never keeps more nodes than the list has |
| Cluster.LiveKeptNodes | elasticluster/cluster.py:154-176 | what the loop as written keeps comes from the group, without repeats |
| Cluster.LiveStopStep | elasticluster/cluster.py:169-172 | a node that stops is removed and the node that moves into its position is passed over |
| Cluster.LiveFailStep | elasticluster/cluster.py:169-176 | a node that fails to stop stays and the walk moves on |
| Cluster.RemoveFirstAt | elasticluster/cluster.py:172 | in a list without repeats, `remove` of the node at a position removes that position |
| Cluster.RemoveLive | elasticluster/cluster.py:158-176 | the position walk over the live list, removing every node that stops, computes LiveKept |
| Cluster.LiveKeptSkipsSecond | elasticluster/cluster.py:158-176 | with one group whose first node stops, the second node stays running in the group although its termination would succeed; the intended loop removes it |
| Cluster.LiveStopSkips | elasticluster/cluster.py:158-189 | one group `[c1, c2]`, both stopping: intended result `[]`, as written `[c2]` |
| Cluster.Cluster.constructor | elasticluster/cluster.py:40-52 | the attributes as given, `ssh_to` read from the keyword arguments (None when absent), the keyword arguments kept as `extra`, one empty group per entry of the group map, listed in the map's order |
| Cluster.Cluster.AllNodes | elasticluster/cluster.py:154-162 | get_all_nodes: as long as the group sizes together, no repeats, and `[]` without groups |
| Cluster.Cluster.Record | elasticluster/cluster.py:376-389 | the dumped record: name, template, each group's size, and one five-field record per node in get_all_nodes order |
| Cluster.Cluster.AddNode | elasticluster/cluster.py:58-68 | KeyError for a missing group; otherwise a fresh node named `<t>%03d` after the group's new size is appended to that group only, or the configuration's error with nothing changed |
| Cluster.Cluster.AddNodes | elasticluster/cluster.py:55-56 | `count` nodes appended to one group, the old nodes first and the other groups unchanged; otherwise the first add_node's error with nothing changed |
| Cluster.Cluster.Populate | elasticluster/cluster.py:54-56 | every group gets its count of nodes exactly when every group asking for nodes has readable settings; otherwise the error of the first such group in order |
| Cluster.Cluster.ClearGroups | elasticluster/conf.py:147 | every group emptied, none dropped |
| Cluster.Cluster.EnsureGroup | elasticluster/conf.py:149-150 | a missing group is created empty and listed last; an existing one is untouched |
| Cluster.Cluster.AddRestored | elasticluster/conf.py:151-154 | a stored record becomes a node at the end of its group, renamed by position, with the stored instance id and addresses |
| Cluster.Cluster.StopNodes | elasticluster/cluster.py:169-176 | each group keeps exactly the nodes whose termination failed (intended; see Findings) |
| Cluster.Cluster.StopNodesAsWritten | elasticluster/cluster.py:154-176 | as written: with exactly one group that group becomes LiveKept of itself; with any other number of groups each keeps exactly its failing nodes |
| Cluster.Cluster.Stop | elasticluster/cluster.py:164-189 | the nodes are stopped as StopNodes says; the storage is deleted exactly when no node is left or `force` is set; otherwise the remaining cluster is dumped |
| Cluster.Cluster.FrontendNode | elasticluster/cluster.py:191-219 | the first node of a non-empty `ssh_to` group; NodeNotFound for an `ssh_to` naming no group; otherwise the first node of the alphabetically least non-empty group, and NodeNotFound when every group is empty |
| Cluster.Cluster.FirstOfLeastGroup | elasticluster/cluster.py:212-219 | the first node of the alphabetically least non-empty group, NodeNotFound when there is none |
| Cluster.LeastNonEmpty | elasticluster/cluster.py:214-216 | the least group in string order among those with nodes; None exactly when all are empty |
| Cluster.StoredNamesMember | elasticluster/cluster.py:423-436 | a cluster is listed exactly when `<name>.json` is a regular file of the storage directory |
| Cluster.StoredClusters | elasticluster/cluster.py:423-436 | the loop keeps each storage file name with `.json` dropped, in listing order |
| Configurator.SectionName | elasticluster/conf.py:130-132 | a section name must be a string |
| Configurator.Keywords | elasticluster/conf.py:135-136 | the keyword arguments are `ssh_to` (None when the configuration has none) and every key not popped, with its value |
| Configurator.AssemblyOf | elasticluster/conf.py:125-136 | the constructor gets the configured name and cloud, the group map, and Keywords as its keyword arguments; it is built only when no remaining key is named like a positional parameter (`self` included), that being a TypeError |
| Configurator.AssemblyConfig | elasticluster/conf.py:102-125 | a successful assembly comes from the resolved cluster section with the overrides applied |
| Configurator.CountsOfConfig | elasticluster/conf.py:114-125 | the group counts come from the `_nodes` keys of the section and the overrides, an override winning |
| Configurator.AssemblyName | elasticluster/conf.py:114-117 | the cluster is named after its template unless a `name` override is given |
| Configurator.AssemblyCounts | elasticluster/conf.py:114-125 | the groups come from the `_nodes` keys of the section and of the overrides, and an override sets its group's count |
| Configurator.ExtraOfConfig | elasticluster/conf.py:114-136 | the keyword arguments are `ssh_to` and every key of section and overrides except those popped, an override winning; `ssh_to` is the override, else the section's value, else None |
| Configurator.AssemblyExtra | elasticluster/conf.py:127-136 | `extra` is `ssh_to` and every key of section and overrides except those popped, an override winning, and none of the `**config` keys is a constructor parameter |
| Configurator.AssemblySshTo | elasticluster/conf.py:135 | the `ssh_to` keyword argument is the override, else the section's value, else None |
| Configurator.AssemblyErrors | elasticluster/conf.py:107-123 | a missing cluster section is ConfigurationError, then a missing `cloud`, then a missing `setup_provider`, in that order |
| Configurator.AssemblyCountError | elasticluster/conf.py:119-125 | with `cloud` and `setup_provider` present, a non-integer count override is a ValueError, raised before any provider is made |
| Configurator.Assemble | elasticluster/conf.py:102-132 | create_cluster's configuration, group map and two providers |
| Configurator.Build | elasticluster/conf.py:127-136 | the cluster exists exactly when every group asking for nodes has readable settings; each group gets its count of fresh, named, configured nodes; otherwise the error of the first group, in the group map's order, that asks for nodes and whose settings cannot be read |
| Configurator.CreateCluster | elasticluster/conf.py:102-136 | the assembly's error escapes; otherwise Build's outcome: the cluster exists exactly when every group asking for nodes has readable settings, else the error of the first such group in the group map's order; on success fresh nodes at their planned sizes |
| Configurator.RestoreStep | elasticluster/conf.py:148-154 | one pass of the loop extends the reloaded groups by one stored record |
| Configurator.RestoreNodes | elasticluster/conf.py:148-154 | every group ends up with its type's records in record order, renamed by position; the first failing add_node escapes |
| Configurator.Reload | elasticluster/conf.py:147-154 | the groups are cleared, then rebuilt from the stored records; the first record whose settings cannot be read gives the error |
| Configurator.LoadCluster | elasticluster/conf.py:139-156 | ClusterNotFound without a stored record; the assembly's error; then the error of a group asking for nodes, or else of the first stored record whose node settings cannot be read; otherwise the assembled cluster whose groups are rebuilt from the records |
| Configurator.DumpedTypes | elasticluster/cluster.py:384-389 | every dumped node type is a group of the dumped cluster |
| Configurator.LoadAfterDump | elasticluster/conf.py:147-154 | loading a dump gives each dumped group back node for node; a group only the template adds stays empty |
| Configurator.LoadBuilt | elasticluster/conf.py:143-156 | after the assembly: the cluster exists exactly when create_cluster's groups and every stored record have readable settings; otherwise the error of the first group, in the group map's order, that asks for nodes and cannot read its settings, or else of the first failing record; on success the assembled attributes and the groups rebuilt from the records |
| Subcommands.StartSpec | elasticluster/subcommands.py:135-140 | a spec is accepted exactly when it splits into two parts on `:` and the first parses as an integer; otherwise ConfigurationError |
| Subcommands.StartSpecRoundTrip | elasticluster/subcommands.py:135-136 | a spec written as `"%d:%s"` reads back as its count and group |
| Subcommands.AssignOk | elasticluster/subcommands.py:134-140 | the specs write their map exactly when all are well formed; otherwise the error of the first malformed one |
| Subcommands.AssignLast | elasticluster/subcommands.py:134-137 | every key comes from some spec, and a spec with no later spec for its key sets its value |
| Subcommands.AssignStep | elasticluster/subcommands.py:134-137 | one more well-formed spec writes its entry over the map so far |
| Subcommands.AssignStops | elasticluster/subcommands.py:134-140 | the first malformed spec ends the loop with its error |
| Subcommands.StartEntry | elasticluster/subcommands.py:137 | a spec sets `<group>_nodes` to its count |
| Subcommands.StartOverridesKeys | elasticluster/subcommands.py:134-137 | the override keys are exactly the specs' groups with `_nodes` added |
| Subcommands.StartOverridesLast | elasticluster/subcommands.py:134-137 | a group's override is the count of the last spec for it |
| Subcommands.StartPreRun | elasticluster/subcommands.py:129-140 | no overrides for an absent or empty `--nodes`; otherwise the overrides of the comma-separated specs |
| Subcommands.StartSpecs | elasticluster/subcommands.py:133-140 | the loop over the specs computes the overrides the specs write, or the first malformed spec's error |
| Subcommands.ResizeSpec | elasticluster/subcommands.py:253-260 | a spec splits into two parts on `:`; a count starting with `-` removes nodes; errors are ConfigurationError, or IndexError for an empty count |
| Subcommands.ResizeSpecRoundTrip | elasticluster/subcommands.py:253-257 | `N:g` and `+N:g` add `N` nodes to `g`; `-N:g` removes `N` |
| Subcommands.ResizeSpecCount | elasticluster/subcommands.py:253-257 | the sign of the count picks the map, and the count is `int()` of the rest |
| Subcommands.ResizeSpecEmptyCount | elasticluster/subcommands.py:254 | `:g` is an IndexError, not a ConfigurationError |
| Subcommands.ResizeEntry | elasticluster/subcommands.py:254-257 | a spec writes its count under its map and group |
| Subcommands.Part | elasticluster/subcommands.py:247-248 | the entries tagged for one of the two maps |
| Subcommands.PartUpdate | elasticluster/subcommands.py:254-257 | writing an entry changes only the map it is tagged for |
| Subcommands.ResizePlanOk | elasticluster/subcommands.py:250-260 | the maps are made exactly when every spec is well formed; otherwise the error of the first malformed one |
| Subcommands.ResizePlanKeys | elasticluster/subcommands.py:252-257 | a group is in the add map exactly when some spec adds to it, and in the remove map exactly when some spec removes from it |
| Subcommands.ResizePlanLast | elasticluster/subcommands.py:252-257 | a repeated group does not accumulate: the last spec for it wins |
| Subcommands.ResizePreRun | elasticluster/subcommands.py:246-260 | both maps empty for an absent or empty `--nodes`; otherwise the plan of the comma-separated specs |
| Subcommands.PlanSpecs | elasticluster/subcommands.py:252-257 | the loop computes the plan of the specs |
| Subcommands.Popped | elasticluster/subcommands.py:281-282 | `k` pops return the last `k` nodes, last one first |
| Subcommands.RemovalStops | elasticluster/subcommands.py:278-283 | once a group fails, the whole loop fails with that error |
| Subcommands.RemovalFacts | elasticluster/subcommands.py:278-283 | the pops succeed exactly when every group asked for nodes exists and has enough; each group then keeps its first `n-k` nodes; otherwise the error is KeyError for a missing group or IndexError |
| Subcommands.Truncate | elasticluster/subcommands.py:282 | cutting a group short keeps the groups well formed, named and configured |
| Subcommands.PopLast | elasticluster/subcommands.py:282 | `pop()` returns the last node and takes it off the group; IndexError on an empty group |
| Subcommands.PopGroup | elasticluster/subcommands.py:281-282 | one group's pops: KeyError for a missing group, otherwise PopN |
| Subcommands.PopN | elasticluster/subcommands.py:281-282 | `count` pops succeed exactly when the group holds that many, leaving its first `n-count` nodes and returning the popped ones last-first; otherwise IndexError with the group emptied |
| Subcommands.PopNext | elasticluster/subcommands.py:282 | the next pop takes the next node from the end of what is left, and fails with IndexError exactly when nothing is left |
| Subcommands.RemovePhase | elasticluster/subcommands.py:278-283 | the pop loop over the groups computes Removal |
| Subcommands.GrowStep | elasticluster/subcommands.py:272-276 | adding one group's nodes extends the groups grown so far by that group |
| Subcommands.AddGroupStep | elasticluster/subcommands.py:275-276 | one group's adds succeed exactly when it asks for no nodes, or exists with readable settings; the groups grown so far then include it |
| Subcommands.AddPhase | elasticluster/subcommands.py:272-276 | the adds succeed exactly when every group asked to grow exists and has readable settings; each such group keeps its nodes and gains its count at the end; otherwise the first failing group's error |
| Subcommands.ResizeAfterAdd | elasticluster/subcommands.py:272-283 | after the adds, the pops succeed exactly when every group asked to shrink has enough nodes once grown, and the groups are resized by the whole plan |
| Subcommands.ResizeExecute | elasticluster/subcommands.py:272-283 | resize succeeds exactly when every group to grow exists and is configured and every group to shrink has enough nodes after growing; each group's size becomes old + added − removed, and the nodes that stay keep their places |
| Subcommands.MatchingAll | elasticluster/subcommands.py:350-351 | each template is kept as often as it is listed if it matches every pattern, and dropped otherwise |
| Subcommands.MatchingNone | elasticluster/subcommands.py:350-351 | with no patterns every template is kept |
| Subcommands.MatchingStep | elasticluster/subcommands.py:350-351 | filtering by one more pattern equals filtering by all patterns at once, so the chain is an intersection |
| Subcommands.FilterTemplates | elasticluster/subcommands.py:348-351 | the loop keeps, in order, the templates matching every pattern |
| Subcommands.Verbosity | elasticluster/subcommands.py:483 | `['-v'] * verbose` is `verbose` copies of `-v` |
| Subcommands.SshArgvLayout | elasticluster/subcommands.py:480-485 | `ssh -i key`, one `-v` per level, then `user@host`, then the arguments unchanged |
| Subcommands.SftpArgvLayout | elasticluster/subcommands.py:524-529 | `sftp -i key`, one `-v` per level, then the arguments, then `user@host` last |
| Subcommands.SshSftpSameWords | elasticluster/subcommands.py:480-485 | after the program name both command lines hold the same words, and they are equal when there are no arguments |
| Subcommands.FrontendMember | elasticluster/cluster.py:191-219 | the frontend node is one of the cluster's nodes |
| Subcommands.FrontendCommand | elasticluster/subcommands.py:462-485 | NodeNotFound exactly when there is no frontend; otherwise exactly the ssh (or sftp) command line of SshArgvLayout (SftpArgvLayout) for the frontend's private key, image user and public address |

## Left out

- Reading the configuration file, `ConfigParser` syntax and the key-file existence warning are left out. The model takes the parsed sections as a `Store`.
- Path expansion is left out: `expanduser` and `expandvars` are functions held by the `Store`, with no properties assumed.
- The `Singleton` holder of `Configuration` and the `storage_path` plumbing are process state and are left out.
- JSON encoding, file opening and deletion, `os.listdir` and `os.path.exists` in `ClusterStorage` are I/O.
  - The stored clusters are a map from name to record.
  - A directory listing is a sequence of entries with an is-file flag.
- `Cluster.start`, `Cluster.setup`, `Cluster.update`, `Node.start`, `Node.stop`, `Node.connect` and the setup provider's `setup_cluster`/`cleanup` are left out. They are polling with timeouts and signals, or calls into boto, paramiko and Ansible. Where the core depends on their outcome, it is a parameter:
  - `failing` for `stop`;
  - `running` and `reported` for `is_alive`/`update_ips`.
- `Cluster.remove_node` is dead code that calls `.remove` on a dictionary. It is left out.
- `create_cluster_storage` is left out because it only wraps a path.
- The `google` cloud provider is modelled only as the failure it always ends in. The branch assigns into `args` before creating it.
- `fnmatch` is the `matches` parameter of the template filter; its glob semantics are a library matter.
- Dictionary iteration order is not modelled.
  - It is the `order` sequence of a cluster.
  - It is the `dictOrder` parameter when a cluster is built. `dictOrder` depends only on the key set. In CPython 2.7 the order also depends on the dict's insertion, deletion and resize history when hashes collide, so the group map and `self.nodes` could in principle iterate differently.
  - It is the `addOrder`/`removeOrder` parameters of resize.
  - Only `get_frontend_node` sorts explicitly.
- Subcommands.ResizeExecute: the node changes of `execute` on an already loaded cluster. Loading, `cluster.update()`, `node.stop()` of the popped nodes, `cluster.start()`, `cluster.setup()` and printing are left out. The popped nodes are returned in pop order instead of being stopped.
- Subcommands.ResizeExecute: after a failed add or pop, the contract states only that the groups are still well formed with the same keys. It does not state which nodes were already added or popped.
- Subcommands.FrontendCommand: the command line is built but not run; `os.execlp` and the error exit are left out.
- The `setup` methods (argparse), `cluster_summary`, `raw_input` confirmations, `print` and logging are user-interface plumbing. They are left out, and so are the other subcommands' `execute` bodies, which only chain the modelled operations with I/O.
- Python 2 `int()`: surrounding whitespace, a sign, whitespace after the sign and ASCII digits are modelled. Unicode digits, and the trailing `L` that an out-of-range numeral may carry, are not.
- `ConfigParser` interpolation (`%(name)s`) is left out. The `Store` holds each value as it reads after interpolation, so `InterpolationMissingOptionError` and `InterpolationDepthError` are not modelled.
- Cluster.Cluster.EnsureGroup: the group load_cluster adds for a stored node type is listed last. In Python 2 its place in the rebuilt dictionary depends on string hashes. Nothing in the model depends on that place except the order of `get_all_nodes` and of the dump.
- Cluster.StoppedAll: states the intended stop loop over a copy of the node list. The loop as written is Cluster.RemoveLive (see Findings).
- Cluster.ShrinkDone: states the intended stop loop over a copy of the node list. The loop as written is Cluster.RemoveLive (see Findings).
- Cluster.RemoveStopped: is the intended stop loop over a copy of the node list. With a single group the code as written walks the live list instead; that is Cluster.RemoveLive (see Findings).
- Cluster.Cluster.StopNodes: models the intended stop loop. The loop as written is Cluster.Cluster.StopNodesAsWritten (see Findings).
- Cluster.Cluster.Stop: is built on the intended stop loop. As written, a single-group cluster whose nodes all stop can keep nodes and be dumped instead of deleted (see Findings).

## Findings

| source | as written | input that shows it | evidently intended | confidence | as-written member | corrected member |
|---|---|---|---|---|---|---|
| elasticluster/cluster.py:154-176 | With a single group, `reduce(operator.add, nodes)` returns that group's own list. `stop` then iterates that list while `self.nodes[node.type].remove(node)` shrinks it, so the node after each removed one is never stopped. | One group holding `[c1, c2]`, both terminating without error: the group ends as `[c2]`. `get_all_nodes()` is not empty, so without `force` the cluster is dumped again with `c2` still running. | Every node whose termination succeeds is removed, the group ends `[]`, and the storage is deleted. | high; not executed | Cluster.Cluster.StopNodesAsWritten (counterexamples: Cluster.LiveStopSkips, Cluster.LiveKeptSkipsSecond) | Cluster.Cluster.StopNodes (proved by Cluster.RemoveStopped and Cluster.StoppedAll) |
