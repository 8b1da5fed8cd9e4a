/** load_config_from_yaml_file (code/config.cpp): the shell string hook
    commands run under, and the list of template items with their paths
    tilde-expanded. The loaded document is a parameter; tilde expansion is
    expandTilda of code/utils.cpp, over the environment `env`. */
module ConfigLoader {
  import opened Wrappers
  import opened Text
  import opened Yaml
  import opened Utils
  import Generate

  datatype Item = Item(name: string, templatePath: string, targetPath: string, hook: string)

  datatype Config = Config(shell: string, items: seq<Item>)

  const DefaultShell := "/bin/sh -c '{}'"

  /** The error text, spelled as the program spells it. */
  const MissingPlaceholder := "shell string missed command placeolder ({})"

  function TemplateNotExpanded(name: string): string {
    "failed to expand tilda in template value of item '" + name + "'"
  }

  function TargetNotExpanded(name: string): string {
    "failed to expand tilda in target value of item '" + name + "'"
  }

  /** `yaml["config"]["shell"].as<std::string>(DefaultShell)`: the fallback
      covers a missing or non-string shell, but indexing a missing config
      section throws. */
  function ShellSetting(root: Node): (r: Result<string, YamlError>)
    ensures r.Failure? <==> !root.Mapping? || "config" !in root.entries || root.entries["config"].Scalar?
    ensures r.Success? && root.entries["config"].Mapping? && "shell" in root.entries["config"].entries
              && root.entries["config"].entries["shell"].Scalar?
            ==> r.value == root.entries["config"].entries["shell"].text
  {
    var config :- Lookup(Defined(root), "config");
    var shell :- Lookup(config, "shell");
    Success(AsStringOr(shell, DefaultShell))
  }

  /** `node.size()`: a missing node throws, a scalar has size 0. */
  function Size(items: Ref): (r: Result<nat, YamlError>)
    ensures r.Failure? <==> items.Zombie?
  {
    match items
    case Zombie(k) => Failure(InvalidNode(k))
    case Defined(Scalar(_)) => Success(0)
    case Defined(Sequence(s)) => Success(|s|)
    case Defined(Mapping(m)) => Success(|m|)
  }

  /** `items[i]` for i below the size: the i-th element of a sequence; a
      mapping is looked up with the key written as the decimal number i. */
  function ItemAt(items: Node, i: nat): Ref
    requires !items.Scalar?
  {
    match items
    case Sequence(s) => if i < |s| then Defined(s[i]) else Zombie(Decimal(i))
    case Mapping(m) => if Decimal(i) in m then Defined(m[Decimal(i)]) else Zombie(Decimal(i))
  }

  /** The loop body for one item: its name, its template and target paths,
      each tilde-expanded right after it is read, and its optional hook. */
  function ReadItem(node: Ref, env: Env): (r: Attempt<Item>)
    ensures r.Value? ==> GetString(node, "name") == Success(r.value.name)
  {
    var name :- Rethrow(GetString(node, "name"));
    var template :- Rethrow(GetString(node, "template"));
    match TildeExpanded(template, env)
    case Failure(_) => Unexpected(TemplateNotExpanded(name))
    case Success(templatePath) =>
      var target :- Rethrow(GetString(node, "target"));
      match TildeExpanded(target, env)
      case Failure(_) => Unexpected(TargetNotExpanded(name))
      case Success(targetPath) =>
        var hook := AsStringOr(Lookup(node, "hook").value, "");
        Value(Item(name, templatePath, targetPath, hook))
  }

  /** The first `n` items, in order; the first failure wins. */
  function ReadItems(items: Node, n: nat, env: Env): (r: Attempt<seq<Item>>)
    requires !items.Scalar? || n == 0
    ensures r.Value? ==> |r.value| == n
    ensures r.Value? ==> forall i :: 0 <= i < n ==> ReadItem(ItemAt(items, i), env) == Value(r.value[i])
  {
    if n == 0 then Value([])
    else
      var prefix :- ReadItems(items, n - 1, env);
      var item :- ReadItem(ItemAt(items, n - 1), env);
      Value(prefix + [item])
  }

  /** What load_config_from_yaml_file computes from the document, before its
      catch clause. */
  function LoadedConfig(root: Node, env: Env): Attempt<Config> {
    var shell :- Rethrow(ShellSetting(root));
    if Generate.Find(shell, "{}").None? then Unexpected(MissingPlaceholder)
    else
      var yamlItems := Lookup(Defined(root), "items").value;
      var count :- Rethrow(Size(yamlItems));
      var items :- ReadItems(yamlItems.node, count, env);
      Value(Config(shell, items))
  }

  lemma {:induction false} ReadItemsFailureExtends(items: Node, k: nat, n: nat, env: Env)
    requires !items.Scalar? && k <= n && ReadItems(items, k, env).IsFailure()
    ensures ReadItems(items, n, env) == ReadItems(items, k, env)
    decreases n - k
  {
    if k < n {
      ReadItemsFailureExtends(items, k, n - 1, env);
    }
  }

  /** One item, as the loop body reads it: the paths are FsPath objects
      that ExpandTilda updates in place. */
  method LoadItem(yamlItem: Ref, env: Env) returns (r: Attempt<Item>)
    ensures r == ReadItem(yamlItem, env)
  {
    var name := GetString(yamlItem, "name");
    if name.Failure? { return Thrown(name.error); }
    var template := GetString(yamlItem, "template");
    if template.Failure? { return Thrown(template.error); }
    var templatePath := new FsPath(template.value);
    var rc := templatePath.ExpandTilda(env);
    if rc.Fail? {
      return Unexpected(TemplateNotExpanded(name.value));
    }
    var target := GetString(yamlItem, "target");
    if target.Failure? { return Thrown(target.error); }
    var targetPath := new FsPath(target.value);
    rc := targetPath.ExpandTilda(env);
    if rc.Fail? {
      return Unexpected(TargetNotExpanded(name.value));
    }
    var hook := AsStringOr(Lookup(yamlItem, "hook").value, "");
    return Value(Item(name.value, templatePath.native, targetPath.native, hook));
  }

  /** The item loop: `items_count` items, appended in index order. */
  method LoadItems(yamlItems: Node, itemsCount: nat, env: Env) returns (r: Attempt<seq<Item>>)
    requires !yamlItems.Scalar? || itemsCount == 0
    ensures r == ReadItems(yamlItems, itemsCount, env)
  {
    var items: seq<Item> := [];
    for i := 0 to itemsCount
      invariant ReadItems(yamlItems, i, env) == Value(items)
    {
      var item := LoadItem(ItemAt(yamlItems, i), env);
      if item.IsFailure() {
        ReadItemsFailureExtends(yamlItems, i + 1, itemsCount, env);
        return item.PropagateFailure();
      }
      items := items + [item.value];
    }
    return Value(items);
  }

  /** load_config_from_yaml_file without its catch clause. */
  method LoadConfig(yaml: Node, env: Env) returns (r: Attempt<Config>)
    ensures r == LoadedConfig(yaml, env)
  {
    var shell := ShellSetting(yaml);
    if shell.Failure? { return Thrown(shell.error); }
    if Generate.Find(shell.value, "{}").None? {
      return Unexpected(MissingPlaceholder);
    }
    var yamlItems := Lookup(Defined(yaml), "items").value;
    var itemsCount := Size(yamlItems);
    if itemsCount.Failure? { return Thrown(itemsCount.error); }
    var items := LoadItems(yamlItems.node, itemsCount.value, env);
    if items.IsFailure() { return items.PropagateFailure(); }
    return Value(Config(shell.value, items.value));
  }

  /** load_config_from_yaml_file: the document's loading (given as its
      outcome) and the reading, with every YAML exception turned into its
      message. */
  method LoadConfigFromYamlFile(loaded: Result<Node, YamlError>, env: Env) returns (r: Result<Config, string>)
    ensures loaded.Failure? ==> r == Failure(loaded.error.What())
    ensures loaded.Success? ==> match LoadedConfig(loaded.value, env)
      case Value(c) => r == Success(c)
      case Unexpected(m) => r == Failure(m)
      case Thrown(e) => r == Failure(e.What())
  {
    if loaded.Failure? {
      return Failure(loaded.error.What());
    }
    var c := LoadConfig(loaded.value, env);
    match c
    case Value(v) => r := Success(v);
    case Unexpected(m) => r := Failure(m);
    case Thrown(e) => r := Failure(e.What());
  }

  /** The shell default applies inside the config section only: a document
      without a config section throws InvalidNode for it. */
  lemma MissingConfigSectionThrows(root: Node, env: Env)
    requires root.Mapping? && "config" !in root.entries
    ensures LoadedConfig(root, env) == Thrown(InvalidNode("config"))
  {
    assert ShellSetting(root) == Failure(InvalidNode("config"));
  }

  /** A config section without a string shell gets the default, which holds
      the placeholder. */
  lemma ShellDefaults(root: Node)
    requires root.Mapping? && "config" in root.entries && !root.entries["config"].Scalar?
    requires var section := root.entries["config"];
      !(section.Mapping? && "shell" in section.entries && section.entries["shell"].Scalar?)
    ensures ShellSetting(root) == Success(DefaultShell)
    ensures Generate.Find(DefaultShell, "{}") == Some(12)
  {
    assert Generate.OccursAt(DefaultShell, "{}", 12);
    forall j | 0 <= j < 12
      ensures !Generate.OccursAt(DefaultShell, "{}", j)
    {
      assert DefaultShell[j] != '{';
    }
  }

  /** A shell string without "{}" is an error raised before the items are
      looked at, whatever they are (even missing). */
  lemma PlaceholderCheckedFirst(root: Node, env: Env)
    requires ShellSetting(root).Success?
    requires forall j :: !Generate.OccursAt(ShellSetting(root).value, "{}", j)
    ensures LoadedConfig(root, env) == Unexpected(MissingPlaceholder)
  {
  }

  /** The shell of a loaded configuration accepts every hook command. */
  lemma LoadedShellRunsHooks(root: Node, env: Env, command: string)
    requires LoadedConfig(root, env).Value?
    ensures Generate.MakeSystemExecCommand(LoadedConfig(root, env).value.shell, command).Success?
  {
    var shell := ShellSetting(root).value;
    var found := Generate.Find(shell, "{}");
    assert found.Some?;
    assert Generate.OccursAt(shell, Generate.Placeholder, found.value);
  }

  /** What one item holds: the name verbatim, the template and target
      tilde-expanded, and the hook or "" when there is none. */
  lemma ReadItemFields(node: Ref, env: Env)
    requires ReadItem(node, env).Value?
    ensures node.Defined? && node.node.Mapping?
    ensures var m := node.node.entries; var item := ReadItem(node, env).value;
      && (forall k :: k in ["name", "template", "target"] ==> k in m && m[k].Scalar?)
      && item.name == m["name"].text
      && TildeExpanded(m["template"].text, env) == Success(item.templatePath)
      && TildeExpanded(m["target"].text, env) == Success(item.targetPath)
      && item.hook == (if "hook" in m && m["hook"].Scalar? then m["hook"].text else "")
  {
  }

  /** A template path starting with "~/" while $HOME is unset stops the load
      with an error naming the item. */
  lemma UnexpandableTemplateNamed(node: Ref, env: Env)
    requires GetString(node, "name").Success? && GetString(node, "template").Success?
    requires StartsWith(GetString(node, "template").value, "~/") && "HOME" !in env
    ensures ReadItem(node, env) == Unexpected(TemplateNotExpanded(GetString(node, "name").value))
  {
  }

  /** The items are read in order and the first that fails decides the
      outcome: no later item is read and no partial list is returned. */
  lemma FirstFailingItemStops(items: Node, k: nat, n: nat, env: Env)
    requires !items.Scalar? && k < n
    requires ReadItems(items, k, env).Value? && ReadItem(ItemAt(items, k), env).IsFailure()
    ensures ReadItems(items, n, env) == ReadItem(ItemAt(items, k), env).PropagateFailure()
  {
    ReadItemsFailureExtends(items, k + 1, n, env);
  }

  /** A loaded configuration has exactly one item per element of the items
      sequence, in the same order, each read from its element. */
  lemma ItemsFollowSequence(root: Node, env: Env)
    requires LoadedConfig(root, env).Value?
    requires "items" in root.entries && root.entries["items"].Sequence?
    ensures var c := LoadedConfig(root, env).value; var elements := root.entries["items"].items;
      && |c.items| == |elements|
      && forall i :: 0 <= i < |elements| ==> ReadItem(Defined(elements[i]), env) == Value(c.items[i])
  {
    var elements := root.entries["items"].items;
    var items := ReadItems(root.entries["items"], |elements|, env).value;
    assert Lookup(Defined(root), "items").value == Defined(root.entries["items"]);
    assert LoadedConfig(root, env).value.items == items;
    forall i | 0 <= i < |elements|
      ensures ReadItem(Defined(elements[i]), env) == Value(items[i])
    {
      assert ItemAt(root.entries["items"], i) == Defined(elements[i]);
    }
  }

  /** A scalar (or null) items entry is a list of no items. */
  lemma ScalarItemsAreEmpty(root: Node, env: Env)
    requires ShellSetting(root).Success? && Generate.Find(ShellSetting(root).value, "{}").Some?
    requires "items" in root.entries && root.entries["items"].Scalar?
    ensures LoadedConfig(root, env) == Value(Config(ShellSetting(root).value, []))
  {
  }

  /** A missing items entry throws InvalidNode once the shell is accepted. */
  lemma MissingItemsThrow(root: Node, env: Env)
    requires ShellSetting(root).Success? && Generate.Find(ShellSetting(root).value, "{}").Some?
    requires "items" !in root.entries
    ensures LoadedConfig(root, env) == Thrown(InvalidNode("items"))
  {
  }
}
