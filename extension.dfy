/**
 * psbs/extension.py: an extension's tables of registered template methods,
 * filters and post-processing steps, its configuration defaulting, the
 * normalisation of the user-extension setting, and which extensions
 * contribute a configuration table.
 */
module Extensions {
  import opened Wrappers
  import opened Dict
  import opened Config

  /**
   * The configuration an extension keeps: exactly the keys of its own
   * defaults table `defaults` (its `get_config()`), each taken from `given`
   * unless `given` lacks it or holds `None` there.
   */
  function DefaultedConfig(defaults: Dict<string, Value>, given: Dict<string, Value>): (r: Dict<string, Value>)
    ensures r.keys == defaults.keys
    ensures forall k :: k in r.values <==> k in defaults.values
    ensures defaults.Valid() ==> r.Valid()
  {
    Dict(defaults.keys, map k | k in defaults.values ::
      if given.Get(k, NoneV) == NoneV then defaults.values[k] else given.values[k])
  }

  /** A setting the user left out or set to `None` gets its default; any other user value is kept as given. */
  lemma DefaultedValue(defaults: Dict<string, Value>, given: Dict<string, Value>, k: string)
    requires k in defaults.values
    ensures k !in given.values ==> DefaultedConfig(defaults, given).values[k] == defaults.values[k]
    ensures k in given.values && given.values[k] == NoneV ==> DefaultedConfig(defaults, given).values[k] == defaults.values[k]
    ensures k in given.values && given.values[k] != NoneV ==> DefaultedConfig(defaults, given).values[k] == given.values[k]
  {
  }

  /** Settings the user gives that the extension does not declare are dropped. */
  lemma ExtraSettingsDropped(defaults: Dict<string, Value>, given: Dict<string, Value>, k: string)
    requires defaults.Valid() && k in given.values && k !in defaults.values
    ensures k !in DefaultedConfig(defaults, given).values && k !in DefaultedConfig(defaults, given).keys
  {
  }

  /** `d.setdefault(name, f)`: a name already present keeps its value and its place. */
  function SetDefault<F>(d: Dict<string, F>, name: string, f: F): (r: Dict<string, F>)
    ensures d.Valid() ==> r.Valid()
  {
    if name in d.values then d else d.Put(name, f)
  }

  /** The table after registering `calls` in order, starting from an empty one. */
  function Registered<F>(calls: seq<(string, F)>): (r: Dict<string, F>)
    ensures r.Valid()
  {
    if calls == [] then Empty()
    else SetDefault(Registered(calls[..|calls| - 1]), calls[|calls| - 1].0, calls[|calls| - 1].1)
  }

  /**
   * The first function registered under a name is the one kept: later
   * registrations under that name are ignored.
   */
  lemma {:induction false} FirstRegistrationWins<F>(calls: seq<(string, F)>, i: nat)
    requires i < |calls|
    requires forall j :: 0 <= j < i ==> calls[j].0 != calls[i].0
    ensures calls[i].0 in Registered(calls).values
    ensures Registered(calls).values[calls[i].0] == calls[i].1
  {
    var init := calls[..|calls| - 1];
    if i < |calls| - 1 {
      assert init[i] == calls[i];
      FirstRegistrationWins(init, i);
    } else {
      RegisteredNames(init, calls[i].0);
    }
  }

  /** A name is in the table exactly when some call registered it. */
  lemma {:induction false} RegisteredNames<F>(calls: seq<(string, F)>, name: string)
    ensures name in Registered(calls).values <==> exists j :: 0 <= j < |calls| && calls[j].0 == name
  {
    if calls != [] {
      var init := calls[..|calls| - 1];
      RegisteredNames(init, name);
      assert forall j :: 0 <= j < |init| ==> calls[j] == init[j];
    }
  }

  /**
   * The state an extension instance keeps: its registered methods, filters
   * and post-processing steps, and its configuration. `F` stands for the registered Python callables, which are
   * only stored, never called here.
   */
  class Extension<F> {
    var methods: Dict<string, F>
    var filters: Dict<string, F>
    var post: seq<F>
    var config: Dict<string, Value>

    /**
     * `Extension(config)` for a class whose `get_config()` returns
     * `defaults`: every table starts empty and the configuration is defaulted.
     */
    constructor(defaults: Dict<string, Value>, given: Dict<string, Value>)
      ensures methods == Empty() && filters == Empty() && post == []
      ensures config == DefaultedConfig(defaults, given)
    {
      methods := Empty();
      filters := Empty();
      post := [];
      config := DefaultedConfig(defaults, given);
    }

    /** `register(name, function)`: the first method registered under a name wins. */
    method Register(name: string, f: F)
      modifies this`methods
      ensures methods == SetDefault(old(methods), name, f)
    {
      if name !in methods.values {
        methods := methods.Put(name, f);
      }
    }

    /** `register_filter(name, function)`: the first filter registered under a name wins. */
    method RegisterFilter(name: string, f: F)
      modifies this`filters
      ensures filters == SetDefault(old(filters), name, f)
    {
      if name !in filters.values {
        filters := filters.Put(name, f);
      }
    }

    /** `register_post(function)`: steps are kept in call order, duplicates included. */
    method RegisterPost(f: F)
      modifies this`post
      ensures post == old(post) + [f]
    {
      post := post + [f];
    }
  }

  /** `Extension.get_config()` of the base class: no settings. */
  function BaseConfig(): (r: Dict<string, Value>)
    ensures r.Valid() && r.keys == []
  {
    Empty()
  }

  /**
   * The list of user extension files `get_extensions` loads: a single
   * string stands for a one-element list, and `None` or any other non-list
   * value for no extensions.
   */
  function UserExtensionList(setting: Value): (r: seq<Value>)
    ensures setting.StrV? ==> r == [setting]
    ensures setting.ListV? ==> r == setting.items
    ensures !setting.StrV? && !setting.ListV? ==> r == []
  {
    match setting
    case StrV(_) => [setting]
    case ListV(items) => items
    case _ => []
  }

  /** The entry `get_extension_configs` writes for one class: only a non-empty table is recorded. */
  function ConfigEntry(ext: (string, Dict<string, Value>)): Option<(string, Value)> {
    if ext.1.values != map[] then Some((ext.0, DictV(ext.1))) else None
  }

  function ConfigEntries(exts: seq<(string, Dict<string, Value>)>): (r: seq<Option<(string, Value)>>)
    ensures |r| == |exts| && forall i :: 0 <= i < |exts| ==> r[i] == ConfigEntry(exts[i])
  {
    seq(|exts|, i requires 0 <= i < |exts| => ConfigEntry(exts[i]))
  }

  /**
   * `get_extension_configs`: `exts` lists the loaded extension classes, in
   * the order `get_extensions` returns them, as (class name, `get_config()`).
   */
  method GetExtensionConfigs(exts: seq<(string, Dict<string, Value>)>) returns (configs: Dict<string, Value>)
    ensures configs == FromEntries(ConfigEntries(exts))
  {
    configs := Empty();
    for i := 0 to |exts|
      invariant configs == FromEntries(ConfigEntries(exts[..i]))
    {
      var name, config := exts[i].0, exts[i].1;
      ConfigEntriesStep(exts, i, configs, name, config);
      if config.values != map[] {
        configs := configs.Put(name, DictV(config));
      }
    }
    assert exts[..|exts|] == exts;
  }

  /** One more class: its entry, if any, is added to the table built so far. */
  lemma ConfigEntriesStep(exts: seq<(string, Dict<string, Value>)>, i: nat, configs: Dict<string, Value>,
                          name: string, config: Dict<string, Value>)
    requires i < |exts| && exts[i] == (name, config)
    requires configs == FromEntries(ConfigEntries(exts[..i]))
    ensures FromEntries(ConfigEntries(exts[..i + 1])) ==
      if config.values != map[] then configs.Put(name, DictV(config)) else configs
  {
    var es := ConfigEntries(exts[..i + 1]);
    assert es[..i] == ConfigEntries(exts[..i]);
    assert es[i] == ConfigEntry((name, config));
    FromEntriesStep(es, i);
  }

  /**
   * A class name is a key of the result exactly when a class of that name
   * has a non-empty table, and it maps to the table of the last such class.
   */
  lemma ExtensionConfigsSelect(exts: seq<(string, Dict<string, Value>)>, name: string)
    ensures name in FromEntries(ConfigEntries(exts)).values <==>
      exists i :: 0 <= i < |exts| && exts[i].0 == name && exts[i].1.values != map[]
    ensures forall i ::
      (&& 0 <= i < |exts| && exts[i].0 == name && exts[i].1.values != map[]
       && forall j :: i < j < |exts| ==> exts[j].0 != name || exts[j].1.values == map[])
      ==> FromEntries(ConfigEntries(exts)).values[name] == DictV(exts[i].1)
  {
    var es := ConfigEntries(exts);
    FromEntriesLookup(es, name);
    if name in FromEntries(es).values {
      var i :| 0 <= i < |es| && es[i].Some? && es[i].value.0 == name;
      assert exts[i].0 == name && exts[i].1.values != map[];
    }
  }
}
