/**
 * psbs/config.py: the default settings table and the recursive,
 * type-preserving merge (`update_dict_values`) of a loaded YAML document
 * into it.
 */
module Config {
  import opened Wrappers
  import opened Dict

  /** A configuration value as the YAML loader produces it. */
  datatype Value =
    | NoneV
    | BoolV(b: bool)
    | IntV(i: int)
    | StrV(s: string)
    | ListV(items: seq<Value>)
    | DictV(d: Dict<string, Value>)

  /** Python's exact `type(v)`: `bool` and `int` are different types. */
  datatype Kind = NoneKind | BoolKind | IntKind | StrKind | ListKind | DictKind

  function KindOf(v: Value): Kind {
    match v
    case NoneV => NoneKind
    case BoolV(_) => BoolKind
    case IntV(_) => IntKind
    case StrV(_) => StrKind
    case ListV(_) => ListKind
    case DictV(_) => DictKind
  }

  /**
   * The value `update_dict[key]` holds after the two coercions: a string
   * given for a list setting becomes a one-element list, and `None` given
   * for a string setting becomes `""`.
   */
  function Coerced(default: Value, update: Value): (r: Value)
    ensures default.ListV? && update.StrV? ==> r == ListV([update])
    ensures default.StrV? && update.NoneV? ==> r == StrV("")
    ensures !(default.ListV? && update.StrV?) && !(default.StrV? && update.NoneV?) ==> r == update
  {
    var u := if default.ListV? && update.StrV? then ListV([update]) else update;
    if default.StrV? && u.NoneV? then StrV("") else u
  }

  /**
   * One key of `update_dict_values`: the new target value and the new update
   * value. Two dictionaries are merged recursively; otherwise the coerced
   * update replaces the default only when its exact type is the default's.
   */
  function MergeValue(default: Value, update: Value): (Value, Value)
    decreases default
  {
    if default.DictV? && update.DictV? then
      var (t, u) := MergeDict(default.d, update.d);
      (DictV(t), DictV(u))
    else
      var c := Coerced(default, update);
      (if KindOf(default) == KindOf(c) then c else default, c)
  }

  /**
   * `update_dict_values(target_dict, update_dict)` as a value: the target
   * and the update dictionary as they are after the call. Only keys of the
   * target are visited, so neither dictionary gains or loses a key.
   */
  function MergeDict(target: Dict<string, Value>, update: Dict<string, Value>): (Dict<string, Value>, Dict<string, Value>)
    decreases target
  {
    (Dict(target.keys, map k | k in target.values ::
       if k in update.values then MergeValue(target.values[k], update.values[k]).0 else target.values[k]),
     Dict(update.keys, map k | k in update.values ::
       if k in target.values then MergeValue(target.values[k], update.values[k]).1 else update.values[k]))
  }

  /** Every dictionary, at any depth, is a well-formed Python dict. */
  predicate WellFormed(d: Dict<string, Value>)
    decreases d
  {
    d.Valid() && forall k :: k in d.values ==> WellFormedValue(d.values[k])
  }

  predicate WellFormedValue(v: Value)
    decreases v
  {
    v.DictV? ==> WellFormed(v.d)
  }

  /**
   * The two dictionaries after the loop of `update_dict_values` has visited
   * the first `n` keys of the target.
   */
  function Visited(target: Dict<string, Value>, update: Dict<string, Value>, n: nat): (Dict<string, Value>, Dict<string, Value>)
    requires n <= |target.keys|
  {
    var done := target.keys[..n];
    (Dict(target.keys, map k | k in target.values ::
       if k in done && k in update.values then MergeValue(target.values[k], update.values[k]).0 else target.values[k]),
     Dict(update.keys, map k | k in update.values ::
       if k in done && k in target.values then MergeValue(target.values[k], update.values[k]).1 else update.values[k]))
  }

  /** The in-place recursion of `update_dict_values`, on values: it returns both dictionaries as the call leaves them. */
  method UpdateDictValues(target: Dict<string, Value>, update: Dict<string, Value>)
    returns (newTarget: Dict<string, Value>, newUpdate: Dict<string, Value>)
    requires WellFormed(target)
    ensures (newTarget, newUpdate) == MergeDict(target, update)
    decreases target, 1
  {
    newTarget, newUpdate := target, update;
    VisitedNone(target, update);
    for i := 0 to |target.keys|
      invariant (newTarget, newUpdate) == Visited(target, update, i)
    {
      var key := target.keys[i];
      var value := newTarget.values[key];
      VisitedStep(target, update, i);
      if key in newUpdate.values {
        var t, u := UpdateKey(value, newUpdate.values[key]);
        newUpdate := newUpdate.Put(key, u);
        newTarget := newTarget.Put(key, t);
      }
    }
    VisitedAll(target, update);
  }

  /** The body of the loop for one key present in both dictionaries. */
  method UpdateKey(value: Value, given: Value) returns (t: Value, u: Value)
    requires WellFormedValue(value)
    ensures (t, u) == MergeValue(value, given)
    decreases value, 0
  {
    if value.DictV? && given.DictV? {
      var td, ud := UpdateDictValues(value.d, given.d);
      t, u := DictV(td), DictV(ud);
    } else {
      u := given;
      if value.ListV? && u.StrV? {
        u := ListV([u]);
      }
      if value.StrV? && u.NoneV? {
        u := StrV("");
      }
      t := if KindOf(value) == KindOf(u) then u else value;
    }
  }

  lemma VisitedNone(target: Dict<string, Value>, update: Dict<string, Value>)
    ensures Visited(target, update, 0) == (target, update)
  {
    assert Visited(target, update, 0).0.values == target.values;
    assert Visited(target, update, 0).1.values == update.values;
  }

  lemma VisitedAll(target: Dict<string, Value>, update: Dict<string, Value>)
    requires target.Valid()
    ensures Visited(target, update, |target.keys|) == MergeDict(target, update)
  {
    assert target.keys[..|target.keys|] == target.keys;
    assert Visited(target, update, |target.keys|).0.values == MergeDict(target, update).0.values;
    assert Visited(target, update, |target.keys|).1.values == MergeDict(target, update).1.values;
  }

  /** Visiting key `i` rewrites that key alone, in both dictionaries, and only if the update has it. */
  lemma VisitedStep(target: Dict<string, Value>, update: Dict<string, Value>, i: nat)
    requires WellFormed(target) && i < |target.keys|
    ensures target.keys[i] in target.values && WellFormedValue(target.values[target.keys[i]])
    ensures Visited(target, update, i).0.values[target.keys[i]] == target.values[target.keys[i]]
    ensures target.keys[i] in update.values ==>
      Visited(target, update, i).1.values[target.keys[i]] == update.values[target.keys[i]]
    ensures target.keys[i] in update.values ==>
      var m := MergeValue(target.values[target.keys[i]], update.values[target.keys[i]]);
      Visited(target, update, i + 1) ==
        (Visited(target, update, i).0.Put(target.keys[i], m.0), Visited(target, update, i).1.Put(target.keys[i], m.1))
    ensures target.keys[i] !in update.values ==> Visited(target, update, i + 1) == Visited(target, update, i)
  {
    var key := target.keys[i];
    NextKey(target.keys, i);
    VisitedStepTarget(target, update, i);
    VisitedStepUpdate(target, update, i);
  }

  /** The keys visited after `i + 1` steps are those visited after `i`, and the new key was not among them. */
  lemma NextKey(keys: seq<string>, i: nat)
    requires i < |keys| && forall a, b :: 0 <= a < b < |keys| ==> keys[a] != keys[b]
    ensures keys[i] !in keys[..i]
    ensures forall k :: k in keys[..i + 1] <==> k in keys[..i] || k == keys[i]
  {
    assert keys[..i + 1] == keys[..i] + [keys[i]];
  }

  lemma VisitedStepTarget(target: Dict<string, Value>, update: Dict<string, Value>, i: nat)
    requires i < |target.keys| && target.keys[i] in target.values
    requires target.keys[i] !in target.keys[..i]
    requires forall k :: k in target.keys[..i + 1] <==> k in target.keys[..i] || k == target.keys[i]
    ensures Visited(target, update, i).0.values[target.keys[i]] == target.values[target.keys[i]]
    ensures target.keys[i] in update.values ==>
      Visited(target, update, i + 1).0 ==
        Visited(target, update, i).0.Put(target.keys[i], MergeValue(target.values[target.keys[i]], update.values[target.keys[i]]).0)
    ensures target.keys[i] !in update.values ==> Visited(target, update, i + 1).0 == Visited(target, update, i).0
  {
    var key := target.keys[i];
    var t := Visited(target, update, i).0;
    var t2 := Visited(target, update, i + 1).0;
    if key in update.values {
      assert t2.values == t.Put(key, MergeValue(target.values[key], update.values[key]).0).values;
    } else {
      assert t2.values == t.values;
    }
  }

  lemma VisitedStepUpdate(target: Dict<string, Value>, update: Dict<string, Value>, i: nat)
    requires i < |target.keys| && target.keys[i] in target.values
    requires target.keys[i] !in target.keys[..i]
    requires forall k :: k in target.keys[..i + 1] <==> k in target.keys[..i] || k == target.keys[i]
    ensures target.keys[i] in update.values ==>
      && Visited(target, update, i).1.values[target.keys[i]] == update.values[target.keys[i]]
      && Visited(target, update, i + 1).1 ==
           Visited(target, update, i).1.Put(target.keys[i], MergeValue(target.values[target.keys[i]], update.values[target.keys[i]]).1)
    ensures target.keys[i] !in update.values ==> Visited(target, update, i + 1).1 == Visited(target, update, i).1
  {
    var key := target.keys[i];
    var u := Visited(target, update, i).1;
    var u2 := Visited(target, update, i + 1).1;
    if key in update.values {
      assert u2.values == u.Put(key, MergeValue(target.values[key], update.values[key]).1).values;
    } else {
      assert u2.values == u.values;
    }
  }

  /** Two values have the same exact type, and two dictionaries the same keys with values of the same shape. */
  predicate SameShape(a: Value, b: Value)
    decreases a
  {
    && KindOf(a) == KindOf(b)
    && (a.DictV? ==>
          && a.d.keys == b.d.keys
          && a.d.values.Keys == b.d.values.Keys
          && forall k :: k in a.d.values && k in b.d.values ==> SameShape(a.d.values[k], b.d.values[k]))
  }

  lemma {:induction false} SameShapeReflexive(a: Value)
    ensures SameShape(a, a)
    decreases a
  {
    if a.DictV? {
      forall k | k in a.d.values
        ensures SameShape(a.d.values[k], a.d.values[k])
      {
        SameShapeReflexive(a.d.values[k]);
      }
    }
  }

  /**
   * The merge never changes a setting's type, at any depth: every setting
   * keeps its exact type, and every nested table keeps its keys, whatever the
   * loaded document holds.
   */
  lemma {:induction false} MergeKeepsShape(default: Value, update: Value)
    ensures SameShape(default, MergeValue(default, update).0)
    decreases default
  {
    if default.DictV? && update.DictV? {
      var t := MergeValue(default, update).0;
      assert t == DictV(MergeDict(default.d, update.d).0);
      forall k | k in default.d.values
        ensures k in t.d.values && SameShape(default.d.values[k], t.d.values[k])
      {
        if k in update.d.values {
          MergeKeepsShape(default.d.values[k], update.d.values[k]);
        } else {
          SameShapeReflexive(default.d.values[k]);
        }
      }
    } else if KindOf(default) != KindOf(Coerced(default, update)) {
      SameShapeReflexive(default);
    }
  }

  /** Keys that only the loaded document has are ignored, and no key of the defaults is lost. */
  lemma MergeKeepsKeys(target: Dict<string, Value>, update: Dict<string, Value>, k: string)
    ensures k in MergeDict(target, update).0.values <==> k in target.values
    ensures MergeDict(target, update).0.keys == target.keys
    ensures k in MergeDict(target, update).1.values <==> k in update.values
  {
  }

  /** A setting the document does not mention keeps its default. */
  lemma MergeUntouched(target: Dict<string, Value>, update: Dict<string, Value>, k: string)
    requires k in target.values && k !in update.values
    ensures MergeDict(target, update).0.values[k] == target.values[k]
  {
  }

  /** A list setting given as one string becomes the list holding that string, in both dictionaries. */
  lemma ListFromString(default: Value, s: string)
    requires default.ListV?
    ensures MergeValue(default, StrV(s)) == (ListV([StrV(s)]), ListV([StrV(s)]))
  {
  }

  /** A string setting given as `None` becomes the empty string, in both dictionaries. */
  lemma StringFromNone(default: Value)
    requires default.StrV?
    ensures MergeValue(default, NoneV) == (StrV(""), StrV(""))
  {
  }

  /**
   * Outside the two coercions and the dictionary case, a value of the
   * default's exact type replaces it and any other value is ignored (with a
   * warning), so `True` given for an integer setting keeps the integer.
   */
  lemma ExactTypeOrDefault(default: Value, update: Value)
    requires !(default.DictV? && update.DictV?)
    requires !(default.ListV? && update.StrV?) && !(default.StrV? && update.NoneV?)
    ensures KindOf(default) == KindOf(update) ==> MergeValue(default, update).0 == update
    ensures KindOf(default) != KindOf(update) ==> MergeValue(default, update).0 == default
    ensures MergeValue(default, update).1 == update
  {
  }

  /**
   * Merging is stable: merging the merged defaults with the rewritten
   * document changes neither of them.
   */
  lemma {:induction false} MergeStable(default: Value, update: Value)
    ensures MergeValue(MergeValue(default, update).0, MergeValue(default, update).1) == MergeValue(default, update)
    decreases default
  {
    if default.DictV? && update.DictV? {
      var (t, u) := MergeDict(default.d, update.d);
      var (t2, u2) := MergeDict(t, u);
      forall k | k in default.d.values && k in update.d.values
        ensures MergeValue(t.values[k], u.values[k]) == MergeValue(default.d.values[k], update.d.values[k])
      {
        MergeStable(default.d.values[k], update.d.values[k]);
      }
      assert t2.values == t.values;
      assert u2.values == u.values;
    }
  }

  /** The table `get_config` starts from, in its insertion order. */
  function Defaults(): (d: Dict<string, Value>)
    ensures WellFormed(d)
    ensures d.keys == ["gist_id", "engine", "template", "user_extensions"]
    ensures d.values["gist_id"] == StrV("") && d.values["user_extensions"] == ListV([])
  {
    Dict(["gist_id", "engine", "template", "user_extensions"],
         map["gist_id" := StrV(""),
             "engine" := StrV("https://www.puzzlescript.net/"),
             "template" := StrV("main.pss"),
             "user_extensions" := ListV([])])
  }

  /** `d.update(other)`: the keys of `other`, in its order, assigned one by one. */
  function Update(d: Dict<string, Value>, other: Dict<string, Value>, n: nat): (r: Dict<string, Value>)
    requires n <= |other.keys|
    requires forall k :: k in other.keys ==> k in other.values
    ensures d.Valid() ==> r.Valid()
    ensures WellFormed(d) && WellFormed(other) ==> WellFormed(r)
  {
    if n == 0 then d
    else Update(d, other, n - 1).Put(other.keys[n - 1], other.values[other.keys[n - 1]])
  }

  /** After `d.update(other)`, `d` holds the keys of both, and the values of `other` win. */
  lemma {:induction false} UpdateLookup(d: Dict<string, Value>, other: Dict<string, Value>, n: nat, k: string)
    requires other.Valid() && n <= |other.keys|
    ensures k in Update(d, other, n).values <==> k in d.values || k in other.keys[..n]
    ensures k in other.keys[..n] ==> Update(d, other, n).values[k] == other.values[k]
    ensures k !in other.keys[..n] && k in d.values ==> Update(d, other, n).values[k] == d.values[k]
  {
    if n > 0 {
      UpdateLookup(d, other, n - 1, k);
      assert other.keys[..n] == other.keys[..n - 1] + [other.keys[n - 1]];
    }
  }

  datatype ConfigError =
    /** The YAML document is not a mapping, so `config_dict.get` fails. */
    | NotAMapping

  /**
   * `get_config(config_file)`. Reading the file is not modelled: `loaded`
   * is what `read_yaml` returned for it, and `extensionConfigs(u)` is what
   * `Extension.get_extension_configs(u)` returns for the user-extension
   * setting `u` (the default argument being `""`). Without a file the
   * defaults table, extended by the built-in extensions' tables, is
   * returned as it is; with one, the loaded mapping is merged into the table
   * that the user extensions' tables extend further.
   */
  method GetConfig(configFile: Option<string>, loaded: Value, extensionConfigs: Value -> Dict<string, Value>)
    returns (r: Result<Dict<string, Value>, ConfigError>)
    requires forall u :: WellFormed(extensionConfigs(u))
    ensures configFile.None? || configFile == Some("") ==> r == Ok(WithExtensions(Defaults(), extensionConfigs(StrV(""))))
    ensures configFile.Some? && configFile != Some("") && !loaded.DictV? ==> r == Err(NotAMapping)
    ensures configFile.Some? && configFile != Some("") && loaded.DictV? ==>
      var user := extensionConfigs(loaded.d.Get("user_extensions", ListV([])));
      var table := WithExtensions(WithExtensions(Defaults(), extensionConfigs(StrV(""))), user);
      r == Ok(MergeDict(table, loaded.d).0)
    ensures r.Ok? ==> r.value.Valid()
  {
    var defaults := Defaults();
    defaults := WithExtensions(defaults, extensionConfigs(StrV("")));
    if configFile.None? || configFile == Some("") {
      return Ok(defaults);
    }
    if !loaded.DictV? {
      return Err(NotAMapping);
    }
    var configDict := loaded.d;
    var userExtensions := configDict.Get("user_extensions", ListV([]));
    defaults := WithExtensions(defaults, extensionConfigs(userExtensions));
    var newDefaults, _ := UpdateDictValues(defaults, configDict);
    r := Ok(newDefaults);
  }

  /** `defaults.update(configs)`. */
  function WithExtensions(defaults: Dict<string, Value>, configs: Dict<string, Value>): (r: Dict<string, Value>)
    requires WellFormed(configs)
    ensures defaults.Valid() ==> r.Valid()
    ensures WellFormed(defaults) ==> WellFormed(r)
  {
    Update(defaults, configs, |configs.keys|)
  }
}
