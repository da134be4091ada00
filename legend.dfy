/**
 * The LEGEND part of `PSParser.get_glyphs` (psbs/psparser.py): every line
 * of the form `key = values` is sorted into an aggregate (`a and b`), a
 * property (`a or b`) or a synonym; the synonym table then takes the
 * objects' own synonyms and names on top.
 */
module Legend {
  import opened Wrappers
  import opened Text
  import opened Dict
  import opened Patterns
  import opened Objects

  /** One legend definition, sorted by the literal tests on its values. */
  datatype Definition =
    | Aggregate(key: string, parts: seq<string>)
    | Property(key: string, parts: seq<string>)
    | Synonym(key: string, value: string)

  /**
   * `" and " in values` first, then `" or " in values`; both tests are
   * case sensitive, while the splits ignore case.
   */
  function Classify(key: string, values: string): (d: Definition)
    ensures d.key == key
    ensures d.Aggregate? <==> Contains(values, " and ")
    ensures d.Property? <==> !Contains(values, " and ") && Contains(values, " or ")
    ensures d.Synonym? ==> d.value == values
  {
    if Contains(values, " and ") then Aggregate(key, SplitConn(values, "and"))
    else if Contains(values, " or ") then Property(key, SplitConn(values, "or"))
    else Synonym(key, values)
  }

  /** The definition on one legend line, if the line matches the legend pattern. */
  function DefinitionOf(line: string): Option<Definition> {
    match LegendLine(line)
    case Some((k, v)) => Some(Classify(k, v))
    case None => None
  }

  function SynonymEntry(line: string): Option<(string, string)> {
    match DefinitionOf(line)
    case Some(Synonym(k, v)) => Some((k, v))
    case _ => None
  }

  function PropertyEntry(line: string): Option<(string, seq<string>)> {
    match DefinitionOf(line)
    case Some(Property(k, ps)) => Some((k, ps))
    case _ => None
  }

  function AggregateEntry(line: string): Option<(string, seq<string>)> {
    match DefinitionOf(line)
    case Some(Aggregate(k, ps)) => Some((k, ps))
    case _ => None
  }

  function SynonymEntries(lines: seq<string>): (es: seq<Option<(string, string)>>)
    ensures |es| == |lines| && forall i :: 0 <= i < |lines| ==> es[i] == SynonymEntry(lines[i])
  {
    if lines == [] then [] else SynonymEntries(lines[..|lines| - 1]) + [SynonymEntry(lines[|lines| - 1])]
  }

  function PropertyEntries(lines: seq<string>): (es: seq<Option<(string, seq<string>)>>)
    ensures |es| == |lines| && forall i :: 0 <= i < |lines| ==> es[i] == PropertyEntry(lines[i])
  {
    if lines == [] then [] else PropertyEntries(lines[..|lines| - 1]) + [PropertyEntry(lines[|lines| - 1])]
  }

  function AggregateEntries(lines: seq<string>): (es: seq<Option<(string, seq<string>)>>)
    ensures |es| == |lines| && forall i :: 0 <= i < |lines| ==> es[i] == AggregateEntry(lines[i])
  {
    if lines == [] then [] else AggregateEntries(lines[..|lines| - 1]) + [AggregateEntry(lines[|lines| - 1])]
  }

  /** The three tables the legend loop fills. */
  datatype Tables = Tables(
    synonyms: Dict<string, string>,
    properties: Dict<string, seq<string>>,
    aggregates: Dict<string, seq<string>>)

  /**
   * The tables after the given lines: each a valid dictionary, and each key
   * present only because some line defined it, with the value that line gave.
   */
  function TablesOf(lines: seq<string>): (t: Tables)
    ensures t.synonyms.Valid() && t.properties.Valid() && t.aggregates.Valid()
    ensures forall k :: k in t.synonyms.values ==>
      exists i :: 0 <= i < |lines| && SynonymEntry(lines[i]) == Some((k, t.synonyms.values[k]))
    ensures forall k :: k in t.properties.values ==>
      exists i :: 0 <= i < |lines| && PropertyEntry(lines[i]) == Some((k, t.properties.values[k]))
    ensures forall k :: k in t.aggregates.values ==>
      exists i :: 0 <= i < |lines| && AggregateEntry(lines[i]) == Some((k, t.aggregates.values[k]))
  {
    FromEntriesValues(SynonymEntries(lines));
    FromEntriesValues(PropertyEntries(lines));
    FromEntriesValues(AggregateEntries(lines));
    Tables(FromEntries(SynonymEntries(lines)), FromEntries(PropertyEntries(lines)), FromEntries(AggregateEntries(lines)))
  }

  /** What one line does to the tables. */
  function Step(t: Tables, line: string): Tables {
    match DefinitionOf(line)
    case None => t
    case Some(Aggregate(k, ps)) => t.(aggregates := t.aggregates.Put(k, ps))
    case Some(Property(k, ps)) => t.(properties := t.properties.Put(k, ps))
    case Some(Synonym(k, v)) => t.(synonyms := t.synonyms.Put(k, v))
  }

  lemma TablesStep(lines: seq<string>, i: nat)
    requires i < |lines|
    ensures TablesOf(lines[..i + 1]) == Step(TablesOf(lines[..i]), lines[i])
  {
    var p := lines[..i + 1];
    assert p[..i] == lines[..i];
    assert SynonymEntries(p) == SynonymEntries(lines[..i]) + [SynonymEntry(lines[i])];
    assert PropertyEntries(p) == PropertyEntries(lines[..i]) + [PropertyEntry(lines[i])];
    assert AggregateEntries(p) == AggregateEntries(lines[..i]) + [AggregateEntry(lines[i])];
  }

  /** The legend loop over the (already case-folded) legend text, one line at a time. */
  method ReadLegend(legend: string) returns (t: Tables)
    ensures t == TablesOf(Split(legend, '\n'))
  {
    var lines := Split(legend, '\n');
    var synonyms: Dict<string, string> := Empty();
    var properties: Dict<string, seq<string>> := Empty();
    var aggregates: Dict<string, seq<string>> := Empty();
    for i := 0 to |lines|
      invariant Tables(synonyms, properties, aggregates) == TablesOf(lines[..i])
    {
      TablesStep(lines, i);
      var m := LegendLine(lines[i]);
      if m.Some? {
        var (key, values) := m.value;
        if Contains(values, " and ") {
          aggregates := aggregates.Put(key, SplitConn(values, "and"));
        } else if Contains(values, " or ") {
          properties := properties.Put(key, SplitConn(values, "or"));
        } else {
          synonyms := synonyms.Put(key, values);
        }
      }
    }
    assert lines[..|lines|] == lines;
    t := Tables(synonyms, properties, aggregates);
  }

  /** A synonym defined by several lines keeps the definition of the last of them. */
  lemma LegendLastWins(lines: seq<string>, k: string)
    ensures k in TablesOf(lines).synonyms.values <==>
      exists i :: 0 <= i < |lines| && SynonymEntry(lines[i]).Some? && SynonymEntry(lines[i]).value.0 == k
    ensures forall i ::
      (0 <= i < |lines| && SynonymEntry(lines[i]).Some? && SynonymEntry(lines[i]).value.0 == k
       && forall j :: i < j < |lines| ==> SynonymEntry(lines[j]).None? || SynonymEntry(lines[j]).value.0 != k)
      ==> TablesOf(lines).synonyms.values[k] == SynonymEntry(lines[i]).value.1
  {
    FromEntriesLookup(SynonymEntries(lines), k);
  }

  /** A property defined by several lines keeps the definition of the last of them. */
  lemma PropertyLastWins(lines: seq<string>, k: string)
    ensures k in TablesOf(lines).properties.values <==>
      exists i :: 0 <= i < |lines| && PropertyEntry(lines[i]).Some? && PropertyEntry(lines[i]).value.0 == k
    ensures forall i ::
      (0 <= i < |lines| && PropertyEntry(lines[i]).Some? && PropertyEntry(lines[i]).value.0 == k
       && forall j :: i < j < |lines| ==> PropertyEntry(lines[j]).None? || PropertyEntry(lines[j]).value.0 != k)
      ==> TablesOf(lines).properties.values[k] == PropertyEntry(lines[i]).value.1
  {
    FromEntriesLookup(PropertyEntries(lines), k);
  }

  /** An aggregate defined by several lines keeps the definition of the last of them. */
  lemma AggregateLastWins(lines: seq<string>, k: string)
    ensures k in TablesOf(lines).aggregates.values <==>
      exists i :: 0 <= i < |lines| && AggregateEntry(lines[i]).Some? && AggregateEntry(lines[i]).value.0 == k
    ensures forall i ::
      (0 <= i < |lines| && AggregateEntry(lines[i]).Some? && AggregateEntry(lines[i]).value.0 == k
       && forall j :: i < j < |lines| ==> AggregateEntry(lines[j]).None? || AggregateEntry(lines[j]).value.0 != k)
      ==> TablesOf(lines).aggregates.values[k] == AggregateEntry(lines[i]).value.1
  {
    FromEntriesLookup(AggregateEntries(lines), k);
  }

  // ---------------------------------------------------------------------
  // The synonym table
  // ---------------------------------------------------------------------

  /** `(synonym, key)` for every synonym of every object, objects in table order. */
  function ObjectSynonymEntries(names: seq<string>, objs: Dict<string, Obj>): (es: seq<Option<(string, string)>>)
    requires forall i :: 0 <= i < |names| ==> names[i] in objs.values
    ensures forall i :: 0 <= i < |es| ==>
      es[i].Some? && es[i].value.1 in objs.values && es[i].value.0 in objs.values[es[i].value.1].synonyms
  {
    if names == [] then []
    else ObjectSynonymEntries(names[..|names| - 1], objs) + PairsWith(objs.values[names[|names| - 1]].synonyms, names[|names| - 1])
  }

  function PairsWith(syns: seq<string>, key: string): (es: seq<Option<(string, string)>>)
    ensures |es| == |syns| && forall i :: 0 <= i < |syns| ==> es[i] == Some((syns[i], key))
  {
    if syns == [] then [] else PairsWith(syns[..|syns| - 1], key) + [Some((syns[|syns| - 1], key))]
  }

  /** `(name, name)` for every object. */
  function ObjectNameEntries(names: seq<string>): (es: seq<Option<(string, string)>>)
    ensures |es| == |names| && forall i :: 0 <= i < |names| ==> es[i] == Some((names[i], names[i]))
  {
    if names == [] then [] else ObjectNameEntries(names[..|names| - 1]) + [Some((names[|names| - 1], names[|names| - 1]))]
  }

  /**
   * The legend's synonyms, then `update` with every object synonym mapped to
   * its object, then `update` with every object name mapped to itself.
   */
  function SynonymEntriesAll(lines: seq<string>, objs: Dict<string, Obj>): seq<Option<(string, string)>>
    requires objs.Valid()
  {
    SynonymEntries(lines) + ObjectSynonymEntries(objs.keys, objs) + ObjectNameEntries(objs.keys)
  }

  function SynonymTable(lines: seq<string>, objs: Dict<string, Obj>): (t: Dict<string, string>)
    requires objs.Valid()
    ensures t.Valid()
  {
    FromEntries(SynonymEntriesAll(lines, objs))
  }

  /** Every object name is a synonym of itself, whatever the legend or other objects say. */
  lemma ObjectNamesWin(lines: seq<string>, objs: Dict<string, Obj>, name: string)
    requires objs.Valid()
    requires name in objs.values
    ensures name in SynonymTable(lines, objs).values
    ensures SynonymTable(lines, objs).values[name] == name
  {
    var es := SynonymEntriesAll(lines, objs);
    var names := ObjectNameEntries(objs.keys);
    var front := SynonymEntries(lines) + ObjectSynonymEntries(objs.keys, objs);
    assert es == front + names;
    var j :| 0 <= j < |objs.keys| && objs.keys[j] == name;
    var i := |front| + j;
    assert es[i] == Some((name, name));
    forall l | i < l < |es|
      ensures es[l].None? || es[l].value.0 != name
    {
      assert es[l] == names[l - |front|];
      assert objs.keys[l - |front|] != objs.keys[j];
    }
    FromEntriesLookup(es, name);
  }

  /**
   * An object synonym that is no object's name maps to an object that
   * lists it, whatever the legend says.
   */
  lemma ObjectSynonymsOverride(lines: seq<string>, objs: Dict<string, Obj>, s: string, key: string)
    requires objs.Valid()
    requires s !in objs.values
    requires key in objs.values && s in objs.values[key].synonyms
    ensures s in SynonymTable(lines, objs).values
    ensures SynonymTable(lines, objs).values[s] in objs.values
    ensures s in objs.values[SynonymTable(lines, objs).values[s]].synonyms
  {
    var ls := SynonymEntries(lines);
    var os := ObjectSynonymEntries(objs.keys, objs);
    var ns := ObjectNameEntries(objs.keys);
    assert SynonymEntriesAll(lines, objs) == (ls + os) + ns;
    ObjectSynonymPresent(objs.keys, objs, key, s);
    FromEntriesUntouched(ls + os, ns, s);
    FromEntriesOverride(ls, os, s);
    FromEntriesValue(os, s);
  }

  /** A legend synonym that no object mentions keeps the legend's value. */
  lemma LegendSynonymKept(lines: seq<string>, objs: Dict<string, Obj>, s: string)
    requires objs.Valid()
    requires s !in objs.values
    requires forall k :: k in objs.values ==> s !in objs.values[k].synonyms
    ensures s in SynonymTable(lines, objs).values <==> s in TablesOf(lines).synonyms.values
    ensures s in TablesOf(lines).synonyms.values ==> SynonymTable(lines, objs).values[s] == TablesOf(lines).synonyms.values[s]
  {
    var ls := SynonymEntries(lines);
    var os := ObjectSynonymEntries(objs.keys, objs);
    var ns := ObjectNameEntries(objs.keys);
    assert SynonymEntriesAll(lines, objs) == (ls + os) + ns;
    FromEntriesUntouched(ls + os, ns, s);
    FromEntriesUntouched(ls, os, s);
  }

  lemma {:induction false} ObjectSynonymPresent(names: seq<string>, objs: Dict<string, Obj>, key: string, s: string)
    requires forall i :: 0 <= i < |names| ==> names[i] in objs.values
    requires key in names && key in objs.values && s in objs.values[key].synonyms
    ensures Assigns(ObjectSynonymEntries(names, objs), s)
  {
    var init := names[..|names| - 1];
    var last := names[|names| - 1];
    var es := ObjectSynonymEntries(names, objs);
    if last == key {
      var p := PairsWith(objs.values[key].synonyms, key);
      var m :| 0 <= m < |objs.values[key].synonyms| && objs.values[key].synonyms[m] == s;
      assert es == ObjectSynonymEntries(init, objs) + p;
      assert es[|ObjectSynonymEntries(init, objs)| + m] == Some((s, key));
    } else {
      assert key in init;
      ObjectSynonymPresent(init, objs, key, s);
      var l :| 0 <= l < |ObjectSynonymEntries(init, objs)| && ObjectSynonymEntries(init, objs)[l].Some? && ObjectSynonymEntries(init, objs)[l].value.0 == s;
      assert es[l] == ObjectSynonymEntries(init, objs)[l];
    }
  }

  // ---------------------------------------------------------------------
  // "Resolve synonyms"
  // ---------------------------------------------------------------------

  /**
   * `{synonym: synonyms.get(synonym, synonym) for synonym in synonyms}`
   * as written: it looks up the key itself, which is always present.
   */
  function ResolveSynonymsAsWritten(t: Dict<string, string>): (r: Dict<string, string>)
    requires t.Valid()
    ensures r.keys == t.keys
  {
    Dict(t.keys, map k | k in t.values :: t.Get(k, k))
  }

  /** As written the step maps every synonym to the value it already had. */
  lemma AsWrittenIsIdentity(t: Dict<string, string>)
    requires t.Valid()
    ensures ResolveSynonymsAsWritten(t) == t
  {
    assert ResolveSynonymsAsWritten(t).values == t.values;
  }

  /** The step the comment describes: each value looked up once more in the table. */
  function ResolveSynonyms(t: Dict<string, string>): (r: Dict<string, string>)
    requires t.Valid()
    ensures r.keys == t.keys && r.Valid()
    ensures forall k :: k in t.values ==> k in r.values && r.values[k] == t.Get(t.values[k], t.values[k])
  {
    Dict(t.keys, map k | k in t.values :: t.Get(t.values[k], t.values[k]))
  }

  /** One extra step: a synonym of a synonym reaches what the second one names. */
  lemma SynonymChainResolved(t: Dict<string, string>, a: string, b: string)
    requires t.Valid()
    requires a in t.values && t.values[a] == b && b in t.values
    ensures ResolveSynonyms(t).values[a] == t.values[b]
  {
  }

  /** The legend `q = p`, `p = player` over an object `player`: as written `q` still names `p`; resolved, `player`. */
  lemma ChainCounterexample()
    ensures var t := Dict(["q", "p", "player"], map["q" := "p", "p" := "player", "player" := "player"]);
      && t.Valid()
      && ResolveSynonymsAsWritten(t).values["q"] == "p"
      && ResolveSynonyms(t).values["q"] == "player"
  {
    var t := Dict(["q", "p", "player"], map["q" := "p", "p" := "player", "player" := "player"]);
    assert t.values.Keys == set k | k in t.keys;
  }
}
