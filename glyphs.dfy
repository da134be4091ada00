/**
 * `PSParser.get_glyphs` (psbs/psparser.py): every one-character synonym or
 * aggregate of the legend becomes a glyph whose value is a stack of object
 * sprites, background included, ordered by the collision layers.
 */
module Glyphs {
  import opened Wrappers
  import opened Text
  import opened Dict
  import opened Objects
  import Patterns
  import Legend
  import Resolve

  type Table = Dict<string, seq<string>>

  /**
   * Why `get_glyphs` gives no table: the object records fail, the legend
   * never settles (fuel ran out), a stacked object has no collision layer
   * (`ParseError`), or a stacked name is no object (`KeyError`).
   */
  datatype GlyphError =
    | ObjectsFailed(cause: ObjectsError)
    | Unresolved
    | MissingLayer(name: string)
    | UnknownObject(name: string)

  // ---------------------------------------------------------------------
  // The background object
  // ---------------------------------------------------------------------

  predicate IsBackground(name: string) {
    Lower(name) == "background"
  }

  /** The first object named "background" in any letter case, else "background" itself. */
  function BackgroundName(names: seq<string>): (b: string)
    ensures forall i ::
      (0 <= i < |names| && IsBackground(names[i]) && forall j :: 0 <= j < i ==> !IsBackground(names[j])) ==> b == names[i]
    ensures (forall i :: 0 <= i < |names| ==> !IsBackground(names[i])) ==> b == "background"
  {
    if names == [] then "background"
    else if IsBackground(names[0]) then names[0]
    else
      var b := BackgroundName(names[1..]);
      assert forall i :: 1 <= i < |names| ==> names[1..][i - 1] == names[i];
      b
  }

  // ---------------------------------------------------------------------
  // The collision order
  // ---------------------------------------------------------------------

  /** `[synonyms.get(x, x) for x in xs]`. */
  function Renamed(xs: seq<string>, syn: Dict<string, string>): (r: seq<string>)
    ensures |r| == |xs| && forall i :: 0 <= i < |xs| ==> r[i] == syn.Get(xs[i], xs[i])
  {
    if xs == [] then [] else Renamed(xs[..|xs| - 1], syn) + [syn.Get(xs[|xs| - 1], xs[|xs| - 1])]
  }

  /** The objects one collision-layer word stands for: a property's members, or the word itself. */
  function LayerObjects(word: string, props: Table, syn: Dict<string, string>): seq<string> {
    Renamed(props.Get(word, [word]), syn)
  }

  /** `collision_order`: the words of the layers section, each expanded, in order. */
  function CollisionOrder(words: seq<string>, props: Table, syn: Dict<string, string>): seq<string> {
    if words == [] then []
    else CollisionOrder(words[..|words| - 1], props, syn) + LayerObjects(words[|words| - 1], props, syn)
  }

  /** A name is in the collision order exactly when some layer word stands for it. */
  lemma {:induction false} CollisionOrderMembers(words: seq<string>, props: Table, syn: Dict<string, string>, x: string)
    ensures x in CollisionOrder(words, props, syn) <==>
      exists i :: 0 <= i < |words| && x in LayerObjects(words[i], props, syn)
  {
    if words != [] {
      var init := words[..|words| - 1];
      CollisionOrderMembers(init, props, syn, x);
      assert forall i :: 0 <= i < |init| ==> init[i] == words[i];
    }
  }

  // ---------------------------------------------------------------------
  // The glyph table
  // ---------------------------------------------------------------------

  /** What a synonym's own glyph starts as: the aggregate its object names, or that object alone. */
  function Stack(name: string, aggs: Table): seq<string> {
    aggs.Get(name, [name])
  }

  /** One entry per synonym: one-character synonyms get the stack of what they name. */
  function SynonymGlyphs(names: seq<string>, syn: Dict<string, string>, aggs: Table): (es: seq<Option<(string, seq<string>)>>)
    ensures |es| == |names|
    ensures forall i :: 0 <= i < |names| ==>
      es[i] == if |names[i]| == 1 then Some((names[i], Stack(syn.Get(names[i], names[i]), aggs))) else None
  {
    if names == [] then []
    else
      var s := names[|names| - 1];
      SynonymGlyphs(names[..|names| - 1], syn, aggs)
        + [if |s| == 1 then Some((s, Stack(syn.Get(s, s), aggs))) else None]
  }

  /** One entry per aggregate: one-character aggregates are glyphs of their own. */
  function AggregateGlyphs(names: seq<string>, aggs: Table): (es: seq<Option<(string, seq<string>)>>)
    ensures |es| == |names|
    ensures forall i :: 0 <= i < |names| ==>
      es[i] == if |names[i]| == 1 then Some((names[i], aggs.Get(names[i], []))) else None
  {
    if names == [] then []
    else
      var s := names[|names| - 1];
      AggregateGlyphs(names[..|names| - 1], aggs) + [if |s| == 1 then Some((s, aggs.Get(s, []))) else None]
  }

  /** `glyphs` built from the synonyms, then updated with the one-character aggregates. */
  function GlyphTable(syn: Dict<string, string>, aggs: Table): (g: Table)
    ensures g.Valid()
  {
    FromEntries(SynonymGlyphs(syn.keys, syn, aggs) + AggregateGlyphs(aggs.keys, aggs))
  }

  /**
   * The glyphs are the one-character synonyms and aggregates; an aggregate
   * wins over a synonym of the same name, and a synonym's glyph is the
   * stack of what it names.
   */
  lemma GlyphTableEntry(syn: Dict<string, string>, aggs: Table, g: string)
    ensures g in GlyphTable(syn, aggs).values <==> |g| == 1 && (g in syn.keys || g in aggs.keys)
    ensures |g| == 1 && g in aggs.keys ==> GlyphTable(syn, aggs).values[g] == aggs.Get(g, [])
    ensures |g| == 1 && g in syn.keys && g !in aggs.keys ==>
      GlyphTable(syn, aggs).values[g] == Stack(syn.Get(g, g), aggs)
  {
    var a := SynonymGlyphs(syn.keys, syn, aggs);
    var b := AggregateGlyphs(aggs.keys, aggs);
    if |g| == 1 && g in aggs.keys {
      var i :| 0 <= i < |aggs.keys| && aggs.keys[i] == g;
      assert b[i] == Some((g, aggs.Get(g, [])));
      FromEntriesOverride(a, b, g);
      FromEntriesValue(b, g);
    } else {
      assert !Assigns(b, g);
      FromEntriesUntouched(a, b, g);
      FromEntriesLookup(a, g);
      if |g| == 1 && g in syn.keys {
        var i :| 0 <= i < |syn.keys| && syn.keys[i] == g;
        assert a[i] == Some((g, Stack(syn.Get(g, g), aggs)));
        FromEntriesValue(a, g);
      }
    }
  }

  // ---------------------------------------------------------------------
  // One glyph's stack
  // ---------------------------------------------------------------------

  /** The background appended when the stack lacks it. */
  function WithBackground(names: seq<string>, bg: string): (r: seq<string>)
    ensures bg in r
    ensures multiset(r) == multiset(names) + if bg in names then multiset{} else multiset{bg}
  {
    if bg in names then names else names + [bg]
  }

  /** Every name has a position in the collision order. */
  predicate InOrder(xs: seq<string>, order: seq<string>) {
    forall i :: 0 <= i < |xs| ==> xs[i] in order
  }

  /** `list.index`: the first position of a name in the collision order. */
  function Rank(order: seq<string>, x: string): nat
    requires x in order
  {
    IndexOf(order, x)
  }

  /** The names appear with non-decreasing collision positions. */
  predicate SortedBy(xs: seq<string>, order: seq<string>)
    requires InOrder(xs, order)
  {
    forall i, j :: 0 <= i < j < |xs| ==> Rank(order, xs[i]) <= Rank(order, xs[j])
  }

  /** The first name without a collision position, found in list order as `sort` computes its keys. */
  function Missing(xs: seq<string>, order: seq<string>): (r: Option<string>)
    ensures r.None? <==> InOrder(xs, order)
    ensures r.Some? ==> exists i ::
      0 <= i < |xs| && xs[i] == r.value && r.value !in order && forall j :: 0 <= j < i ==> xs[j] in order
  {
    if xs == [] then None
    else
      var init := xs[..|xs| - 1];
      assert forall j :: 0 <= j < |init| ==> init[j] == xs[j];
      match Missing(init, order)
      case Some(x) => Some(x)
      case None => if xs[|xs| - 1] in order then None else Some(xs[|xs| - 1])
  }

  /** One name put after every name whose position is not greater than its own. */
  function Insert(x: string, s: seq<string>, order: seq<string>): (r: seq<string>)
    requires x in order && InOrder(s, order)
    ensures |r| == |s| + 1 && multiset(r) == multiset(s) + multiset{x} && InOrder(r, order)
  {
    if s == [] || Rank(order, s[|s| - 1]) <= Rank(order, x) then s + [x]
    else
      var init := s[..|s| - 1];
      assert s == init + [s[|s| - 1]];
      Insert(x, init, order) + [s[|s| - 1]]
  }

  /** `list.sort(key=collision_order.index)`, a stable sort. */
  function SortByRank(xs: seq<string>, order: seq<string>): (r: seq<string>)
    requires InOrder(xs, order)
    ensures |r| == |xs| && multiset(r) == multiset(xs) && InOrder(r, order)
  {
    if xs == [] then []
    else
      var init := xs[..|xs| - 1];
      assert xs == init + [xs[|xs| - 1]];
      Insert(xs[|xs| - 1], SortByRank(init, order), order)
  }

  /** A name ranked no lower than every name of a sorted stack can go last. */
  lemma AppendSorted(s: seq<string>, y: string, order: seq<string>)
    requires InOrder(s, order) && SortedBy(s, order) && y in order
    requires forall z :: z in s ==> Rank(order, z) <= Rank(order, y)
    ensures InOrder(s + [y], order) && SortedBy(s + [y], order)
  {
    var r := s + [y];
    assert InOrder(r, order);
    forall i, j | 0 <= i < j < |r|
      ensures Rank(order, r[i]) <= Rank(order, r[j])
    {
      if j == |s| {
        assert r[i] == s[i] && s[i] in s;
      } else {
        assert r[i] == s[i] && r[j] == s[j];
      }
    }
  }

  lemma {:induction false} InsertSorted(x: string, s: seq<string>, order: seq<string>)
    requires x in order && InOrder(s, order) && SortedBy(s, order)
    ensures SortedBy(Insert(x, s, order), order)
  {
    if s == [] {
      AppendSorted(s, x, order);
    } else {
      var init := s[..|s| - 1];
      var last := s[|s| - 1];
      if Rank(order, last) <= Rank(order, x) {
        forall z | z in s
          ensures Rank(order, z) <= Rank(order, x)
        {
          var k :| 0 <= k < |s| && s[k] == z;
        }
        AppendSorted(s, x, order);
      } else {
        assert InOrder(init, order) && SortedBy(init, order);
        InsertSorted(x, init, order);
        var r := Insert(x, init, order);
        forall y | y in r
          ensures Rank(order, y) <= Rank(order, last)
        {
          assert y in multiset(r);
          if y != x {
            assert y in multiset(init);
            var k :| 0 <= k < |init| && init[k] == y;
            assert s[k] == y;
          }
        }
        AppendSorted(r, last, order);
      }
    }
  }

  /** The sorted stack is in collision order. */
  lemma {:induction false} SortSorted(xs: seq<string>, order: seq<string>)
    requires InOrder(xs, order)
    ensures SortedBy(SortByRank(xs, order), order)
  {
    if xs != [] {
      var init := xs[..|xs| - 1];
      assert InOrder(init, order);
      SortSorted(init, order);
      InsertSorted(xs[|xs| - 1], SortByRank(init, order), order);
    }
  }

  /** Sorting a stack already in collision order changes nothing. */
  lemma {:induction false} SortOfSorted(xs: seq<string>, order: seq<string>)
    requires InOrder(xs, order) && SortedBy(xs, order)
    ensures SortByRank(xs, order) == xs
  {
    if xs != [] {
      var init, last := xs[..|xs| - 1], xs[|xs| - 1];
      SortedPrefix(xs, order);
      SortOfSorted(init, order);
      InsertAtEnd(last, init, order);
      assert SortByRank(xs, order) == Insert(last, SortByRank(init, order), order);
    }
  }

  /** Dropping the last name keeps a stack in collision order, and the dropped name ranks no lower than the rest. */
  lemma SortedPrefix(xs: seq<string>, order: seq<string>)
    requires xs != [] && InOrder(xs, order) && SortedBy(xs, order)
    ensures InOrder(xs[..|xs| - 1], order) && SortedBy(xs[..|xs| - 1], order)
    ensures xs[|xs| - 1] in order
    ensures |xs| > 1 ==> Rank(order, xs[..|xs| - 1][|xs| - 2]) <= Rank(order, xs[|xs| - 1])
  {
    var init := xs[..|xs| - 1];
    assert forall i :: 0 <= i < |init| ==> init[i] == xs[i];
  }

  /** A name ranked no lower than the last one is inserted at the end. */
  lemma InsertAtEnd(x: string, s: seq<string>, order: seq<string>)
    requires x in order && InOrder(s, order)
    requires s != [] ==> Rank(order, s[|s| - 1]) <= Rank(order, x)
    ensures Insert(x, s, order) == s + [x]
  {
  }

  /** A stack member's sprite text: colours and body on separate lines, stripped. */
  function Layer(o: Obj): string {
    Strip(o.colors + "\n" + o.body)
  }

  /** The sprite of every stacked name; the first name that is no object raises `KeyError`. */
  function Layers(names: seq<string>, objs: Dict<string, Obj>): (r: Result<seq<string>, GlyphError>)
    ensures r.Ok? <==> forall i :: 0 <= i < |names| ==> names[i] in objs.values
    ensures r.Ok? ==> |r.value| == |names| && forall i :: 0 <= i < |names| ==> r.value[i] == Layer(objs.values[names[i]])
    ensures r.Err? ==> r.error.UnknownObject?
    ensures r.Err? ==> exists i ::
      0 <= i < |names| && names[i] == r.error.name && names[i] !in objs.values && forall j :: 0 <= j < i ==> names[j] in objs.values
  {
    if names == [] then Ok([])
    else
      var init := names[..|names| - 1];
      var last := names[|names| - 1];
      assert forall j :: 0 <= j < |init| ==> init[j] == names[j];
      match Layers(init, objs)
      case Err(e) => Err(e)
      case Ok(ls) => if last in objs.values then Ok(ls + [Layer(objs.values[last])]) else Err(UnknownObject(last))
  }

  /** The stack with the background added, sorted by collision order. */
  function Prepared(names: seq<string>, bg: string, order: seq<string>): seq<string>
    requires InOrder(WithBackground(names, bg), order)
  {
    SortByRank(WithBackground(names, bg), order)
  }

  /** The body of the glyph loop for one glyph. */
  function GlyphLayers(names: seq<string>, bg: string, order: seq<string>, objs: Dict<string, Obj>): Result<seq<string>, GlyphError> {
    var full := WithBackground(names, bg);
    match Missing(full, order)
    case Some(x) => Err(MissingLayer(x))
    case None => Layers(Prepared(names, bg, order), objs)
  }

  /** A stacked name, background included, without a collision layer is an error and never skipped. */
  lemma MissingRaised(names: seq<string>, bg: string, order: seq<string>, objs: Dict<string, Obj>)
    ensures GlyphLayers(names, bg, order, objs).Err? && GlyphLayers(names, bg, order, objs).error.MissingLayer?
      <==> exists x :: x in WithBackground(names, bg) && x !in order
    ensures bg !in order ==> GlyphLayers(names, bg, order, objs) == Err(MissingLayer(Missing(WithBackground(names, bg), order).value))
  {
  }

  /**
   * A finished glyph: the given names plus the background, each once more
   * than before and nothing else, in collision order, each as its sprite.
   */
  lemma GlyphStack(names: seq<string>, bg: string, order: seq<string>, objs: Dict<string, Obj>)
    requires GlyphLayers(names, bg, order, objs).Ok?
    ensures InOrder(WithBackground(names, bg), order)
    ensures var s := Prepared(names, bg, order);
      var ls := GlyphLayers(names, bg, order, objs).value;
      && SortedBy(s, order)
      && multiset(s) == multiset(names) + (if bg in names then multiset{} else multiset{bg})
      && |ls| == |s|
      && (forall i :: 0 <= i < |s| ==> s[i] in objs.values && ls[i] == Layer(objs.values[s[i]]))
  {
    SortSorted(WithBackground(names, bg), order);
  }

  /** Every finished glyph shows the background sprite. */
  lemma BackgroundShown(names: seq<string>, bg: string, order: seq<string>, objs: Dict<string, Obj>)
    requires GlyphLayers(names, bg, order, objs).Ok?
    ensures bg in objs.values && Layer(objs.values[bg]) in GlyphLayers(names, bg, order, objs).value
  {
    var s := Prepared(names, bg, order);
    assert bg in multiset(s);
    var i :| 0 <= i < |s| && s[i] == bg;
    assert GlyphLayers(names, bg, order, objs).value[i] == Layer(objs.values[bg]);
  }

  /**
   * Glyphs that share one list in Python see it already prepared by the
   * first of them; preparing it again gives the same stack, so the shared
   * list yields the same sprites as a copy would.
   */
  lemma SharedListHarmless(names: seq<string>, bg: string, order: seq<string>)
    requires InOrder(WithBackground(names, bg), order)
    ensures var s := Prepared(names, bg, order);
      WithBackground(s, bg) == s && InOrder(s, order) && Prepared(s, bg, order) == s
  {
    var s := Prepared(names, bg, order);
    assert bg in multiset(s);
    SortSorted(WithBackground(names, bg), order);
    SortOfSorted(s, order);
  }

  // ---------------------------------------------------------------------
  // The glyph loop
  // ---------------------------------------------------------------------

  /** What the loop does to one glyph's list. */
  type Step = seq<string> -> Result<seq<string>, GlyphError>

  /** The body of the glyph loop, for the background and collision order at hand. */
  function StackStep(bg: string, order: seq<string>, objs: Dict<string, Obj>): Step {
    names => GlyphLayers(names, bg, order, objs)
  }

  /**
   * The loop over the glyphs named `ks`, in order, each replaced by its
   * sprites; the first glyph that fails stops the loop with its error.
   */
  function BuildGlyphs(table: Table, ks: seq<string>, step: Step): Result<Table, GlyphError> {
    if ks == [] then Ok(table)
    else
      match BuildGlyphs(table, ks[..|ks| - 1], step)
      case Err(e) => Err(e)
      case Ok(t) =>
        var k := ks[|ks| - 1];
        match step(table.Get(k, []))
        case Err(e) => Err(e)
        case Ok(ls) => Ok(t.Put(k, ls))
  }

  /** The loop succeeds exactly when every glyph does. */
  lemma {:induction false} BuildGlyphsOk(table: Table, ks: seq<string>, step: Step)
    ensures BuildGlyphs(table, ks, step).Ok? <==> forall i :: 0 <= i < |ks| ==> step(table.Get(ks[i], [])).Ok?
  {
    if ks != [] {
      var init := ks[..|ks| - 1];
      BuildGlyphsOk(table, init, step);
      assert forall j :: 0 <= j < |init| ==> init[j] == ks[j];
    }
  }

  /** A failed loop fails with the error of the first glyph whose step fails. */
  lemma {:induction false} BuildGlyphsError(table: Table, ks: seq<string>, step: Step)
    requires BuildGlyphs(table, ks, step).Err?
    ensures exists i ::
      && 0 <= i < |ks|
      && step(table.Get(ks[i], [])) == Err(BuildGlyphs(table, ks, step).error)
      && forall j :: 0 <= j < i ==> step(table.Get(ks[j], [])).Ok?
  {
    var init := ks[..|ks| - 1];
    var prev := BuildGlyphs(table, init, step);
    if prev.Err? {
      BuildGlyphsError(table, init, step);
      var i :| 0 <= i < |init| && step(table.Get(init[i], [])) == Err(prev.error)
        && forall j :: 0 <= j < i ==> step(table.Get(init[j], [])).Ok?;
      assert forall j :: 0 <= j <= i ==> init[j] == ks[j];
    } else {
      BuildGlyphsOk(table, init, step);
      assert forall j :: 0 <= j < |init| ==> init[j] == ks[j];
      assert step(table.Get(ks[|init|], [])) == Err(BuildGlyphs(table, ks, step).error);
    }
  }

  /** A successful loop keeps the glyphs, in their order. */
  lemma {:induction false} BuildGlyphsKeys(table: Table, ks: seq<string>, step: Step)
    requires forall i :: 0 <= i < |ks| ==> ks[i] in table.values
    requires BuildGlyphs(table, ks, step).Ok?
    ensures BuildGlyphs(table, ks, step).value.keys == table.keys
    ensures BuildGlyphs(table, ks, step).value.values.Keys == table.values.Keys
  {
    if ks != [] {
      var init := ks[..|ks| - 1];
      assert forall j :: 0 <= j < |init| ==> init[j] == ks[j];
      BuildGlyphsKeys(table, init, step);
    }
  }

  /** A glyph the loop has not visited still holds its first list. */
  lemma {:induction false} BuildGlyphsOthers(table: Table, ks: seq<string>, step: Step, k: string)
    requires BuildGlyphs(table, ks, step).Ok? && k !in ks
    ensures BuildGlyphs(table, ks, step).value.Get(k, []) == table.Get(k, [])
  {
    if ks != [] {
      BuildGlyphsOthers(table, ks[..|ks| - 1], step, k);
    }
  }

  /** After a successful loop every visited glyph holds what the step made of its first list. */
  lemma {:induction false} BuildGlyphsVisited(table: Table, ks: seq<string>, step: Step)
    requires Resolve.Distinct(ks)
    requires BuildGlyphs(table, ks, step).Ok?
    ensures forall i :: 0 <= i < |ks| ==>
      ks[i] in BuildGlyphs(table, ks, step).value.values
      && step(table.Get(ks[i], [])) == Ok(BuildGlyphs(table, ks, step).value.values[ks[i]])
  {
    if ks != [] {
      var init := ks[..|ks| - 1];
      var k := ks[|ks| - 1];
      BuildGlyphsVisited(table, init, step);
      var t := BuildGlyphs(table, init, step).value;
      var u := BuildGlyphs(table, ks, step).value;
      assert u == t.Put(k, step(table.Get(k, [])).value);
      forall i | 0 <= i < |ks|
        ensures ks[i] in u.values && step(table.Get(ks[i], [])) == Ok(u.values[ks[i]])
      {
        if i < |init| {
          assert ks[i] == init[i] && ks[i] != k;
        }
      }
    }
  }

  /** An error stops the loop: a failing prefix fails the whole with the same error. */
  lemma {:induction false} BuildGlyphsStops(table: Table, ks: seq<string>, step: Step, n: nat)
    requires n <= |ks|
    requires BuildGlyphs(table, ks[..n], step).Err?
    ensures BuildGlyphs(table, ks, step) == BuildGlyphs(table, ks[..n], step)
    decreases |ks| - n
  {
    if n < |ks| {
      assert ks[..n + 1][..n] == ks[..n];
      BuildGlyphsStops(table, ks, step, n + 1);
    } else {
      assert ks[..n] == ks;
    }
  }

  // ---------------------------------------------------------------------
  // The whole of get_glyphs, once the objects are known
  // ---------------------------------------------------------------------

  /** The text as read: lower-cased unless `case_sensitive` is set. */
  function Folded(text: string, caseSensitive: bool): string {
    if caseSensitive then text else Lower(text)
  }

  /**
   * The synonym table of a legend over the given objects after the source's
   * "resolve synonyms" comprehension, which leaves every entry as it was.
   */
  function SynonymsOf(lines: seq<string>, objs: Dict<string, Obj>): (syn: Dict<string, string>)
    requires objs.Valid()
    ensures syn.Valid()
    ensures syn == Legend.SynonymTable(lines, objs)
  {
    var t := Legend.SynonymTable(lines, objs);
    Legend.AsWrittenIsIdentity(t);
    Legend.ResolveSynonymsAsWritten(t)
  }

  /**
   * `get_glyphs` over the objects, the cleaned legend and collision-layer
   * sections, with `fuel` passes allowed to each table resolution.
   */
  function GlyphsOf(objs: Dict<string, Obj>, legend: string, collisions: string, caseSensitive: bool, fuel: nat): (r: Result<Table, GlyphError>)
    requires objs.Valid()
    ensures r.Ok? ==> r.value.Valid()
  {
    var bg := BackgroundName(objs.keys);
    var lines := Split(Folded(legend, caseSensitive), '\n');
    var tables := Legend.TablesOf(lines);
    var syn := SynonymsOf(lines, objs);
    match Resolve.ResolveTable(tables.properties, syn, fuel)
    case None => Err(Unresolved)
    case Some(props) =>
      match Resolve.ResolveTable(tables.aggregates, syn, fuel)
      case None => Err(Unresolved)
      case Some(aggs) =>
        var glyphs := GlyphTable(syn, aggs);
        var order := CollisionOrder(Patterns.SplitLayers(Folded(collisions, caseSensitive)), props, syn);
        BuildGlyphsValid(glyphs, StackStep(bg, order, objs));
        BuildGlyphs(glyphs, glyphs.keys, StackStep(bg, order, objs))
  }

  /** A successful loop over a valid table gives a valid table. */
  lemma BuildGlyphsValid(table: Table, step: Step)
    requires table.Valid()
    ensures BuildGlyphs(table, table.keys, step).Ok? ==> BuildGlyphs(table, table.keys, step).value.Valid()
  {
    if BuildGlyphs(table, table.keys, step).Ok? {
      assert forall i :: 0 <= i < |table.keys| ==> table.keys[i] in table.values by {
        forall i | 0 <= i < |table.keys| ensures table.keys[i] in table.values {
          assert table.keys[i] in set x | x in table.keys;
        }
      }
      BuildGlyphsKeys(table, table.keys, step);
    }
  }

  /** Every glyph `get_glyphs` returns shows the background object's sprite among its layers. */
  lemma EveryGlyphShowsBackground(objs: Dict<string, Obj>, legend: string, collisions: string, caseSensitive: bool, fuel: nat)
    requires objs.Valid()
    requires GlyphsOf(objs, legend, collisions, caseSensitive, fuel).Ok?
    ensures var g := GlyphsOf(objs, legend, collisions, caseSensitive, fuel).value;
      var bg := BackgroundName(objs.keys);
      forall k :: k in g.values ==> bg in objs.values && Layer(objs.values[bg]) in g.values[k]
  {
    var bg := BackgroundName(objs.keys);
    var lines := Split(Folded(legend, caseSensitive), '\n');
    var tables := Legend.TablesOf(lines);
    var syn := SynonymsOf(lines, objs);
    var props := Resolve.ResolveTable(tables.properties, syn, fuel).value;
    var aggs := Resolve.ResolveTable(tables.aggregates, syn, fuel).value;
    var glyphs := GlyphTable(syn, aggs);
    var order := CollisionOrder(Patterns.SplitLayers(Folded(collisions, caseSensitive)), props, syn);
    var step := StackStep(bg, order, objs);
    var g := GlyphsOf(objs, legend, collisions, caseSensitive, fuel).value;
    assert BuildGlyphs(glyphs, glyphs.keys, step) == Ok(g);
    Resolve.ValidOrdered(glyphs);
    assert forall k :: k in glyphs.values ==> k in glyphs.keys by {
      forall k | k in glyphs.values ensures k in glyphs.keys {
        assert k in set x | x in glyphs.keys;
      }
    }
    BuildGlyphsProduced(glyphs, step);
    forall k | k in g.values
      ensures bg in objs.values && Layer(objs.values[bg]) in g.values[k]
    {
      var names :| step(names) == Ok(g.values[k]);
      BackgroundShown(names, bg, order, objs);
    }
  }

  /** Every list a successful loop leaves in the table is the result of the step on some list. */
  lemma BuildGlyphsProduced(glyphs: Table, step: Step)
    requires Resolve.Ordered(glyphs)
    requires forall k :: k in glyphs.values ==> k in glyphs.keys
    requires BuildGlyphs(glyphs, glyphs.keys, step).Ok?
    ensures var g := BuildGlyphs(glyphs, glyphs.keys, step).value;
      forall k :: k in g.values ==> exists names :: step(names) == Ok(g.values[k])
  {
    var g := BuildGlyphs(glyphs, glyphs.keys, step).value;
    BuildGlyphsKeys(glyphs, glyphs.keys, step);
    BuildGlyphsVisited(glyphs, glyphs.keys, step);
    forall k | k in g.values
      ensures exists names :: step(names) == Ok(g.values[k])
    {
      var i :| 0 <= i < |glyphs.keys| && glyphs.keys[i] == k;
      assert step(glyphs.Get(k, [])) == Ok(g.values[k]);
    }
  }

  /** The glyph loop, rewriting the glyph table it reads. */
  method StackGlyphs(glyphs: Table, bg: string, order: seq<string>, objs: Dict<string, Obj>) returns (r: Result<Table, GlyphError>)
    requires Resolve.Distinct(glyphs.keys)
    ensures r == BuildGlyphs(glyphs, glyphs.keys, StackStep(bg, order, objs))
  {
    var ks := glyphs.keys;
    var step := StackStep(bg, order, objs);
    var out := glyphs;
    for n := 0 to |ks|
      invariant BuildGlyphs(glyphs, ks[..n], step) == Ok(out)
    {
      var k := ks[n];
      BuildGlyphsNext(glyphs, ks, step, n, out);
      var layers := step(out.Get(k, []));
      if layers.Err? {
        return Err(layers.error);
      }
      out := out.Put(k, layers.value);
    }
    assert ks[..|ks|] == ks;
    r := Ok(out);
  }

  /** One turn of the glyph loop: the glyph at `n` still holds its first list, and its step decides the rest. */
  lemma BuildGlyphsNext(table: Table, ks: seq<string>, step: Step, n: nat, out: Table)
    requires Resolve.Distinct(ks) && n < |ks|
    requires BuildGlyphs(table, ks[..n], step) == Ok(out)
    ensures out.Get(ks[n], []) == table.Get(ks[n], [])
    ensures step(table.Get(ks[n], [])).Ok? ==>
      BuildGlyphs(table, ks[..n + 1], step) == Ok(out.Put(ks[n], step(table.Get(ks[n], [])).value))
    ensures step(table.Get(ks[n], [])).Err? ==>
      BuildGlyphs(table, ks, step) == Err(step(table.Get(ks[n], [])).error)
  {
    DistinctAt(ks, n);
    BuildGlyphsOthers(table, ks[..n], step, ks[n]);
    assert ks[..n + 1][..n] == ks[..n];
    if step(table.Get(ks[n], [])).Err? {
      BuildGlyphsStops(table, ks, step, n + 1);
    }
  }

  /** No key of a distinct sequence occurs before its own position. */
  lemma {:induction false} DistinctAt(ks: seq<string>, n: nat)
    requires Resolve.Distinct(ks) && n < |ks|
    ensures ks[n] !in ks[..n]
  {
    var init := ks[..|ks| - 1];
    if n < |init| {
      DistinctAt(init, n);
      assert init[..n] == ks[..n];
    } else {
      assert ks[..n] == init;
    }
  }

  /** `get_glyphs`, step by step as the source takes it. */
  method GetGlyphs(objs: Dict<string, Obj>, legend: string, collisions: string, caseSensitive: bool, fuel: nat)
    returns (r: Result<Table, GlyphError>)
    requires objs.Valid()
    ensures r == GlyphsOf(objs, legend, collisions, caseSensitive, fuel)
  {
    var bg := BackgroundName(objs.keys);
    var tables := Legend.ReadLegend(Folded(legend, caseSensitive));
    var lines := Split(Folded(legend, caseSensitive), '\n');
    var syn := SynonymsOf(lines, objs);
    var props := Resolve.ResolveDict(tables.properties, syn, fuel);
    var aggs := Resolve.ResolveDict(tables.aggregates, syn, fuel);
    if props.None? || aggs.None? {
      return Err(Unresolved);
    }
    var glyphs := GlyphTable(syn, aggs.value);
    Resolve.PairwiseDistinct(glyphs.keys);
    var order := CollisionOrder(Patterns.SplitLayers(Folded(collisions, caseSensitive)), props.value, syn);
    r := StackGlyphs(glyphs, bg, order, objs);
  }
}
