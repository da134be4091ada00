/**
 * `PSParser.__resolve_dict` (psbs/psparser.py): every list of a property
 * or aggregate table is rewritten, a member that names an entry of the
 * table being replaced by that entry's list and any other member by its
 * synonym, pass after pass until a pass meets no member naming an entry.
 *
 * The first pass reads the input table and writes a fresh one. Every later
 * pass reads and writes that same table, so an entry rewritten earlier in a
 * pass is seen, already rewritten, by the entries after it.
 */
module Resolve {
  import opened Wrappers
  import opened Dict
  import Text

  type Table = Dict<string, seq<string>>
  type Synonyms = Dict<string, string>

  /**
   * What one member becomes: the list of the entry it names; otherwise its
   * synonym (itself when it has none); and nothing at all when the synonym
   * table is empty.
   */
  function Member(v: string, d: Table, syn: Synonyms): seq<string> {
    if v in d.values then d.values[v]
    else if syn.values != map[] then [syn.Get(v, v)]
    else []
  }

  /** One list rewritten member by member, in order. */
  function Expand(vs: seq<string>, d: Table, syn: Synonyms): seq<string> {
    if vs == [] then [] else Expand(vs[..|vs| - 1], d, syn) + Member(vs[|vs| - 1], d, syn)
  }

  /** Some member of the list names an entry of the table: the pass sets `changed`. */
  predicate NamesEntry(vs: seq<string>, d: Table) {
    exists i :: 0 <= i < |vs| && vs[i] in d.values
  }

  /** Each member mapped through the synonyms, or the empty list when there are no synonyms. */
  function Through(vs: seq<string>, syn: Synonyms): (r: seq<string>)
    ensures syn.values == map[] ==> r == []
    ensures syn.values != map[] ==> |r| == |vs| && forall i :: 0 <= i < |vs| ==> r[i] == syn.Get(vs[i], vs[i])
  {
    if vs == [] || syn.values == map[] then [] else Through(vs[..|vs| - 1], syn) + [syn.Get(vs[|vs| - 1], vs[|vs| - 1])]
  }

  /** A list naming no entry is only mapped through the synonyms. */
  lemma {:induction false} ExpandFlat(vs: seq<string>, d: Table, syn: Synonyms)
    requires !NamesEntry(vs, d)
    ensures Expand(vs, d, syn) == Through(vs, syn)
  {
    if vs != [] {
      var init := vs[..|vs| - 1];
      assert !NamesEntry(init, d) by {
        assert forall i :: 0 <= i < |init| ==> init[i] == vs[i];
      }
      ExpandFlat(init, d, syn);
      assert vs[|vs| - 1] !in d.values;
    }
  }

  // ---------------------------------------------------------------------
  // The first pass: read `input`, write a fresh `output`
  // ---------------------------------------------------------------------

  /** The fresh table after the keys `ks` of the input have been rewritten, in order. */
  function FirstRun(input: Table, syn: Synonyms, ks: seq<string>): Table {
    if ks == [] then Empty()
    else
      var k := ks[|ks| - 1];
      FirstRun(input, syn, ks[..|ks| - 1]).Put(k, Expand(input.Get(k, []), input, syn))
  }

  /** `changed` after the keys `ks` of the first pass. */
  predicate FirstChangedRun(input: Table, ks: seq<string>) {
    ks != [] && (FirstChangedRun(input, ks[..|ks| - 1]) || NamesEntry(input.Get(ks[|ks| - 1], []), input))
  }

  function FirstPass(input: Table, syn: Synonyms): Table {
    FirstRun(input, syn, input.keys)
  }

  predicate FirstChanged(input: Table) {
    FirstChangedRun(input, input.keys)
  }

  /** The first pass writes every key it reads, in the order it reads them. */
  lemma {:induction false} FirstRunKeys(input: Table, syn: Synonyms, ks: seq<string>)
    requires Distinct(ks)
    ensures FirstRun(input, syn, ks).keys == ks
    ensures Ordered(FirstRun(input, syn, ks))
    ensures forall k :: k in FirstRun(input, syn, ks).values ==> k in ks
  {
    if ks != [] {
      var init, k := ks[..|ks| - 1], ks[|ks| - 1];
      assert ks[..|ks| - 1] == init;
      FirstRunKeys(input, syn, init);
      var prev, v := FirstRun(input, syn, init), Expand(input.Get(k, []), input, syn);
      assert k !in prev.values;
      PutFresh(prev, k, v);
      assert FirstRun(input, syn, ks) == prev.Put(k, v);
      Text.SplitLast(ks);
    }
  }

  /** Assigning a key the table does not have appends it to the key order. */
  lemma PutFresh(d: Table, k: string, v: seq<string>)
    requires Ordered(d) && k !in d.values
    requires forall x :: x in d.values ==> x in d.keys
    ensures d.Put(k, v).keys == d.keys + [k]
    ensures Ordered(d.Put(k, v))
    ensures forall x :: x in d.Put(k, v).values ==> x in d.keys + [k]
  {
    var r := d.Put(k, v);
    assert r.keys[..|r.keys| - 1] == d.keys;
    forall i | 0 <= i < |r.keys|
      ensures r.keys[i] in r.values
    {
      if i < |d.keys| {
        assert r.keys[i] == d.keys[i];
      }
    }
  }

  /** The first pass sets `changed` exactly when some list names an entry of the input. */
  lemma {:induction false} FirstChangedMeaning(input: Table, ks: seq<string>)
    ensures FirstChangedRun(input, ks) <==> exists i :: 0 <= i < |ks| && NamesEntry(input.Get(ks[i], []), input)
  {
    if ks != [] {
      var init := ks[..|ks| - 1];
      FirstChangedMeaning(input, init);
      assert forall i :: 0 <= i < |init| ==> init[i] == ks[i];
    }
  }

  // ---------------------------------------------------------------------
  // The later passes: read and write the same table
  // ---------------------------------------------------------------------

  /** The table after the keys `ks` of a later pass, each reading the table as it stands. */
  function LaterRun(d: Table, syn: Synonyms, ks: seq<string>): Table {
    if ks == [] then d
    else
      var prev := LaterRun(d, syn, ks[..|ks| - 1]);
      var k := ks[|ks| - 1];
      prev.Put(k, Expand(prev.Get(k, []), prev, syn))
  }

  /** `changed` after the keys `ks` of a later pass. */
  predicate LaterChangedRun(d: Table, syn: Synonyms, ks: seq<string>) {
    ks != [] &&
      var prev := LaterRun(d, syn, ks[..|ks| - 1]);
      (LaterChangedRun(d, syn, ks[..|ks| - 1]) || NamesEntry(prev.Get(ks[|ks| - 1], []), prev))
  }

  function LaterPass(d: Table, syn: Synonyms): Table {
    LaterRun(d, syn, d.keys)
  }

  predicate LaterChanged(d: Table, syn: Synonyms) {
    LaterChangedRun(d, syn, d.keys)
  }

  /** The keys are distinct and each has a value: what the passes rely on. */
  predicate Ordered(d: Table) {
    && Distinct(d.keys)
    && (forall i :: 0 <= i < |d.keys| ==> d.keys[i] in d.values)
  }

  /** No key occurs twice, stated the way the passes consume the keys: from the back. */
  predicate Distinct(ks: seq<string>) {
    ks == [] || (ks[|ks| - 1] !in ks[..|ks| - 1] && Distinct(ks[..|ks| - 1]))
  }

  lemma {:induction false} PairwiseDistinct(ks: seq<string>)
    requires forall i, j :: 0 <= i < j < |ks| ==> ks[i] != ks[j]
    ensures Distinct(ks)
  {
    if ks != [] {
      var init := ks[..|ks| - 1];
      assert forall i :: 0 <= i < |init| ==> init[i] == ks[i];
      PairwiseDistinct(init);
    }
  }

  /** A Python dictionary satisfies what the passes rely on. */
  lemma ValidOrdered(d: Table)
    requires d.Valid()
    ensures Ordered(d)
  {
    PairwiseDistinct(d.keys);
    forall i | 0 <= i < |d.keys|
      ensures d.keys[i] in d.values
    {
      assert d.keys[i] in set k | k in d.keys;
    }
  }

  /** A later pass only rewrites entries that are there: the keys and their order stay. */
  lemma {:induction false} LaterRunKeys(d: Table, syn: Synonyms, ks: seq<string>)
    requires forall i :: 0 <= i < |ks| ==> ks[i] in d.values
    ensures LaterRun(d, syn, ks).keys == d.keys
    ensures LaterRun(d, syn, ks).values.Keys == d.values.Keys
  {
    if ks != [] {
      LaterRunKeys(d, syn, ks[..|ks| - 1]);
      assert ks[|ks| - 1] in d.values;
    }
  }

  lemma LaterPassKeys(d: Table, syn: Synonyms)
    requires Ordered(d)
    ensures Ordered(LaterPass(d, syn)) && LaterPass(d, syn).keys == d.keys
  {
    LaterRunKeys(d, syn, d.keys);
  }

  /** The passes after the first, at most `fuel` of them; `None` when they run out. */
  function Passes(d: Table, syn: Synonyms, fuel: nat): Option<Table>
    decreases fuel
  {
    if fuel == 0 then None
    else if !LaterChanged(d, syn) then Some(LaterPass(d, syn))
    else Passes(LaterPass(d, syn), syn, fuel - 1)
  }

  /** Where the loop stands: done with `d`, or `fuel` passes left to run on it. */
  function Continue(d: Table, syn: Synonyms, changed: bool, fuel: nat): Option<Table> {
    if changed then Passes(d, syn, fuel) else Some(d)
  }

  /** One more pass: stop if it changed nothing, else carry on with what it wrote. */
  lemma PassesUnfold(d: Table, syn: Synonyms, fuel: nat)
    requires fuel > 0
    ensures Passes(d, syn, fuel) == Continue(LaterPass(d, syn), syn, LaterChanged(d, syn), fuel - 1)
  {
  }

  /**
   * `__resolve_dict(input, syn)` allowed at most `fuel` passes. The source
   * loops until a pass changes nothing, which never happens for a cyclic
   * legend; `None` stands for running out of passes.
   */
  function ResolveTable(input: Table, syn: Synonyms, fuel: nat): Option<Table> {
    if fuel == 0 then None
    else if !FirstChanged(input) then Some(FirstPass(input, syn))
    else Passes(FirstPass(input, syn), syn, fuel - 1)
  }

  lemma ResolveUnfold(input: Table, syn: Synonyms, fuel: nat)
    requires fuel > 0
    ensures ResolveTable(input, syn, fuel) == Continue(FirstPass(input, syn), syn, FirstChanged(input), fuel - 1)
  {
  }

  // ---------------------------------------------------------------------
  // The loops
  // ---------------------------------------------------------------------

  /** The inner loop over one list: the rewritten list and whether it named an entry. */
  method ExpandMembers(vs: seq<string>, d: Table, syn: Synonyms) returns (list: seq<string>, changed: bool)
    ensures list == Expand(vs, d, syn)
    ensures changed == NamesEntry(vs, d)
  {
    list := [];
    changed := false;
    for i := 0 to |vs|
      invariant list == Expand(vs[..i], d, syn)
      invariant changed == NamesEntry(vs[..i], d)
    {
      assert vs[..i + 1][..i] == vs[..i];
      if vs[i] in d.values {
        list := list + d.values[vs[i]];
        changed := true;
      } else if syn.values != map[] {
        list := list + [syn.Get(vs[i], vs[i])];
      }
    }
    assert vs[..|vs|] == vs;
  }

  /** The first pass over the input, into a fresh table. */
  method FirstPassLoop(input: Table, syn: Synonyms) returns (output: Table, changed: bool)
    ensures output == FirstPass(input, syn)
    ensures changed == FirstChanged(input)
  {
    output := Empty();
    changed := false;
    for n := 0 to |input.keys|
      invariant output == FirstRun(input, syn, input.keys[..n])
      invariant changed == FirstChangedRun(input, input.keys[..n])
    {
      var key := input.keys[n];
      var list, ch := ExpandMembers(input.Get(key, []), input, syn);
      assert input.keys[..n + 1][..n] == input.keys[..n];
      output := output.Put(key, list);
      changed := changed || ch;
    }
    assert input.keys[..|input.keys|] == input.keys;
  }

  /** A later pass, rewriting the table it reads. */
  method LaterPassLoop(d: Table, syn: Synonyms) returns (output: Table, changed: bool)
    ensures output == LaterPass(d, syn)
    ensures changed == LaterChanged(d, syn)
  {
    output := d;
    changed := false;
    for n := 0 to |d.keys|
      invariant output == LaterRun(d, syn, d.keys[..n])
      invariant changed == LaterChangedRun(d, syn, d.keys[..n])
    {
      var key := d.keys[n];
      var list, ch := ExpandMembers(output.Get(key, []), output, syn);
      assert d.keys[..n + 1][..n] == d.keys[..n];
      output := output.Put(key, list);
      changed := changed || ch;
    }
    assert d.keys[..|d.keys|] == d.keys;
  }

  /** The `while True` loop of `__resolve_dict`, stopped after `fuel` passes. */
  method ResolveDict(input: Table, syn: Synonyms, fuel: nat) returns (r: Option<Table>)
    ensures r == ResolveTable(input, syn, fuel)
  {
    if fuel == 0 {
      return None;
    }
    ResolveUnfold(input, syn, fuel);
    var output, changed := FirstPassLoop(input, syn);
    var left: nat := fuel - 1;
    while changed && left > 0
      invariant ResolveTable(input, syn, fuel) == Continue(output, syn, changed, left)
      decreases left
    {
      PassesUnfold(output, syn, left);
      output, changed := LaterPassLoop(output, syn);
      left := left - 1;
    }
    assert changed ==> Passes(output, syn, left) == None;
    r := if changed then None else Some(output);
  }

  // ---------------------------------------------------------------------
  // What the result is
  // ---------------------------------------------------------------------

  /** A first pass that changes nothing maps every list through the synonyms. */
  lemma {:induction false} FirstNoChange(input: Table, syn: Synonyms, ks: seq<string>)
    requires !FirstChangedRun(input, ks)
    ensures forall i :: 0 <= i < |ks| ==> !NamesEntry(input.Get(ks[i], []), input)
    ensures forall i :: 0 <= i < |ks| ==>
      ks[i] in FirstRun(input, syn, ks).values
      && FirstRun(input, syn, ks).values[ks[i]] == Through(input.Get(ks[i], []), syn)
  {
    if ks != [] {
      var init := ks[..|ks| - 1];
      var k := ks[|ks| - 1];
      FirstNoChange(input, syn, init);
      ExpandFlat(input.Get(k, []), input, syn);
      assert forall i :: 0 <= i < |init| ==> init[i] == ks[i];
    }
  }

  /** A later pass leaves the entries it has not reached yet as they were. */
  lemma {:induction false} LaterRunOthers(d: Table, syn: Synonyms, ks: seq<string>, k: string)
    requires k !in ks
    ensures LaterRun(d, syn, ks).Get(k, []) == d.Get(k, [])
  {
    if ks != [] {
      LaterRunOthers(d, syn, ks[..|ks| - 1], k);
    }
  }

  /**
   * A later pass that changes nothing maps each list it has reached through
   * the synonyms.
   */
  lemma {:induction false} LaterNoChange(d: Table, syn: Synonyms, ks: seq<string>)
    requires forall i :: 0 <= i < |ks| ==> ks[i] in d.values
    requires Distinct(ks)
    requires !LaterChangedRun(d, syn, ks)
    ensures forall i :: 0 <= i < |ks| ==>
      !NamesEntry(d.values[ks[i]], d)
      && LaterRun(d, syn, ks).Get(ks[i], []) == Through(d.values[ks[i]], syn)
  {
    if ks != [] {
      var init, k := ks[..|ks| - 1], ks[|ks| - 1];
      var prev := LaterRun(d, syn, init);
      assert forall i :: 0 <= i < |init| ==> init[i] == ks[i];
      LaterNoChange(d, syn, init);
      LaterRunKeys(d, syn, init);
      LaterRunOthers(d, syn, init, k);
      var vs := d.values[k];
      SameKeysName(vs, prev, d);
      ExpandFlat(vs, prev, syn);
      assert LaterRun(d, syn, ks) == prev.Put(k, Through(vs, syn));
      NoChangeStep(d, syn, init, k, prev);
      Text.SplitLast(ks);
    }
  }

  /** The induction step of `LaterNoChange`: the key just reached joins the ones before it. */
  lemma NoChangeStep(d: Table, syn: Synonyms, init: seq<string>, k: string, prev: Table)
    requires k in d.values && k !in init && !NamesEntry(d.values[k], d)
    requires forall i :: 0 <= i < |init| ==>
      && init[i] in d.values
      && !NamesEntry(d.values[init[i]], d)
      && prev.Get(init[i], []) == Through(d.values[init[i]], syn)
    ensures forall i :: 0 <= i < |init + [k]| ==>
      && !NamesEntry(d.values[(init + [k])[i]], d)
      && prev.Put(k, Through(d.values[k], syn)).Get((init + [k])[i], []) == Through(d.values[(init + [k])[i]], syn)
  {
    var ks, r := init + [k], prev.Put(k, Through(d.values[k], syn));
    forall i | 0 <= i < |ks|
      ensures !NamesEntry(d.values[ks[i]], d)
      ensures r.Get(ks[i], []) == Through(d.values[ks[i]], syn)
    {
      if i < |init| {
        assert ks[i] == init[i];
      }
    }
  }

  /** Whether a list names an entry depends only on which keys the table has. */
  lemma SameKeysName(vs: seq<string>, a: Table, b: Table)
    requires a.values.Keys == b.values.Keys
    ensures NamesEntry(vs, a) <==> NamesEntry(vs, b)
  {
  }

  /**
   * The loop's final state: `prev` is the table the last pass read, none of
   * its lists names one of its entries, and `r` holds each of its lists
   * mapped through the synonyms.
   */
  ghost predicate Settled(keys: seq<string>, prev: Table, r: Table, syn: Synonyms) {
    forall i :: 0 <= i < |keys| ==>
      && keys[i] in prev.values
      && !NamesEntry(prev.values[keys[i]], prev)
      && r.Get(keys[i], []) == Through(prev.values[keys[i]], syn)
  }

  /**
   * The passes stop only after a pass in which no list named an entry; that
   * pass mapped every list it read through the synonyms.
   */
  lemma {:induction false} PassesFinal(d: Table, syn: Synonyms, fuel: nat) returns (prev: Table)
    requires Ordered(d)
    requires Passes(d, syn, fuel).Some?
    ensures Ordered(prev) && prev.keys == d.keys
    ensures Passes(d, syn, fuel).value.keys == d.keys
    ensures Settled(d.keys, prev, Passes(d, syn, fuel).value, syn)
    decreases fuel, 1
  {
    var e, changed := LaterPass(d, syn), LaterChanged(d, syn);
    assert fuel > 0;
    PassesStep(d, syn, fuel);
    LaterPassKeys(d, syn);
    if !changed {
      LaterNoChange(d, syn, d.keys);
    }
    prev := ContinueSettled(d, e, syn, changed, fuel - 1);
    var r := Continue(e, syn, changed, fuel - 1).value;
    assert Passes(d, syn, fuel).value == r;
    assert Settled(d.keys, prev, r, syn);
  }

  /**
   * A resolved table has exactly the input's keys, in the input's order;
   * and there is a table over those keys, naming none of them in any list,
   * whose lists mapped through the synonyms are the result's lists: the loop
   * ends only after a pass that changed nothing.
   */
  lemma ResolveFinal(input: Table, syn: Synonyms, fuel: nat) returns (prev: Table)
    requires Ordered(input)
    requires ResolveTable(input, syn, fuel).Some?
    ensures Ordered(prev) && prev.keys == input.keys
    ensures ResolveTable(input, syn, fuel).value.keys == input.keys
    ensures forall i :: 0 <= i < |input.keys| ==>
      !NamesEntry(prev.values[input.keys[i]], prev)
      && ResolveTable(input, syn, fuel).value.Get(input.keys[i], []) == Through(prev.values[input.keys[i]], syn)
  {
    prev := ResolveSettled(input, syn, fuel);
  }

  lemma ResolveSettled(input: Table, syn: Synonyms, fuel: nat) returns (prev: Table)
    requires Ordered(input)
    requires ResolveTable(input, syn, fuel).Some?
    ensures Ordered(prev) && prev.keys == input.keys
    ensures ResolveTable(input, syn, fuel).value.keys == input.keys
    ensures Settled(input.keys, prev, ResolveTable(input, syn, fuel).value, syn)
  {
    assert fuel > 0;
    ResolveUnfold(input, syn, fuel);
    FirstPassOrdered(input, syn);
    if !FirstChanged(input) {
      FirstSettled(input, syn);
    }
    prev := ContinueSettled(input, FirstPass(input, syn), syn, FirstChanged(input), fuel - 1);
  }

  /** Where the loop stands after the first pass, settled: the passes still to run keep the keys and settle them. */
  lemma ContinueSettled(input: Table, first: Table, syn: Synonyms, changed: bool, fuel: nat) returns (prev: Table)
    requires Ordered(input) && Ordered(first) && first.keys == input.keys
    requires !changed ==> Settled(input.keys, input, first, syn)
    requires Continue(first, syn, changed, fuel).Some?
    ensures Ordered(prev) && prev.keys == input.keys
    ensures Continue(first, syn, changed, fuel).value.keys == input.keys
    ensures Settled(input.keys, prev, Continue(first, syn, changed, fuel).value, syn)
    decreases fuel, 2
  {
    if changed {
      prev := PassesFinal(first, syn, fuel);
    } else {
      prev := input;
    }
  }

  lemma FirstPassOrdered(input: Table, syn: Synonyms)
    requires Ordered(input)
    ensures Ordered(FirstPass(input, syn)) && FirstPass(input, syn).keys == input.keys
  {
    FirstRunKeys(input, syn, input.keys);
  }

  /** A first pass that names no entry settles the input itself. */
  lemma FirstSettled(input: Table, syn: Synonyms)
    requires Ordered(input) && !FirstChanged(input)
    ensures Settled(input.keys, input, FirstPass(input, syn), syn)
  {
    FirstNoChange(input, syn, input.keys);
    forall i | 0 <= i < |input.keys|
      ensures input.keys[i] in input.values
      ensures FirstPass(input, syn).Get(input.keys[i], []) == Through(input.values[input.keys[i]], syn)
    {
      assert input.Get(input.keys[i], []) == input.values[input.keys[i]];
    }
  }

  /** With no synonyms at all, every member that names no entry is dropped: a resolved table holds only empty lists. */
  lemma NoSynonymsEmpties(input: Table, syn: Synonyms, fuel: nat)
    requires Ordered(input) && syn.values == map[]
    requires ResolveTable(input, syn, fuel).Some?
    ensures forall i :: 0 <= i < |input.keys| ==> ResolveTable(input, syn, fuel).value.Get(input.keys[i], []) == []
  {
    var prev := ResolveFinal(input, syn, fuel);
  }

  /** A table whose lists name no entry is resolved by the first pass alone. */
  lemma FlatInputOnePass(input: Table, syn: Synonyms, fuel: nat)
    requires fuel > 0
    requires forall i :: 0 <= i < |input.keys| ==> !NamesEntry(input.Get(input.keys[i], []), input)
    ensures ResolveTable(input, syn, fuel) == Some(FirstPass(input, syn))
    ensures forall i :: 0 <= i < |input.keys| ==>
      FirstPass(input, syn).Get(input.keys[i], []) == Through(input.Get(input.keys[i], []), syn)
  {
    FirstChangedMeaning(input, input.keys);
    FirstNoChange(input, syn, input.keys);
  }

  /** More passes never change a result that fewer passes reached. */
  lemma {:induction false} PassesFuel(d: Table, syn: Synonyms, fuel: nat, more: nat)
    requires fuel <= more
    requires Passes(d, syn, fuel).Some?
    ensures Passes(d, syn, more) == Passes(d, syn, fuel)
    decreases fuel, 1
  {
    var e, changed := LaterPass(d, syn), LaterChanged(d, syn);
    assert fuel > 0;
    PassesStep(d, syn, fuel);
    PassesStep(d, syn, more);
    ContinueFuel(e, syn, changed, fuel - 1, more - 1);
  }

  /** One pass, then where the loop stands. */
  lemma PassesStep(d: Table, syn: Synonyms, fuel: nat)
    requires fuel > 0
    ensures Passes(d, syn, fuel) == Continue(LaterPass(d, syn), syn, LaterChanged(d, syn), fuel - 1)
  {
  }

  lemma ResolveFuel(input: Table, syn: Synonyms, fuel: nat, more: nat)
    requires fuel <= more
    requires ResolveTable(input, syn, fuel).Some?
    ensures ResolveTable(input, syn, more) == ResolveTable(input, syn, fuel)
  {
    assert fuel > 0;
    ResolveUnfold(input, syn, fuel);
    ResolveUnfold(input, syn, more);
    ContinueFuel(FirstPass(input, syn), syn, FirstChanged(input), fuel - 1, more - 1);
  }

  lemma ContinueFuel(d: Table, syn: Synonyms, changed: bool, fuel: nat, more: nat)
    requires fuel <= more
    requires Continue(d, syn, changed, fuel).Some?
    ensures Continue(d, syn, changed, more) == Continue(d, syn, changed, fuel)
    decreases fuel, 2
  {
    if changed {
      PassesFuel(d, syn, fuel, more);
    }
  }

  /** The table `a = a`, a property naming itself. */
  function SelfLoop(): Table {
    Dict(["a"], map["a" := ["a"]])
  }

  /** Rewriting the list `[a]` of `a = a` gives it back, and it names an entry. */
  lemma SelfLoopExpand(syn: Synonyms)
    ensures Expand(["a"], SelfLoop(), syn) == ["a"]
    ensures NamesEntry(["a"], SelfLoop())
  {
    var ks: seq<string> := ["a"];
    assert ks[..0] == [];
    assert ks[0] in SelfLoop().values;
  }

  /**
   * A table of one key whose list names that key and comes back unchanged
   * when rewritten: every pass gives the table back and reports a change.
   */
  lemma OneKeyLoop(t: Table, syn: Synonyms, k: string, vs: seq<string>)
    requires t.keys == [k] && t.values == map[k := vs]
    requires Expand(vs, t, syn) == vs && NamesEntry(vs, t)
    ensures LaterPass(t, syn) == t && LaterChanged(t, syn)
    ensures FirstPass(t, syn) == t && FirstChanged(t)
  {
    OneKeyLater(t, syn, k, vs);
    OneKeyFirst(t, syn, k, vs);
  }

  lemma OneKeyLater(t: Table, syn: Synonyms, k: string, vs: seq<string>)
    requires t.keys == [k] && t.values == map[k := vs]
    requires Expand(vs, t, syn) == vs && NamesEntry(vs, t)
    ensures LaterPass(t, syn) == t && LaterChanged(t, syn)
  {
    var ks := t.keys;
    assert ks[..0] == [] && ks[0] == k;
    assert t.Get(k, []) == vs;
    assert LaterRun(t, syn, ks) == t.Put(k, vs);
    assert t.Put(k, vs) == t by {
      assert t.values[k := vs] == t.values;
    }
    assert LaterChangedRun(t, syn, ks);
  }

  lemma OneKeyFirst(t: Table, syn: Synonyms, k: string, vs: seq<string>)
    requires t.keys == [k] && t.values == map[k := vs]
    requires Expand(vs, t, syn) == vs && NamesEntry(vs, t)
    ensures FirstPass(t, syn) == t && FirstChanged(t)
  {
    var ks := t.keys;
    assert ks[..0] == [] && ks[0] == k;
    assert t.Get(k, []) == vs;
    assert FirstRun(t, syn, ks) == Empty().Put(k, vs);
    assert Empty<string, seq<string>>().Put(k, vs) == t by {
      assert [] + [k] == ks;
    }
    assert FirstChangedRun(t, ks);
  }

  /** A pass that gives back its own table and still reports a change repeats until the fuel runs out. */
  lemma {:induction false} FixedPointPasses(d: Table, syn: Synonyms, fuel: nat)
    requires LaterPass(d, syn) == d && LaterChanged(d, syn)
    ensures Passes(d, syn, fuel) == None
  {
    if fuel > 0 {
      FixedPointPasses(d, syn, fuel - 1);
    }
  }

  /** A table that every pass gives back while reporting a change is never resolved. */
  lemma FixedPointNeverResolves(input: Table, d: Table, syn: Synonyms, fuel: nat)
    requires FirstPass(input, syn) == d && FirstChanged(input)
    requires LaterPass(d, syn) == d && LaterChanged(d, syn)
    ensures ResolveTable(input, syn, fuel) == None
  {
    if fuel > 0 {
      ResolveUnfold(input, syn, fuel);
      FixedPointPasses(d, syn, fuel - 1);
    }
  }

  /** The table `a = a`, whose one property names itself, is never resolved, however many passes are allowed. */
  lemma CycleNeverResolves(syn: Synonyms, fuel: nat)
    ensures ResolveTable(SelfLoop(), syn, fuel) == None
  {
    SelfLoopExpand(syn);
    OneKeyLoop(SelfLoop(), syn, "a", ["a"]);
    FixedPointNeverResolves(SelfLoop(), SelfLoop(), syn, fuel);
  }
}
