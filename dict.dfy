/**
 * Python's `dict`: a map plus the order in which the keys
 * were first inserted. Assigning to a present key keeps its position;
 * `del` removes the key from both.
 */
module Dict {
  import opened Wrappers

  datatype Dict<K(==,!new), V> = Dict(keys: seq<K>, values: map<K, V>) {

    /** The key order lists every key of the map exactly once. */
    predicate Valid() {
      && (forall i, j :: 0 <= i < j < |keys| ==> keys[i] != keys[j])
      && values.Keys == set k | k in keys
    }

    predicate Has(k: K) {
      k in values
    }

    /** `d.get(k, default)`. */
    function Get(k: K, default: V): V {
      if k in values then values[k] else default
    }

    /** `d[k] = v`. */
    function Put(k: K, v: V): (d: Dict<K, V>)
      ensures d.values == values[k := v]
      ensures d.keys == if k in values then keys else keys + [k]
      ensures Valid() ==> d.Valid()
    {
      Dict(if k in values then keys else keys + [k], values[k := v])
    }

    /** `del d[k]`. */
    function Delete(k: K): (d: Dict<K, V>)
      requires Valid()
      ensures d.Valid()
      ensures d.values == values - {k}
      ensures forall x :: x in d.keys <==> x in keys && x != k
    {
      Dict(Remove(keys, k), values - {k})
    }
  }

  function Empty<K(==,!new), V>(): (d: Dict<K, V>)
    ensures d.Valid() && d.keys == []
  {
    Dict([], map[])
  }

  /** `[x for x in s if x != k]`, keeping the order of the rest. */
  function Remove<K(==,!new)>(s: seq<K>, k: K): (r: seq<K>)
    requires forall i, j :: 0 <= i < j < |s| ==> s[i] != s[j]
    ensures forall x :: x in r <==> x in s && x != k
    ensures forall i, j :: 0 <= i < j < |r| ==> r[i] != r[j]
    ensures s != [] && s[0] != k ==> r != [] && r[0] == s[0]
  {
    if s == [] then []
    else if s[0] == k then Remove(s[1..], k)
    else
      var rest := Remove(s[1..], k);
      assert forall i :: 0 <= i < |s[1..]| ==> s[1..][i] == s[i + 1] != s[0];
      assert s[0] !in rest;
      var r := [s[0]] + rest;
      assert forall i :: 1 <= i < |r| ==> r[i] == rest[i - 1];
      r
  }

  /**
   * The dictionary built by a loop that, entry by entry, assigns `d[k] = v`
   * for an entry `Some((k, v))` and skips an entry `None`.
   */
  function FromEntries<K(==,!new), V>(es: seq<Option<(K, V)>>): (d: Dict<K, V>)
    ensures d.Valid()
  {
    if es == [] then Empty()
    else
      var d := FromEntries(es[..|es| - 1]);
      match es[|es| - 1]
      case Some((k, v)) => d.Put(k, v)
      case None => d
  }

  /** One more entry of the loop that builds `FromEntries`. */
  lemma FromEntriesStep<K(!new), V>(es: seq<Option<(K, V)>>, i: nat)
    requires i < |es|
    ensures FromEntries(es[..i + 1]) == match es[i]
      case Some((k, v)) => FromEntries(es[..i]).Put(k, v)
      case None => FromEntries(es[..i])
  {
    assert es[..i + 1][..i] == es[..i];
  }

  /** Every key of the key order of a well-formed dictionary is in the map. */
  lemma KeysPresent<K(!new), V>(d: Dict<K, V>)
    requires d.Valid()
    ensures forall i :: 0 <= i < |d.keys| ==> d.keys[i] in d.values
  {
  }

  /** A key is present exactly when some entry assigned it, and its value comes from the last such entry. */
  lemma {:induction false} FromEntriesLookup<K(!new), V>(es: seq<Option<(K, V)>>, k: K)
    ensures k in FromEntries(es).values <==> exists i :: 0 <= i < |es| && es[i].Some? && es[i].value.0 == k
    ensures forall i ::
      (0 <= i < |es| && es[i].Some? && es[i].value.0 == k && forall j :: i < j < |es| ==> es[j].None? || es[j].value.0 != k)
      ==> FromEntries(es).values[k] == es[i].value.1
  {
    FromEntriesHas(es, k);
    forall i | 0 <= i < |es| && es[i].Some? && es[i].value.0 == k && forall j :: i < j < |es| ==> es[j].None? || es[j].value.0 != k
      ensures FromEntries(es).values[k] == es[i].value.1
    {
      FromEntriesLast(es, k, i);
    }
  }

  lemma {:induction false} FromEntriesHas<K(!new), V>(es: seq<Option<(K, V)>>, k: K)
    ensures k in FromEntries(es).values <==> Assigns(es, k)
  {
    if es != [] {
      var init, last := es[..|es| - 1], es[|es| - 1];
      FromEntriesHas(init, k);
      if last.Some? && last.value.0 == k {
        assert Assigns(es, k) by {
          assert es[|es| - 1] == last;
        }
      } else {
        assert k in FromEntries(es).values <==> k in FromEntries(init).values;
        if Assigns(init, k) {
          var i :| 0 <= i < |init| && init[i].Some? && init[i].value.0 == k;
          assert es[i] == init[i];
        }
        if Assigns(es, k) {
          var i :| 0 <= i < |es| && es[i].Some? && es[i].value.0 == k;
          assert i < |init| && init[i] == es[i];
        }
      }
    }
  }

  lemma {:induction false} FromEntriesLast<K(!new), V>(es: seq<Option<(K, V)>>, k: K, i: nat)
    requires i < |es| && es[i].Some? && es[i].value.0 == k
    requires forall j :: i < j < |es| ==> es[j].None? || es[j].value.0 != k
    ensures k in FromEntries(es).values && FromEntries(es).values[k] == es[i].value.1
  {
    var init, last := es[..|es| - 1], es[|es| - 1];
    if i < |es| - 1 {
      assert init[i] == es[i];
      assert forall j :: i < j < |init| ==> init[j] == es[j];
      FromEntriesLast(init, k, i);
      assert last.None? || last.value.0 != k;
    }
  }

  /** Some entry assigns key `k`. */
  predicate Assigns<K(==), V>(es: seq<Option<(K, V)>>, k: K) {
    exists i :: 0 <= i < |es| && es[i].Some? && es[i].value.0 == k
  }

  /** Entries appended later override: a key some entry of `b` assigns gets its value from `b` alone. */
  lemma {:induction false} FromEntriesOverride<K(!new), V>(a: seq<Option<(K, V)>>, b: seq<Option<(K, V)>>, k: K)
    requires Assigns(b, k)
    ensures k in FromEntries(a + b).values && k in FromEntries(b).values
    ensures FromEntries(a + b).values[k] == FromEntries(b).values[k]
  {
    var b' := b[..|b| - 1];
    assert (a + b)[..|a + b| - 1] == a + b';
    if b[|b| - 1].None? || b[|b| - 1].value.0 != k {
      var i :| 0 <= i < |b| && b[i].Some? && b[i].value.0 == k;
      assert b'[i] == b[i];
      FromEntriesOverride(a, b', k);
    }
  }

  /** Entries that never assign `k` leave it as it was. */
  lemma {:induction false} FromEntriesUntouched<K(!new), V>(a: seq<Option<(K, V)>>, b: seq<Option<(K, V)>>, k: K)
    requires !Assigns(b, k)
    ensures k in FromEntries(a + b).values <==> k in FromEntries(a).values
    ensures k in FromEntries(a).values ==> FromEntries(a + b).values[k] == FromEntries(a).values[k]
  {
    if b == [] {
      assert a + b == a;
    } else {
      var b' := b[..|b| - 1];
      assert (a + b)[..|a + b| - 1] == a + b';
      assert forall i :: 0 <= i < |b'| ==> b'[i] == b[i];
      FromEntriesUntouched(a, b', k);
    }
  }

  /** Every value in the dictionary was assigned by some entry. */
  lemma {:induction false} FromEntriesValue<K(!new), V>(es: seq<Option<(K, V)>>, k: K)
    requires k in FromEntries(es).values
    ensures exists i :: 0 <= i < |es| && es[i] == Some((k, FromEntries(es).values[k]))
  {
    var init := es[..|es| - 1];
    if es[|es| - 1].Some? && es[|es| - 1].value.0 == k {
      assert es[|es| - 1] == Some((k, FromEntries(es).values[k]));
    } else {
      FromEntriesValue(init, k);
      var i :| 0 <= i < |init| && init[i] == Some((k, FromEntries(init).values[k]));
      assert es[i] == init[i];
    }
  }

  /** Every key of the dictionary carries the value of some entry for it. */
  lemma FromEntriesValues<K(!new), V>(es: seq<Option<(K, V)>>)
    ensures forall k :: k in FromEntries(es).values ==> exists i :: 0 <= i < |es| && es[i] == Some((k, FromEntries(es).values[k]))
  {
    forall k | k in FromEntries(es).values
      ensures exists i :: 0 <= i < |es| && es[i] == Some((k, FromEntries(es).values[k]))
    {
      FromEntriesValue(es, k);
    }
  }
}
