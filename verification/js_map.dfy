/** A JavaScript `Map`: a finite map that remembers the order in which its keys
    were first inserted. `set` on a present key replaces the value and keeps
    the key's position, `delete` removes the key, `entries()` lists the pairs
    in insertion order and `new Map(pairs)` replays `set` over the pairs. */
module JsMap {

  datatype OrderedMap<K(==, !new), V> = OrderedMap(keys: seq<K>, values: map<K, V>) {

    /** Each key is listed once, and exactly the keys of `values` are listed. */
    ghost predicate Valid() {
      && Distinct(keys)
      && (forall k :: k in values <==> k in keys)
    }

    predicate Has(k: K) {
      k in values
    }

    function Size(): nat {
      |keys|
    }

    function Set(k: K, v: V): OrderedMap<K, V> {
      if k in values then OrderedMap(keys, values[k := v])
      else OrderedMap(keys + [k], values[k := v])
    }

    function Delete(k: K): OrderedMap<K, V> {
      OrderedMap(Without(keys, k), values - {k})
    }

    /** `Array.from(map.entries())`. */
    function Entries(): (r: seq<(K, V)>)
      requires Valid()
      ensures |r| == |keys|
      ensures forall i :: 0 <= i < |r| ==> r[i] == (keys[i], values[keys[i]])
    {
      seq(|keys|, i requires 0 <= i < |keys| => (keys[i], values[keys[i]]))
    }
  }

  /** No element is listed twice. */
  ghost predicate Distinct<K>(s: seq<K>) {
    forall i, j :: 0 <= i < j < |s| ==> s[i] != s[j]
  }

  /** An element of a list that repeats nothing occurs in it once. */
  lemma {:induction false} DistinctOnce<K>(s: seq<K>, x: K)
    requires Distinct(s) && x in s
    ensures multiset(s)[x] == 1
  {
    if s[0] == x {
      assert x !in s[1..] by {
        forall j | 0 <= j < |s[1..]| ensures s[1..][j] != x {
          assert s[1..][j] == s[j + 1];
        }
      }
    } else {
      assert Distinct(s[1..]) by {
        forall i, j | 0 <= i < j < |s[1..]| ensures s[1..][i] != s[1..][j] {
          assert s[1..][i] == s[i + 1] && s[1..][j] == s[j + 1];
        }
      }
      DistinctOnce(s[1..], x);
    }
    assert s == [s[0]] + s[1..];
  }

  function Empty<K(==, !new), V>(): (r: OrderedMap<K, V>)
    ensures r.Valid() && r.keys == [] && r.values == map[]
  {
    OrderedMap([], map[])
  }

  /** `s` without any occurrence of `k`, order otherwise kept. */
  function Without<K(==, !new)>(s: seq<K>, k: K): (r: seq<K>)
    ensures forall x :: x in r <==> x in s && x != k
    ensures |r| <= |s|
  {
    if s == [] then []
    else if s[0] == k then Without(s[1..], k)
    else [s[0]] + Without(s[1..], k)
  }

  lemma {:induction false} WithoutKeepsDistinct<K(!new)>(s: seq<K>, k: K)
    requires Distinct(s)
    ensures Distinct(Without(s, k))
  {
    if s != [] {
      WithoutKeepsDistinct(s[1..], k);
      var t := Without(s[1..], k);
      assert forall j :: 0 <= j < |s[1..]| ==> s[1..][j] == s[j + 1];
      assert s[0] !in s[1..];
      if s[0] != k {
        var r := [s[0]] + t;
        forall i, j | 0 <= i < j < |r| ensures r[i] != r[j] {
          if i == 0 {
            assert r[j] == t[j - 1] && r[j] in t;
          } else {
            assert r[i] == t[i - 1] && r[j] == t[j - 1];
          }
        }
      }
    }
  }

  /** `new Map(pairs)`. */
  function FromEntries<K(==, !new), V>(pairs: seq<(K, V)>): OrderedMap<K, V>
  {
    if pairs == [] then Empty()
    else
      var last := pairs[|pairs| - 1];
      FromEntries(pairs[..|pairs| - 1]).Set(last.0, last.1)
  }

  /** `set` keeps a map well formed: the key is present with the new value,
      every other key keeps its value and position. */
  lemma SetValid<K(!new), V>(m: OrderedMap<K, V>, k: K, v: V)
    requires m.Valid()
    ensures m.Set(k, v).Valid()
    ensures m.Set(k, v).Has(k) && m.Set(k, v).values[k] == v
    ensures forall x :: x != k && m.Has(x) ==> m.Set(k, v).Has(x) && m.Set(k, v).values[x] == m.values[x]
    ensures m.Set(k, v).keys[..|m.keys|] == m.keys
  {
  }

  /** `delete` keeps a map well formed and removes exactly one key. */
  lemma DeleteValid<K(!new), V>(m: OrderedMap<K, V>, k: K)
    requires m.Valid()
    ensures m.Delete(k).Valid()
    ensures !m.Delete(k).Has(k)
    ensures forall x :: x != k ==> (m.Delete(k).Has(x) <==> m.Has(x))
  {
    WithoutKeepsDistinct(m.keys, k);
  }

  /** Any list of pairs, duplicates included, builds a well-formed map whose
      keys are the listed keys. */
  lemma {:induction false} FromEntriesValid<K(!new), V>(pairs: seq<(K, V)>)
    ensures FromEntries(pairs).Valid()
    ensures forall k :: FromEntries(pairs).Has(k) <==> exists i :: 0 <= i < |pairs| && pairs[i].0 == k
  {
    if pairs != [] {
      var init := pairs[..|pairs| - 1];
      FromEntriesValid(init);
      SetValid(FromEntries(init), pairs[|pairs| - 1].0, pairs[|pairs| - 1].1);
      forall k | FromEntries(pairs).Has(k) ensures exists i :: 0 <= i < |pairs| && pairs[i].0 == k {
        if k != pairs[|pairs| - 1].0 {
          assert FromEntries(init).Has(k);
          var i :| 0 <= i < |init| && init[i].0 == k;
          assert pairs[i] == init[i];
        }
      }
      forall k | exists i :: 0 <= i < |pairs| && pairs[i].0 == k ensures FromEntries(pairs).Has(k) {
        var i :| 0 <= i < |pairs| && pairs[i].0 == k;
        if i < |init| {
          assert init[i] == pairs[i];
        }
      }
    }
  }

  /** Every value of `new Map(pairs)` is the value of one of the pairs under
      that key. */
  lemma {:induction false} FromEntriesValues<K(!new), V>(pairs: seq<(K, V)>)
    ensures forall k :: FromEntries(pairs).Has(k) ==>
      exists i :: 0 <= i < |pairs| && pairs[i] == (k, FromEntries(pairs).values[k])
  {
    if pairs != [] {
      var init := pairs[..|pairs| - 1];
      FromEntriesValues(init);
      forall k | FromEntries(pairs).Has(k)
        ensures exists i :: 0 <= i < |pairs| && pairs[i] == (k, FromEntries(pairs).values[k])
      {
        if k == pairs[|pairs| - 1].0 {
          assert pairs[|pairs| - 1] == (k, FromEntries(pairs).values[k]);
        } else {
          assert FromEntries(init).Has(k);
          var i :| 0 <= i < |init| && init[i] == (k, FromEntries(init).values[k]);
          assert pairs[i] == init[i];
        }
      }
    }
  }

  /** The first `n` keys of a map, with their values. */
  function Prefix<K(==, !new), V>(m: OrderedMap<K, V>, n: nat): OrderedMap<K, V>
    requires m.Valid() && n <= |m.keys|
  {
    OrderedMap(m.keys[..n], map k | k in m.keys[..n] :: m.values[k])
  }

  lemma {:induction false} FromEntriesPrefix<K(!new), V>(m: OrderedMap<K, V>, n: nat)
    requires m.Valid() && n <= |m.keys|
    ensures FromEntries(m.Entries()[..n]) == Prefix(m, n)
  {
    if n > 0 {
      var es := m.Entries()[..n];
      var k := m.keys[n - 1];
      assert es[..n - 1] == m.Entries()[..n - 1] && es[n - 1] == (k, m.values[k]);
      FromEntriesPrefix(m, n - 1);
      PrefixStep(m, n);
    }
  }

  /** The first `n` entries are the first `n - 1` with the n-th set last. */
  lemma PrefixStep<K(!new), V>(m: OrderedMap<K, V>, n: nat)
    requires m.Valid() && 0 < n <= |m.keys|
    ensures var k := m.keys[n - 1];
      Prefix(m, n - 1).Set(k, m.values[k]) == Prefix(m, n)
  {
    var p := Prefix(m, n - 1);
    var k := m.keys[n - 1];
    assert k !in m.keys[..n - 1];
    assert m.keys[..n - 1] + [k] == m.keys[..n];
    assert p.Set(k, m.values[k]).values == Prefix(m, n).values;
  }

  /** `new Map(Array.from(m.entries()))` is `m` again: a snapshot of the
      entries restores the map, order included. */
  lemma EntriesRoundTrip<K(!new), V>(m: OrderedMap<K, V>)
    requires m.Valid()
    ensures FromEntries(m.Entries()) == m
  {
    FromEntriesPrefix(m, |m.keys|);
    assert m.Entries()[..|m.keys|] == m.Entries();
    assert m.keys[..|m.keys|] == m.keys;
    assert Prefix(m, |m.keys|).values == m.values;
  }
}
