/** Counting occurrences of keys and listing each key once in order of first
    appearance, the way the application fills a `Map` or a plain object with
    `(counts[k] || 0) + 1`, or builds `[...new Set(keys)]`. */
module Tally {
  import opened JsMap

  /** How many times `k` occurs in `ks`; 0 when it does not. */
  function Occurrences(ks: seq<string>, k: string): (r: nat)
    ensures r <= |ks|
    ensures r == 0 <==> k !in ks
  {
    if ks == [] then 0
    else Occurrences(ks[..|ks| - 1], k) + (if ks[|ks| - 1] == k then 1 else 0)
  }

  /** Each key of `ks` once, in order of first appearance. */
  function FirstAppearance(ks: seq<string>): (r: seq<string>)
    ensures forall k :: k in r <==> k in ks
  {
    if ks == [] then []
    else
      var init := FirstAppearance(ks[..|ks| - 1]);
      var last := ks[|ks| - 1];
      if last in init then init else init + [last]
  }

  /** One more key: it is counted once more, and listed at the end when it
      is new. */
  lemma Snoc(ks: seq<string>, x: string)
    ensures FirstAppearance(ks + [x]) == if x in ks then FirstAppearance(ks) else FirstAppearance(ks) + [x]
    ensures forall k :: Occurrences(ks + [x], k) == Occurrences(ks, k) + if k == x then 1 else 0
  {
    assert (ks + [x])[..|ks|] == ks;
  }

  /** The first-appearance list repeats nothing: every key of the input
      occurs in it exactly once. */
  lemma {:induction false} FirstAppearanceOnce(ks: seq<string>)
    ensures Distinct(FirstAppearance(ks))
    ensures forall k :: multiset(FirstAppearance(ks))[k] == if k in ks then 1 else 0
  {
    if ks != [] {
      var init := ks[..|ks| - 1];
      FirstAppearanceOnce(init);
      assert ks == init + [ks[|ks| - 1]];
    }
  }

  /** The sum of the counts of the keys in `keys`. */
  function Total(keys: seq<string>, ks: seq<string>): nat {
    if keys == [] then 0 else Occurrences(ks, keys[0]) + Total(keys[1..], ks)
  }

  /** One more key adds one to the total of any distinct key list that
      holds it, and nothing otherwise. */
  lemma {:induction false} TotalGrows(keys: seq<string>, ks: seq<string>, x: string)
    requires Distinct(keys)
    ensures Total(keys, ks + [x]) == Total(keys, ks) + if x in keys then 1 else 0
  {
    if keys != [] {
      assert (ks + [x])[..|ks + [x]| - 1] == ks;
      assert Distinct(keys[1..]) by {
        forall i, j | 0 <= i < j < |keys[1..]| ensures keys[1..][i] != keys[1..][j] {
          assert keys[1..][i] == keys[i + 1] && keys[1..][j] == keys[j + 1];
        }
      }
      TotalGrows(keys[1..], ks, x);
      if x == keys[0] {
        assert x !in keys[1..] by {
          forall j | 0 <= j < |keys[1..]| ensures keys[1..][j] != x {
            assert keys[1..][j] == keys[j + 1];
          }
        }
      } else {
        assert x in keys <==> x in keys[1..] by {
          assert keys == [keys[0]] + keys[1..];
        }
      }
    }
  }

  /** The total over a key list followed by one more key. */
  lemma {:induction false} TotalAppend(keys: seq<string>, x: string, ks: seq<string>)
    ensures Total(keys + [x], ks) == Total(keys, ks) + Occurrences(ks, x)
  {
    if keys != [] {
      assert (keys + [x])[1..] == keys[1..] + [x];
      TotalAppend(keys[1..], x, ks);
    }
  }

  /** The total over one more key of a list. */
  lemma TotalPrefixStep(keys: seq<string>, j: nat, ks: seq<string>)
    requires j < |keys|
    ensures Total(keys[..j + 1], ks) == Total(keys[..j], ks) + Occurrences(ks, keys[j])
  {
    assert keys[..j + 1] == keys[..j] + [keys[j]];
    TotalAppend(keys[..j], keys[j], ks);
  }

  /** The counts of the distinct keys add up to the number of keys: every
      key is counted once under its own name. */
  lemma {:induction false} CountsAddUp(ks: seq<string>)
    ensures Total(FirstAppearance(ks), ks) == |ks|
  {
    if ks != [] {
      var init := ks[..|ks| - 1];
      var x := ks[|ks| - 1];
      assert ks == init + [x];
      CountsAddUp(init);
      FirstAppearanceOnce(init);
      var keys := FirstAppearance(init);
      TotalGrows(keys, init, x);
      if x !in keys {
        TotalAppend(keys, x, ks);
        assert Occurrences(init, x) == 0;
      }
    }
  }
}
