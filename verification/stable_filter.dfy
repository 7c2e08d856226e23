/** `Array.prototype.filter`, characterised without computing it: the result
    takes elements of the input at increasing positions, keeps every copy of
    a value that passes the test and no copy of a value that fails it. The
    application's list filters are all proved to meet this description. */
module StableFilter {

  /** `idx` lists increasing positions of `s` whose elements, in turn, are
      `r`. */
  ghost predicate Picks<T>(r: seq<T>, s: seq<T>, idx: seq<nat>) {
    && |idx| == |r|
    && (forall j | 0 <= j < |idx| :: idx[j] < |s| && r[j] == s[idx[j]])
    && (forall j, k | 0 <= j < k < |idx| :: idx[j] < idx[k])
  }

  /** `r` is what `s.filter(p)` gives: a subsequence of `s` holding exactly
      the copies of the values that pass `p`. */
  ghost predicate IsFilterOf<T(!new)>(r: seq<T>, s: seq<T>, p: T -> bool) {
    && (exists idx :: Picks(r, s, idx))
    && forall x :: multiset(r)[x] == if p(x) then multiset(s)[x] else 0
  }

  /** Filtering nothing gives nothing. */
  lemma Empty<T(!new)>(p: T -> bool)
    ensures IsFilterOf([], [], p)
  {
    var none: seq<T> := [];
    assert Picks(none, none, []);
  }

  /** One more element: it is appended to the result exactly when it
      passes. */
  lemma Snoc<T(!new)>(r: seq<T>, s: seq<T>, p: T -> bool, last: T)
    requires IsFilterOf(r, s, p)
    ensures IsFilterOf(r + (if p(last) then [last] else []), s + [last], p)
  {
    var idx :| Picks(r, s, idx);
    var s' := s + [last];
    if p(last) {
      var r', idx' := r + [last], idx + [|s| as nat];
      forall j | 0 <= j < |idx'| ensures idx'[j] < |s'| && r'[j] == s'[idx'[j]] {
        if j < |idx| {
          assert idx'[j] == idx[j] && r'[j] == r[j];
        }
      }
      forall j, k | 0 <= j < k < |idx'| ensures idx'[j] < idx'[k] {
        assert idx'[j] == idx[j];
      }
      assert Picks(r', s', idx');
    } else {
      forall j | 0 <= j < |idx| ensures idx[j] < |s'| && r[j] == s'[idx[j]] {
        assert s'[idx[j]] == s[idx[j]];
      }
      assert Picks(r, s', idx);
      assert r + [] == r;
    }
  }

  /** Without its last element, a subsequence is picked out of the input
      before the last position used. */
  lemma PrefixPicks<T>(r: seq<T>, s: seq<T>, idx: seq<nat>)
    requires Picks(r, s, idx) && r != []
    ensures idx[|r| - 1] < |s|
    ensures Picks(r[..|r| - 1], s[..idx[|r| - 1]], idx[..|r| - 1])
  {
  }

  /** A subsequence that does not use the input's last position is picked
      out of the input without it. */
  lemma PicksFromInit<T>(r: seq<T>, s: seq<T>, idx: seq<nat>)
    requires Picks(r, s, idx) && s != []
    requires r == [] || idx[|r| - 1] < |s| - 1
    ensures Picks(r, s[..|s| - 1], idx)
  {
  }

  /** A subsequence holds no more copies of a value than the input. */
  lemma {:induction false} PicksWithin<T>(r: seq<T>, s: seq<T>, idx: seq<nat>)
    requires Picks(r, s, idx)
    ensures multiset(r) <= multiset(s)
    decreases |r|
  {
    if r != [] {
      var k := |r| - 1;
      var i := idx[k];
      PrefixPicks(r, s, idx);
      PicksWithin(r[..k], s[..i], idx[..k]);
      WithinStep(r, s, i);
    }
  }

  /** Counting the last element of `r`, found at position `i` of `s`, on
      top of what `r`'s front takes from the part of `s` before `i`. */
  lemma WithinStep<T>(r: seq<T>, s: seq<T>, i: nat)
    requires r != [] && i < |s| && r[|r| - 1] == s[i]
    requires multiset(r[..|r| - 1]) <= multiset(s[..i])
    ensures multiset(r) <= multiset(s)
  {
    LastOff(r);
    assert s == s[..i] + [s[i]] + s[i + 1..];
  }

  /** Taking off the input's last element, which fails `p`, leaves the
      result a filter of the rest. */
  lemma UnsnocFail<T(!new)>(r: seq<T>, s: seq<T>, p: T -> bool)
    requires IsFilterOf(r, s, p) && s != [] && !p(s[|s| - 1])
    ensures IsFilterOf(r, s[..|s| - 1], p)
  {
    var idx :| Picks(r, s, idx);
    var init, last := s[..|s| - 1], s[|s| - 1];
    if r != [] {
      var k := |r| - 1;
      assert multiset(r)[r[k]] > 0;
      assert p(r[k]) && r[k] == s[idx[k]];
    }
    PicksFromInit(r, s, idx);
    assert s == init + [last];
  }

  /** Taking off the input's last element, which passes `p`, takes it off
      the end of the result. */
  lemma UnsnocPass<T(!new)>(r: seq<T>, s: seq<T>, p: T -> bool)
    requires IsFilterOf(r, s, p) && s != [] && p(s[|s| - 1])
    ensures r != [] && r[|r| - 1] == s[|s| - 1]
    ensures IsFilterOf(r[..|r| - 1], s[..|s| - 1], p)
  {
    var idx :| Picks(r, s, idx);
    var init, last := s[..|s| - 1], s[|s| - 1];
    assert s == init + [last];
    assert multiset(r)[last] == multiset(init)[last] + 1;
    assert r != [];
    var k := |r| - 1;
    if idx[k] != |s| - 1 {
      PicksFromInit(r, s, idx);
      PicksWithin(r, init, idx);
      assert false;
    }
    PrefixPicks(r, s, idx);
    LastOff(r);
  }

  /** The list `s.filter(p)` computes. */
  function Filter<T>(s: seq<T>, p: T -> bool): seq<T> {
    if s == [] then []
    else
      var last := s[|s| - 1];
      Filter(s[..|s| - 1], p) + (if p(last) then [last] else [])
  }

  /** The computed filter meets the description. */
  lemma {:induction false} FilterIsFilterOf<T(!new)>(s: seq<T>, p: T -> bool)
    ensures IsFilterOf(Filter(s, p), s, p)
  {
    if s == [] {
      Empty(p);
    } else {
      var init := s[..|s| - 1];
      FilterIsFilterOf(init, p);
      Snoc(Filter(init, p), init, p, s[|s| - 1]);
      assert init + [s[|s| - 1]] == s;
    }
  }

  /** Any list meeting the description is the computed filter. */
  lemma {:induction false} Canonical<T(!new)>(r: seq<T>, s: seq<T>, p: T -> bool)
    requires IsFilterOf(r, s, p)
    ensures r == Filter(s, p)
    decreases |s|, 1
  {
    if s == [] {
      NothingFromNothing(r, p);
    } else if p(s[|s| - 1]) {
      CanonicalPass(r, s, p);
    } else {
      var init := s[..|s| - 1];
      UnsnocFail(r, s, p);
      Canonical(r, init, p);
      assert Filter(s, p) == Filter(init, p) + [];
    }
  }

  /** `Canonical` when the input's last element passes. */
  lemma {:induction false} CanonicalPass<T(!new)>(r: seq<T>, s: seq<T>, p: T -> bool)
    requires IsFilterOf(r, s, p) && s != [] && p(s[|s| - 1])
    ensures r == Filter(s, p)
    decreases |s|, 0
  {
    var init, last := s[..|s| - 1], s[|s| - 1];
    UnsnocPass(r, s, p);
    var front := r[..|r| - 1];
    Canonical(front, init, p);
    LastOff(r);
  }

  /** A non-empty list is its front followed by its last element. */
  lemma LastOff<T>(r: seq<T>)
    requires r != []
    ensures r == r[..|r| - 1] + [r[|r| - 1]]
  {
  }

  /** The description determines the result: two lists that both filter
      `s` by `p` are equal. */
  lemma Unique<T(!new)>(r1: seq<T>, r2: seq<T>, s: seq<T>, p: T -> bool)
    requires IsFilterOf(r1, s, p) && IsFilterOf(r2, s, p)
    ensures r1 == r2
  {
    Canonical(r1, s, p);
    Canonical(r2, s, p);
  }

  /** Nothing can be picked out of an empty input. */
  lemma NothingFromNothing<T(!new)>(r: seq<T>, p: T -> bool)
    requires IsFilterOf(r, [], p)
    ensures r == []
  {
    var none: seq<T> := [];
    forall x ensures multiset(r)[x] == 0 {
      assert multiset(none)[x] == 0;
    }
    assert multiset(r) == multiset{};
    assert |multiset(r)| == |r|;
  }
}
