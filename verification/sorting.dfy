/** `Array.prototype.sort` with a comparator, modelled as a stable insertion
    sort over a total preorder `le` ("`a` may come before `b`"). The
    application sorts items by area, categories by their order number and
    category names by the default string order. */
module Sorting {

  ghost predicate TotalPreorder<T(!new)>(le: (T, T) -> bool) {
    && (forall a, b :: le(a, b) || le(b, a))
    && (forall a, b, c :: le(a, b) && le(b, c) ==> le(a, c))
  }

  ghost predicate SortedBy<T>(s: seq<T>, le: (T, T) -> bool) {
    forall i, j :: 0 <= i < j < |s| ==> le(s[i], s[j])
  }

  /** Inserts `x` after every element that may precede it. */
  function Insert<T>(x: T, s: seq<T>, le: (T, T) -> bool): (r: seq<T>)
    ensures multiset(r) == multiset(s) + multiset{x}
    ensures |r| == |s| + 1
  {
    if s == [] || !le(s[0], x) then [x] + s
    else
      assert s == [s[0]] + s[1..];
      [s[0]] + Insert(x, s[1..], le)
  }

  lemma {:induction false} InsertSorted<T(!new)>(x: T, s: seq<T>, le: (T, T) -> bool)
    requires TotalPreorder(le)
    requires SortedBy(s, le)
    ensures SortedBy(Insert(x, s, le), le)
  {
    if s == [] || !le(s[0], x) {
      var r := [x] + s;
      forall i, j | 0 <= i < j < |r| ensures le(r[i], r[j]) {
        if i == 0 {
          assert le(x, s[0]);
          if j > 1 {
            assert le(s[0], s[j - 1]);
          }
        }
      }
    } else {
      InsertSorted(x, s[1..], le);
      var t := Insert(x, s[1..], le);
      var r := [s[0]] + t;
      assert multiset(t) == multiset(s[1..]) + multiset{x};
      forall k | 0 <= k < |t| ensures le(s[0], t[k]) {
        assert t[k] in multiset(t);
        if t[k] != x {
          assert t[k] in multiset(s[1..]);
          var m :| 0 <= m < |s[1..]| && s[1..][m] == t[k];
          assert s[1..][m] == s[m + 1];
        }
      }
      forall i, j | 0 <= i < j < |r| ensures le(r[i], r[j]) {
        if i == 0 {
          assert r[j] == t[j - 1];
        } else {
          assert r[i] == t[i - 1] && r[j] == t[j - 1];
        }
      }
    }
  }

  /** The sorted permutation of `s`. */
  function Sort<T(!new)>(s: seq<T>, le: (T, T) -> bool): (r: seq<T>)
    requires TotalPreorder(le)
    ensures multiset(r) == multiset(s)
    ensures |r| == |s|
    ensures SortedBy(r, le)
  {
    if s == [] then []
    else
      var rest := Sort(s[..|s| - 1], le);
      InsertSorted(s[|s| - 1], rest, le);
      assert s == s[..|s| - 1] + [s[|s| - 1]];
      Insert(s[|s| - 1], rest, le)
  }

  /** Sorting a list that is already in order changes nothing. */
  lemma {:induction false} SortOfSortedIsIdentity<T(!new)>(s: seq<T>, le: (T, T) -> bool)
    requires TotalPreorder(le)
    requires SortedBy(s, le)
    ensures Sort(s, le) == s
  {
    if s != [] {
      var init, last := s[..|s| - 1], s[|s| - 1];
      SortedInit(s, init, le);
      SortOfSortedIsIdentity(init, le);
      SortedSnoc(init, last, le);
      assert s == init + [last];
    }
  }

  /** An element that may follow every element of a list that sorting
      leaves alone is left at the end. */
  lemma SortedSnoc<T(!new)>(init: seq<T>, last: T, le: (T, T) -> bool)
    requires TotalPreorder(le)
    requires Sort(init, le) == init
    requires forall i :: 0 <= i < |init| ==> le(init[i], last)
    ensures Sort(init + [last], le) == init + [last]
  {
    var s := init + [last];
    assert s[..|s| - 1] == init && s[|s| - 1] == last;
    SortSnoc(s, le);
    InsertAtEnd(last, init, le);
  }

  /** Sorting inserts the last element into the sorted rest. */
  lemma SortSnoc<T(!new)>(s: seq<T>, le: (T, T) -> bool)
    requires TotalPreorder(le) && s != []
    ensures Sort(s, le) == Insert(s[|s| - 1], Sort(s[..|s| - 1], le), le)
  {
  }

  /** A sorted list without its last element is sorted, and that element
      may follow every other. */
  lemma SortedInit<T>(s: seq<T>, init: seq<T>, le: (T, T) -> bool)
    requires s != [] && init == s[..|s| - 1] && SortedBy(s, le)
    ensures SortedBy(init, le)
    ensures forall i :: 0 <= i < |init| ==> le(init[i], s[|s| - 1])
  {
    forall i, j | 0 <= i < j < |init| ensures le(init[i], init[j]) {
      assert init[i] == s[i] && init[j] == s[j];
    }
    forall i | 0 <= i < |init| ensures le(init[i], s[|s| - 1]) {
      assert init[i] == s[i];
    }
  }

  /** An element that every element may precede goes to the end. */
  lemma {:induction false} InsertAtEnd<T>(x: T, s: seq<T>, le: (T, T) -> bool)
    requires forall i :: 0 <= i < |s| ==> le(s[i], x)
    ensures Insert(x, s, le) == s + [x]
  {
    if s != [] {
      InsertAtEnd(x, s[1..], le);
      assert s == [s[0]] + s[1..];
    }
  }
}
