/** The catalogue filter (filter-manager.js): ten filters over the original
    item list, all of which an item must pass, an optional sort by area, the
    multi-select colour filter with its `'all'` sentinel, and the item count
    line. */
module Filters {
  import opened Wrappers
  import opened Text
  import opened Sorting
  import SF = StableFilter

  /** The sentinel that switches a filter off. */
  const All: string := "all"

  /** The fields of a catalogue item that the filters read. */
  datatype Item = Item(
    name: string,
    tags: seq<string>,
    kind: Option<string>,
    color: Option<string>,
    width: Option<int>,
    height: Option<int>)

  /** `activeFilters`; `kind` is the `type` filter and `stringKind` the
      `string` (cord) filter. */
  datatype Filters = Filters(
    search: string,
    kind: string,
    color: seq<string>,
    direction: string,
    creamPart: string,
    moru: string,
    bunjae: string,
    hairpin: string,
    pendant: string,
    stringKind: string,
    sort: string)

  /** The filters at start-up and after `clearFilters`. */
  function Defaults(): Filters {
    Filters("", All, [All], All, All, All, All, All, All, All, "popular")
  }

  // ---------------------------------------------------------------------------
  // The ten predicates

  /** An empty term accepts everything; otherwise the lower-cased term must
      occur in the lower-cased name or in some lower-cased tag. */
  predicate MatchesSearch(f: Filters, x: Item) {
    var term := Lower(f.search);
    term == ""
    || Contains(Lower(x.name), term)
    || exists i | 0 <= i < |x.tags| :: Contains(Lower(x.tags[i]), term)
  }

  predicate MatchesType(f: Filters, x: Item) {
    f.kind == All || x.kind == Some(f.kind) || f.kind in x.tags
  }

  /** A selection holding `'all'` accepts everything; otherwise some selected
      colour must be the item's colour or one of its tags. */
  predicate MatchesColor(f: Filters, x: Item) {
    All in f.color || exists c | c in f.color :: x.color == Some(c) || c in x.tags
  }

  /** The single-valued filters that only look at the tags. */
  predicate MatchesTag(filter: string, x: Item) {
    filter == All || filter in x.tags
  }

  /** The nine filters other than the colour filter. */
  predicate MatchesExceptColor(f: Filters, x: Item) {
    && MatchesSearch(f, x)
    && MatchesType(f, x)
    && MatchesTag(f.direction, x)
    && MatchesTag(f.creamPart, x)
    && MatchesTag(f.moru, x)
    && MatchesTag(f.bunjae, x)
    && MatchesTag(f.hairpin, x)
    && MatchesTag(f.pendant, x)
    && MatchesTag(f.stringKind, x)
  }

  predicate Matches(f: Filters, x: Item) {
    MatchesExceptColor(f, x) && MatchesColor(f, x)
  }

  /** The items that pass every filter, in their original order. */
  function Selected(items: seq<Item>, f: Filters): (r: seq<Item>)
    ensures |r| <= |items|
    ensures forall x :: x in r <==> x in items && Matches(f, x)
  {
    if items == [] then []
    else
      var last := items[|items| - 1];
      Selected(items[..|items| - 1], f) + (if Matches(f, last) then [last] else [])
  }

  /** With every filter at its default, every item passes. */
  lemma DefaultsAcceptEverything(x: Item)
    ensures Matches(Defaults(), x)
  {
    assert Lower("") == "";
  }

  /** The default filters select the whole list, in order. */
  lemma {:induction false} SelectedByDefaults(items: seq<Item>)
    ensures Selected(items, Defaults()) == items
  {
    if items != [] {
      var init, last := items[..|items| - 1], items[|items| - 1];
      SelectedByDefaults(init);
      DefaultsAcceptEverything(last);
      assert Selected(items, Defaults()) == Selected(init, Defaults()) + [last];
      assert init + [last] == items;
    }
  }

  /** The selection is `items.filter(...)`: the passing items in their
      original order, each as often as it occurs in the catalogue. */
  lemma {:induction false} SelectedIsFilter(items: seq<Item>, f: Filters)
    ensures SF.IsFilterOf(Selected(items, f), items, x => Matches(f, x))
  {
    if items == [] {
      SF.Empty(x => Matches(f, x));
    } else {
      var init, last := items[..|items| - 1], items[|items| - 1];
      SelectedIsFilter(init, f);
      SF.Snoc(Selected(init, f), init, x => Matches(f, x), last);
      SF.LastOff(items);
    }
  }

  // ---------------------------------------------------------------------------
  // Sorting

  /** `(width || 0) * (height || 0)`. */
  function Area(x: Item): int {
    (if x.width.Some? then x.width.value else 0) * (if x.height.Some? then x.height.value else 0)
  }

  predicate SmallerFirst(a: Item, b: Item) {
    Area(a) <= Area(b)
  }

  predicate LargerFirst(a: Item, b: Item) {
    Area(a) >= Area(b)
  }

  lemma AreaOrders()
    ensures TotalPreorder(SmallerFirst) && TotalPreorder(LargerFirst)
  {
  }

  /** `sortItems`: `'small'` ascending and `'large'` descending by area;
      `'popular'` and any other value keep the order. */
  function SortItems(xs: seq<Item>, sort: string): (r: seq<Item>)
    ensures multiset(r) == multiset(xs)
    ensures sort == "small" ==> SortedBy(r, SmallerFirst)
    ensures sort == "large" ==> SortedBy(r, LargerFirst)
    ensures sort != "small" && sort != "large" ==> r == xs
  {
    AreaOrders();
    if sort == "small" then Sort(xs, SmallerFirst)
    else if sort == "large" then Sort(xs, LargerFirst)
    else xs
  }

  /** The filter loop of `applyFilters`, one item at a time, agrees with
      `Selected`. */
  method FilterLoop(items: seq<Item>, f: Filters) returns (kept: seq<Item>)
    ensures kept == Selected(items, f)
  {
    kept := [];
    var i := 0;
    while i < |items|
      invariant 0 <= i <= |items|
      invariant kept == Selected(items[..i], f)
    {
      assert items[..i + 1][..i] == items[..i];
      if Matches(f, items[i]) {
        kept := kept + [items[i]];
      }
      i := i + 1;
    }
    assert items[..|items|] == items;
  }

  /** Two lists with the same multiset have the same members. */
  lemma SameMembers(a: seq<Item>, b: seq<Item>)
    requires multiset(a) == multiset(b)
    ensures forall x :: x in a <==> x in b
  {
    forall x ensures x in a <==> x in b {
      assert x in a <==> x in multiset(a);
      assert x in b <==> x in multiset(b);
    }
  }

  /** `applyFilters`: the selected items, then sorted. */
  method ApplyFilters(items: seq<Item>, f: Filters) returns (r: seq<Item>)
    ensures forall x :: x in r <==> x in items && Matches(f, x)
    ensures multiset(r) == multiset(Selected(items, f))
    ensures f.sort == "small" ==> SortedBy(r, SmallerFirst)
    ensures f.sort == "large" ==> SortedBy(r, LargerFirst)
    ensures forall x :: multiset(r)[x] == if Matches(f, x) then multiset(items)[x] else 0
    ensures f.sort != "small" && f.sort != "large" ==> r == Selected(items, f)
    ensures f.sort != "small" && f.sort != "large" ==> SF.IsFilterOf(r, items, x => Matches(f, x))
    ensures f == Defaults() ==> r == items
  {
    var kept := FilterLoop(items, f);
    r := SortItems(kept, f.sort);
    SameMembers(r, kept);
    SelectedIsFilter(items, f);
    if f == Defaults() {
      SelectedByDefaults(items);
    }
  }

  // ---------------------------------------------------------------------------
  // The colour selection

  /** `['all']`, or a non-empty list of colours without `'all'`. */
  ghost predicate ColorSelection(sel: seq<string>) {
    sel == [All] || (sel != [] && All !in sel)
  }

  /** The elements of `s` other than `x`, in order. */
  function Drop(s: seq<string>, x: string): (r: seq<string>)
    ensures forall y :: y in r <==> y in s && y != x
  {
    if s == [] then [] else (if s[0] == x then [] else [s[0]]) + Drop(s[1..], x)
  }

  /** A click on a colour button. `'all'` selects only `'all'`; any other
      colour is toggled in a selection that no longer holds `'all'`, and an
      emptied selection becomes `['all']`. */
  function ClickColor(sel: seq<string>, color: string): (r: seq<string>)
    ensures ColorSelection(r)
    ensures color == All ==> r == [All]
    ensures color != All ==>
      && (color in sel ==> color !in r)
      && (color !in sel ==> color in r)
      && (r != [All] ==> forall c :: c != color ==> (c in r <==> c in sel && c != All))
    ensures color != All ==>
      (r == [All] <==> color in sel && forall c :: c in sel ==> c == All || c == color)
  {
    if color == All then [All]
    else
      var rest := Drop(sel, All);
      var toggled := if color in rest then Drop(rest, color) else rest + [color];
      if toggled == [] then [All]
      else
        assert toggled[0] in toggled && toggled[0] != All;
        toggled
  }

  lemma {:induction false} DropAbsent(s: seq<string>, x: string)
    requires x !in s
    ensures Drop(s, x) == s
  {
    if s != [] {
      DropAbsent(s[1..], x);
      assert s == [s[0]] + s[1..];
    }
  }

  /** Clicking a colour that is not selected twice gives back the selection
      it started from. */
  lemma ClickTwice(sel: seq<string>, color: string)
    requires ColorSelection(sel) && color != All && color !in sel
    ensures ClickColor(ClickColor(sel, color), color) == sel
  {
    if sel == [All] {
      assert Drop(sel, All) == [];
      assert ClickColor(sel, color) == [color];
      assert Drop([color], All) == [color];
      assert Drop([color], color) == [];
    } else {
      DropAbsent(sel, All);
      var once := sel + [color];
      assert ClickColor(sel, color) == once;
      DropAbsent(once, All);
      DropAppend(sel, color);
    }
  }

  lemma {:induction false} DropAppend(s: seq<string>, x: string)
    requires x !in s
    ensures Drop(s + [x], x) == s
  {
    if s == [] {
    } else {
      assert (s + [x])[1..] == s[1..] + [x];
      DropAppend(s[1..], x);
      assert s == [s[0]] + s[1..];
    }
  }

  /** `resetColorFilter`: only the colour filter goes back to `['all']`, so
      an item then passes exactly when it passes the nine other filters. */
  function ResetColor(f: Filters): (r: Filters)
    ensures ColorSelection(r.color) && r.color == [All]
    ensures r.(color := f.color) == f
    ensures forall x :: Matches(r, x) <==> MatchesExceptColor(f, x)
  {
    f.(color := [All])
  }

  /** `clearFilters`: every filter back to its default, after which every
      item passes in catalogue order. */
  function ClearFilters(f: Filters): (r: Filters)
    ensures ColorSelection(r.color) && r.sort == "popular"
    ensures forall x :: Matches(r, x)
  {
    forall x ensures Matches(Defaults(), x) {
      DefaultsAcceptEverything(x);
    }
    Defaults()
  }

  // ---------------------------------------------------------------------------
  // The count line

  const CountSuffix: string := "개 아이템"

  predicate IsDigit(c: char) {
    '0' <= c <= '9'
  }

  /** The longest prefix of decimal digits. */
  function LeadingDigits(s: string): (r: string)
    ensures |r| <= |s| && r == s[..|r|]
    ensures AllDigits(r)
  {
    if s != [] && IsDigit(s[0]) then [s[0]] + LeadingDigits(s[1..]) else []
  }

  /** The longest suffix of decimal digits. */
  function TrailingDigits(s: string): (r: string)
    ensures |r| <= |s| && r == s[|s| - |r|..]
    ensures AllDigits(r)
  {
    if s != [] && IsDigit(s[|s| - 1]) then TrailingDigits(s[..|s| - 1]) + [s[|s| - 1]] else []
  }

  lemma {:induction false} LeadingDigitsOf(d: string, rest: string)
    requires AllDigits(d)
    requires rest == [] || !IsDigit(rest[0])
    ensures LeadingDigits(d + rest) == d
  {
    if d != [] {
      assert (d + rest)[1..] == d[1..] + rest;
      LeadingDigitsOf(d[1..], rest);
      assert d == [d[0]] + d[1..];
    } else {
      assert d + rest == rest;
    }
  }

  lemma {:induction false} TrailingDigitsOf(front: string, d: string)
    requires AllDigits(d)
    requires front == [] || !IsDigit(front[|front| - 1])
    ensures TrailingDigits(front + d) == d
  {
    var s := front + d;
    if d != [] {
      var init, last := d[..|d| - 1], d[|d| - 1];
      assert AllDigits(init) && IsDigit(last);
      SnocSplit(front, d);
      TrailingDigitsOf(front, init);
      assert TrailingDigits(s) == TrailingDigits(front + init) + [last];
    } else {
      assert s == front;
    }
  }

  /** The last character of `front + d` and what comes before it. */
  lemma SnocSplit(front: string, d: string)
    requires d != []
    ensures var s := front + d;
      && s[..|s| - 1] == front + d[..|d| - 1]
      && s[|s| - 1] == d[|d| - 1]
      && d == d[..|d| - 1] + [d[|d| - 1]]
  {
  }

  /** `updateItemCount`'s text: `"N개 아이템"` when nothing is filtered out,
      `"F개 / N개 아이템"` otherwise. */
  function CountText(filtered: nat, total: nat): string {
    if filtered == total then NatToString(total) + CountSuffix
    else NatToString(filtered) + "개 / " + NatToString(total) + CountSuffix
  }

  predicate AllDigits(s: string) {
    forall i :: 0 <= i < |s| ==> IsDigit(s[i])
  }

  /** Both numbers can be read back from the text: the leading digits are the
      filtered count, the digits before the suffix are the total, and the
      text is the short form exactly when the two are equal. */
  lemma CountTextReadBack(filtered: nat, total: nat)
    ensures var t := CountText(filtered, total);
      && DigitsValue(LeadingDigits(t)) == filtered
      && |CountSuffix| <= |t| && t[|t| - |CountSuffix|..] == CountSuffix
      && DigitsValue(TrailingDigits(t[..|t| - |CountSuffix|])) == total
      && (filtered == total <==> |t| == |NatToString(total)| + |CountSuffix|)
  {
    NatToStringRoundTrip(filtered);
    NatToStringRoundTrip(total);
    if filtered == total {
      ShortFormParts(NatToString(total));
    } else {
      LongFormParts(NatToString(filtered), NatToString(total));
    }
  }

  lemma ShortFormParts(n: string)
    requires AllDigits(n)
    ensures var t := n + CountSuffix;
      && LeadingDigits(t) == n
      && t[|t| - |CountSuffix|..] == CountSuffix
      && TrailingDigits(t[..|t| - |CountSuffix|]) == n
  {
    var t := n + CountSuffix;
    LeadingDigitsOf(n, CountSuffix);
    assert t[..|t| - |CountSuffix|] == [] + n;
    TrailingDigitsOf([], n);
  }

  lemma LongFormParts(f: string, n: string)
    requires AllDigits(f) && AllDigits(n) && n != []
    ensures var t := f + "개 / " + n + CountSuffix;
      && LeadingDigits(t) == f
      && t[|t| - |CountSuffix|..] == CountSuffix
      && TrailingDigits(t[..|t| - |CountSuffix|]) == n
      && |t| != |n| + |CountSuffix|
  {
    var middle := "개 / ";
    var t := f + middle + n + CountSuffix;
    assert t == f + (middle + n + CountSuffix);
    LeadingDigitsOf(f, middle + n + CountSuffix);
    var front := f + middle;
    assert t[..|t| - |CountSuffix|] == front + n;
    TrailingDigitsOf(front, n);
  }
}
