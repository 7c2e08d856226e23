/** Counting backgrounds per category, as both the designer's category
    dropdown (app.js) and the CMS backgrounds page do: a background without a
    category, or with an empty one, counts under "기타". */
module BackgroundCategories {
  import opened Text
  import opened Tally
  import opened CanvasModel

  /** The category a background without one is listed under. */
  const Uncategorized: string := "기타"

  /** `getBackgroundCategory`. */
  function CategoryOf(bg: Background): string {
    OrElse(bg.category, Uncategorized)
  }

  function Categories(bgs: seq<Background>): (r: seq<string>)
    ensures |r| == |bgs| && forall i | 0 <= i < |bgs| :: r[i] == CategoryOf(bgs[i])
  {
    seq(|bgs|, i requires 0 <= i < |bgs| => CategoryOf(bgs[i]))
  }

  /** `categoryCounts` in `renderBackgroundCategories`: one count per
      category that occurs, equal to its number of backgrounds. */
  method CountCategories(bgs: seq<Background>) returns (counts: map<string, nat>)
    ensures forall c :: c in counts <==> c in Categories(bgs)
    ensures forall c :: c in counts ==> counts[c] == Occurrences(Categories(bgs), c)
  {
    counts := map[];
    var i := 0;
    while i < |bgs|
      invariant 0 <= i <= |bgs|
      invariant forall c :: c in counts <==> c in Categories(bgs[..i])
      invariant forall c :: c in counts ==> counts[c] == Occurrences(Categories(bgs[..i]), c)
    {
      var c := CategoryOf(bgs[i]);
      assert Categories(bgs[..i + 1]) == Categories(bgs[..i]) + [c];
      counts := counts[c := (if c in counts then counts[c] else 0) + 1];
      i := i + 1;
    }
    assert bgs[..|bgs|] == bgs;
  }

  /** `categoryCounts[name] || 0` for the counts of `bgs`: the number of
      backgrounds of that category, 0 for a category none has. */
  function CountOf(counts: map<string, nat>, bgs: seq<Background>, name: string): (r: nat)
    requires forall c :: c in counts <==> c in Categories(bgs)
    requires forall c :: c in counts ==> counts[c] == Occurrences(Categories(bgs), c)
    ensures r == Occurrences(Categories(bgs), name)
    ensures r == 0 <==> forall i | 0 <= i < |bgs| :: CategoryOf(bgs[i]) != name
  {
    if name in counts then counts[name] else 0
  }

  /** The counts of the categories, each counted once, add up to the number
      of backgrounds. */
  lemma CategoryCountsAddUp(bgs: seq<Background>)
    ensures Total(FirstAppearance(Categories(bgs)), Categories(bgs)) == |bgs|
  {
    CountsAddUp(Categories(bgs));
  }
}
