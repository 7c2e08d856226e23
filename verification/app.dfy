/** The page logic of the designer (app.js): the cart built from the objects
    on the canvas, background categories with their counts, the background
    list filtered by category, the upload of a custom background and the
    reset of all items. */
module App {
  import opened Wrappers
  import opened Text
  import opened Sorting
  import opened JsMap
  import opened Tally
  import opened CanvasModel
  import CM = CanvasManager
  import opened BackgroundCategories
  import SF = StableFilter

  // ---------------------------------------------------------------------------
  // Cart

  /** One cart line as sent to the shop. */
  datatype CartLine = CartLine(
    productCode: string,
    productName: Option<string>,
    quantity: nat,
    id: Option<string>,
    displayInfo: Option<string>)

  /** No object carries an item; or items do, but none has a product code;
      or the lines to send. */
  datatype CartOutcome = NoItems | NoProductCodes | Lines(lines: seq<CartLine>)

  /** The object carries an item with product code `c`. */
  predicate HasCode(o: CanvasObject, c: string) {
    o.itemData.Some? && o.itemData.value.productCode == Some(c)
  }

  /** The product codes of the objects, one per object that carries an item
      with a non-empty code, in stacking order. */
  function CodesOf(objects: seq<CanvasObject>): (r: seq<string>)
    ensures |r| <= |objects|
    ensures forall c :: c in r <==> c != "" && exists i | 0 <= i < |objects| :: HasCode(objects[i], c)
  {
    if objects == [] then []
    else
      var init := objects[..|objects| - 1];
      var o := objects[|objects| - 1];
      var rest := CodesOf(init);
      assert forall i :: 0 <= i < |init| ==> objects[i] == init[i];
      if o.itemData.Some? && Truthy(o.itemData.value.productCode) then
        rest + [o.itemData.value.productCode.value]
      else rest
  }

  /** The code an object contributes to the cart, if any. */
  function CodeOf(o: CanvasObject): seq<string> {
    if o.itemData.Some? && Truthy(o.itemData.value.productCode) then [o.itemData.value.productCode.value] else []
  }

  lemma CodesOfSnoc(objects: seq<CanvasObject>, i: nat)
    requires i < |objects|
    ensures CodesOf(objects[..i + 1]) == CodesOf(objects[..i]) + CodeOf(objects[i])
  {
    assert objects[..i + 1][..i] == objects[..i];
  }

  /** The item of the first object with product code `c`. */
  function FirstWithCode(objects: seq<CanvasObject>, c: string): (d: ItemData)
    requires c in CodesOf(objects)
    ensures exists i | 0 <= i < |objects| ::
      && objects[i].itemData == Some(d) && d.productCode == Some(c)
      && forall j | 0 <= j < i :: !HasCode(objects[j], c)
  {
    FirstWithCodeFrom(objects, c)
  }

  function FirstWithCodeFrom(objects: seq<CanvasObject>, c: string): (d: ItemData)
    requires exists i | 0 <= i < |objects| :: HasCode(objects[i], c)
    ensures exists i | 0 <= i < |objects| ::
      && objects[i].itemData == Some(d) && d.productCode == Some(c)
      && forall j | 0 <= j < i :: !HasCode(objects[j], c)
  {
    if HasCode(objects[0], c) then objects[0].itemData.value
    else
      var d := FirstWithCodeFrom(objects[1..], c);
      var i :| 0 <= i < |objects[1..]| && objects[1..][i].itemData == Some(d) && d.productCode == Some(c)
               && forall j | 0 <= j < i :: !HasCode(objects[1..][j], c);
      assert objects[i + 1] == objects[1..][i];
      assert forall j | 1 <= j < i + 1 :: objects[j] == objects[1..][j - 1];
      d
  }

  /** The sum of the quantities of the lines. */
  function LineTotal(lines: seq<CartLine>): nat {
    if lines == [] then 0 else LineTotal(lines[..|lines| - 1]) + lines[|lines| - 1].quantity
  }

  /** The cart line for product code `c`. */
  predicate IsLineFor(line: CartLine, objects: seq<CanvasObject>, c: string)
    requires c in CodesOf(objects)
  {
    var d := FirstWithCode(objects, c);
    && line.productCode == c
    && line.quantity == Occurrences(CodesOf(objects), c)
    && line.productName == Or(d.productName, d.name)
    && line.id == d.id && line.displayInfo == d.displayInfo
  }

  /** `counts` holds each code of `seen` once, in order of first
      appearance, with its number of occurrences. */
  ghost predicate Tracks(counts: OrderedMap<string, nat>, seen: seq<string>) {
    && counts.Valid()
    && counts.keys == FirstAppearance(seen)
    && forall c :: counts.Has(c) ==> counts.values[c] == Occurrences(seen, c)
  }

  /** The first loop of `handleAddToCart`: a `Map` from product code to the
      number of objects with that code, keys in order of first appearance. */
  method CountCodes(objects: seq<CanvasObject>) returns (counts: OrderedMap<string, nat>)
    ensures counts.Valid()
    ensures counts.keys == FirstAppearance(CodesOf(objects))
    ensures forall c :: counts.Has(c) ==> counts.values[c] == Occurrences(CodesOf(objects), c)
  {
    counts := Empty();
    ghost var seen: seq<string> := [];
    var i := 0;
    while i < |objects|
      invariant 0 <= i <= |objects|
      invariant seen == CodesOf(objects[..i])
      invariant Tracks(counts, seen)
    {
      counts := CountOne(counts, seen, objects[i]);
      CodesOfSnoc(objects, i);
      seen := seen + CodeOf(objects[i]);
      i := i + 1;
    }
    assert objects[..|objects|] == objects;
  }

  /** One pass of the first loop: an object with a product code adds one to
      that code's count, entering it at the end when it is new. */
  method CountOne(counts: OrderedMap<string, nat>, ghost seen: seq<string>, o: CanvasObject)
    returns (next: OrderedMap<string, nat>)
    requires Tracks(counts, seen)
    ensures Tracks(next, seen + CodeOf(o))
  {
    if o.itemData.Some? && Truthy(o.itemData.value.productCode) {
      var c := o.itemData.value.productCode.value;
      CountStep(counts, seen, c);
      next := counts.Set(c, if counts.Has(c) then counts.values[c] + 1 else 1);
    } else {
      next := counts;
      assert seen + CodeOf(o) == seen;
    }
  }

  /** Counting one more code keeps the map in step with the codes seen. */
  lemma CountStep(counts: OrderedMap<string, nat>, seen: seq<string>, c: string)
    requires Tracks(counts, seen)
    ensures Tracks(counts.Set(c, if counts.Has(c) then counts.values[c] + 1 else 1), seen + [c])
  {
    var v := if counts.Has(c) then counts.values[c] + 1 else 1;
    var next := counts.Set(c, v);
    assert counts.Has(c) <==> c in seen;
    assert next.Valid() by {
      SetValid(counts, c, v);
    }
    assert next.keys == FirstAppearance(seen + [c]) by {
      Snoc(seen, c);
    }
    assert forall x :: next.Has(x) ==> next.values[x] == Occurrences(seen + [c], x) by {
      Snoc(seen, c);
      forall x | next.Has(x) ensures next.values[x] == Occurrences(seen + [c], x) {
        if x != c {
          assert counts.Has(x) && next.values[x] == counts.values[x];
        }
      }
    }
  }

  /** `lines` are the lines for the first codes of `distinct`. */
  ghost predicate LinesFor(lines: seq<CartLine>, objects: seq<CanvasObject>, distinct: seq<string>) {
    && |lines| <= |distinct|
    && forall k | 0 <= k < |lines| :: distinct[k] in CodesOf(objects) && IsLineFor(lines[k], objects, distinct[k])
  }

  /** The second loop of `handleAddToCart`: one line per entry of the map. */
  method BuildLines(objects: seq<CanvasObject>, counts: OrderedMap<string, nat>) returns (lines: seq<CartLine>)
    requires Tracks(counts, CodesOf(objects))
    ensures |lines| == |counts.keys|
    ensures LinesFor(lines, objects, counts.keys)
    ensures forall k | 0 <= k < |lines| :: IsLineFor(lines[k], objects, counts.keys[k])
  {
    ghost var codes := CodesOf(objects);
    ghost var distinct := counts.keys;
    var entries := counts.Entries();
    lines := [];
    var j := 0;
    while j < |entries|
      invariant 0 <= j <= |entries|
      invariant |lines| == j
      invariant LinesFor(lines, objects, distinct)
    {
      var (c, q) := entries[j];
      assert c == distinct[j] && c in codes;
      var d := FirstWithCode(objects, c);
      var line := CartLine(c, Or(d.productName, d.name), q, d.id, d.displayInfo);
      LinesStep(lines, line, objects, distinct);
      lines := lines + [line];
      j := j + 1;
    }
  }

  /** The quantities of the lines for a list of codes add up to the total
      count of those codes. */
  lemma {:induction false} LineTotalIsTotal(lines: seq<CartLine>, objects: seq<CanvasObject>, distinct: seq<string>)
    requires |lines| == |distinct| && LinesFor(lines, objects, distinct)
    ensures LineTotal(lines) == Total(distinct, CodesOf(objects))
  {
    if lines != [] {
      var n := |lines| - 1;
      assert distinct[..n + 1] == distinct;
      TotalPrefixStep(distinct, n, CodesOf(objects));
      assert LinesFor(lines[..n], objects, distinct[..n]) by {
        forall k | 0 <= k < n
          ensures distinct[..n][k] in CodesOf(objects) && IsLineFor(lines[..n][k], objects, distinct[..n][k])
        {
          assert lines[..n][k] == lines[k] && distinct[..n][k] == distinct[k];
        }
      }
      LineTotalIsTotal(lines[..n], objects, distinct[..n]);
    }
  }

  lemma LinesStep(lines: seq<CartLine>, line: CartLine, objects: seq<CanvasObject>, distinct: seq<string>)
    requires |lines| < |distinct| && distinct[|lines|] in CodesOf(objects)
    requires LinesFor(lines, objects, distinct)
    requires IsLineFor(line, objects, distinct[|lines|])
    ensures LinesFor(lines + [line], objects, distinct)
  {
    forall k | 0 <= k < |lines| + 1
      ensures distinct[k] in CodesOf(objects) && IsLineFor((lines + [line])[k], objects, distinct[k])
    {
      if k < |lines| {
        assert (lines + [line])[k] == lines[k];
      }
    }
  }

  /** `handleAddToCart`: objects are counted per product code, objects
      without a code are skipped, and there is one line per code in order of
      first appearance, named after the first object with that code. The
      quantities in the purchase list play no part. */
  method AggregateCart(objects: seq<CanvasObject>) returns (out: CartOutcome)
    ensures out == NoItems <==> forall i | 0 <= i < |objects| :: objects[i].itemData.None?
    ensures out == NoProductCodes <==>
      (exists i | 0 <= i < |objects| :: objects[i].itemData.Some?) && CodesOf(objects) == []
    ensures out.Lines? ==>
      var distinct := FirstAppearance(CodesOf(objects));
      && |out.lines| == |distinct| > 0
      && forall i | 0 <= i < |out.lines| :: IsLineFor(out.lines[i], objects, distinct[i])
    ensures out.Lines? ==> LineTotal(out.lines) == |CodesOf(objects)|
  {
    if forall i | 0 <= i < |objects| :: objects[i].itemData.None? {
      return NoItems;
    }
    var counts := CountCodes(objects);
    if counts.keys == [] {
      return NoProductCodes;
    }
    var lines := BuildLines(objects, counts);
    LineTotalIsTotal(lines, objects, counts.keys);
    CountsAddUp(CodesOf(objects));
    return Lines(lines);
  }

  // ---------------------------------------------------------------------------
  // Background categories

  /** The categories that backgrounds name, without the empty ones, in
      background order (`backgroundsData.map(bg => bg.category).filter(Boolean)`). */
  function NamedCategories(bgs: seq<Background>): (r: seq<string>)
    ensures forall c :: c in r <==> c != "" && exists i | 0 <= i < |bgs| :: bgs[i].category == Some(c)
  {
    if bgs == [] then []
    else
      var init := bgs[..|bgs| - 1];
      var rest := NamedCategories(init);
      assert forall i | 0 <= i < |init| :: bgs[i] == init[i];
      if Truthy(bgs[|bgs| - 1].category) then rest + [bgs[|bgs| - 1].category.value] else rest
  }

  lemma StrLeOrder()
    ensures TotalPreorder(StrLe)
  {
    forall a, b ensures StrLe(a, b) || StrLe(b, a) {
      StrLeTotal(a, b);
    }
    forall a, b, c | StrLe(a, b) && StrLe(b, c) ensures StrLe(a, c) {
      StrLeTransitive(a, b, c);
    }
  }

  datatype CategoryOption = CategoryOption(name: string, count: nat)

  /** The dropdown options of `renderBackgroundCategories`. With a category
      list, one option per listed name in list order; without one, each
      non-empty category that a background names, once, in the default
      string order. Each option shows its number of backgrounds. */
  function DropdownOptions(bgs: seq<Background>, listed: seq<string>): (r: seq<CategoryOption>)
    ensures listed != [] ==> |r| == |listed| && forall i | 0 <= i < |r| :: r[i].name == listed[i]
    ensures listed == [] ==>
      var names := seq(|r|, i requires 0 <= i < |r| => r[i].name);
      && SortedBy(names, StrLe)
      && forall c :: multiset(names)[c] == if c in NamedCategories(bgs) then 1 else 0
    ensures forall i | 0 <= i < |r| :: r[i].count == Occurrences(Categories(bgs), r[i].name)
  {
    var names := if listed != [] then listed else SortedNames(bgs);
    var r := OptionsFor(bgs, names);
    assert seq(|r|, i requires 0 <= i < |r| => r[i].name) == names;
    r
  }

  /** Each named category once, in the default string order. */
  function SortedNames(bgs: seq<Background>): (names: seq<string>)
    ensures SortedBy(names, StrLe)
    ensures forall c :: multiset(names)[c] == if c in NamedCategories(bgs) then 1 else 0
  {
    StrLeOrder();
    FirstAppearanceOnce(NamedCategories(bgs));
    Sort(FirstAppearance(NamedCategories(bgs)), StrLe)
  }

  /** One option per name, with its number of backgrounds. */
  function OptionsFor(bgs: seq<Background>, names: seq<string>): (r: seq<CategoryOption>)
    ensures |r| == |names|
    ensures forall i | 0 <= i < |r| :: r[i].name == names[i] && r[i].count == Occurrences(Categories(bgs), names[i])
  {
    seq(|names|, i requires 0 <= i < |names| => CategoryOption(names[i], Occurrences(Categories(bgs), names[i])))
  }

  /** The backgrounds of category `c`, in order. */
  function OfCategory(bgs: seq<Background>, c: string): (r: seq<Background>)
    ensures forall b :: b in r <==> b in bgs && CategoryOf(b) == c
    ensures |r| == Occurrences(Categories(bgs), c)
  {
    if bgs == [] then []
    else
      var init := bgs[..|bgs| - 1];
      var last := bgs[|bgs| - 1];
      assert Categories(bgs) == Categories(init) + [CategoryOf(last)];
      OfCategory(init, c) + (if CategoryOf(last) == c then [last] else [])
  }

  /** The backgrounds of a category are `bgs.filter(...)`: those of the
      category in their original order, each as often as it occurs. */
  lemma {:induction false} OfCategoryIsFilter(bgs: seq<Background>, c: string)
    ensures SF.IsFilterOf(OfCategory(bgs, c), bgs, (b: Background) => CategoryOf(b) == c)
  {
    if bgs == [] {
      SF.Empty((b: Background) => CategoryOf(b) == c);
    } else {
      var init, last := bgs[..|bgs| - 1], bgs[|bgs| - 1];
      OfCategoryIsFilter(init, c);
      SF.Snoc(OfCategory(init, c), init, (b: Background) => CategoryOf(b) == c, last);
      SF.LastOff(bgs);
    }
  }

  /** `renderBackgrounds`: all backgrounds when no category is chosen,
      otherwise those of the chosen one. The count the dropdown shows next to
      a category is the number of backgrounds then listed. */
  function ShownBackgrounds(bgs: seq<Background>, selected: string): (r: seq<Background>)
    ensures selected == "" ==> r == bgs
    ensures selected != "" ==>
      && (forall b :: b in r <==> b in bgs && CategoryOf(b) == selected)
      && |r| == Occurrences(Categories(bgs), selected)
      && SF.IsFilterOf(r, bgs, (b: Background) => CategoryOf(b) == selected)
  {
    if selected == "" then bgs
    else
      OfCategoryIsFilter(bgs, selected);
      OfCategory(bgs, selected)
  }

  // ---------------------------------------------------------------------------
  // Uploading a custom background

  /** 10 MB. */
  const MaxUploadBytes: nat := 10 * 1024 * 1024

  datatype FileInfo = FileInfo(name: string, mimeType: string, size: nat)

  datatype UploadError = NoFile | NotAnImage | TooLarge | ReadFailed

  datatype CustomBackground = CustomBackground(id: string, name: string, image: string)

  /** `i` is the dot of a file extension: it is not the last character, and
      what follows it has neither a dot nor a slash. */
  predicate IsExtensionDot(s: string, i: int) {
    && 0 <= i < |s| - 1 && s[i] == '.'
    && forall j | i < j < |s| :: s[j] != '.' && s[j] != '/'
  }

  /** The dot where `/\.[^/.]+$/` matches, searching down from position `k`
      past characters that are neither dots nor slashes. */
  function ExtensionDot(s: string, k: nat): (r: Option<nat>)
    requires k <= |s|
    requires forall j | k <= j < |s| :: s[j] != '.' && s[j] != '/'
    ensures forall i :: r == Some(i) <==> IsExtensionDot(s, i)
  {
    if k == 0 then None
    else if s[k - 1] == '.' then (if k < |s| then Some(k - 1) else None)
    else if s[k - 1] == '/' then None
    else ExtensionDot(s, k - 1)
  }

  /** `name.replace(/\.[^/.]+$/, '')`: the last extension goes, if any. */
  function StripExtension(s: string): (r: string)
    ensures |r| <= |s| && r == s[..|r|]
    ensures r != s <==> exists i :: IsExtensionDot(s, i)
    ensures r != s ==> IsExtensionDot(s, |r|)
  {
    match ExtensionDot(s, |s|)
    case Some(i) => s[..i]
    case None => s
  }

  /** A base name followed by one extension gives back the base name. */
  lemma StripExtensionRoundTrip(base: string, ext: string)
    requires ext != [] && forall j | 0 <= j < |ext| :: ext[j] != '.' && ext[j] != '/'
    ensures StripExtension(base + "." + ext) == base
  {
    var s := base + "." + ext;
    assert IsExtensionDot(s, |base|);
  }

  /** `handleBackgroundUpload`, given the chosen file, the time stamp for
      the id and the data URL the reader produced (None when reading failed). */
  function UploadBackground(file: Option<FileInfo>, stamp: string, read: Option<string>)
    : (r: Result<CustomBackground, UploadError>)
    ensures r.Success? <==>
      && file.Some? && StartsWith(file.value.mimeType, "image/")
      && file.value.size <= MaxUploadBytes && read.Some?
    ensures file.Some? && !StartsWith(file.value.mimeType, "image/") ==> r == Failure(NotAnImage)
    ensures file.Some? && StartsWith(file.value.mimeType, "image/") && file.value.size > MaxUploadBytes ==>
      r == Failure(TooLarge)
    ensures r.Success? ==>
      r.value == CustomBackground("custom-" + stamp, StripExtension(file.value.name), read.value)
  {
    if file.None? then Failure(NoFile)
    else if !StartsWith(file.value.mimeType, "image/") then Failure(NotAnImage)
    else if file.value.size > MaxUploadBytes then Failure(TooLarge)
    else if read.None? then Failure(ReadFailed)
    else Success(CustomBackground("custom-" + stamp, StripExtension(file.value.name), read.value))
  }

  // ---------------------------------------------------------------------------
  // Resetting the items

  /** The flags of the objects that carry an item. */
  function ItemFlags(objects: seq<CanvasObject>): (r: seq<bool>)
    ensures |r| == |objects| && forall i | 0 <= i < |r| :: r[i] <==> objects[i].itemData.Some?
  {
    seq(|objects|, i requires 0 <= i < |objects| => objects[i].itemData.Some?)
  }

  lemma {:induction false} NoItemsKept(objects: seq<CanvasObject>, flags: seq<bool>)
    requires |flags| == |objects| && forall i | 0 <= i < |objects| :: flags[i] <==> objects[i].itemData.Some?
    ensures forall i | 0 <= i < |CM.Keep(objects, flags)| :: CM.Keep(objects, flags)[i].itemData.None?
  {
    if objects != [] {
      assert forall i | 0 <= i < |objects| - 1 :: objects[1..][i] == objects[i + 1] && flags[1..][i] == flags[i + 1];
      NoItemsKept(objects[1..], flags[1..]);
      var rest := CM.Keep(objects[1..], flags[1..]);
      var head: seq<CanvasObject> := if flags[0] then [] else [objects[0]];
      assert CM.Keep(objects, flags) == head + rest;
      forall i | 0 <= i < |head + rest| ensures (head + rest)[i].itemData.None? {
        if i < |head| {
          assert !flags[0] && (head + rest)[i] == objects[0];
        } else {
          assert (head + rest)[i] == rest[i - |head|];
        }
      }
    }
  }

  /** `handleResetItems`: after confirmation, every object that carries an
      item is removed through its own removal event; the background and the
      other objects stay, and the purchase list ends up empty. */
  function ResetItems(m: CM.Manager, confirmed: bool): (r: CM.Manager)
    requires CM.Valid(m)
    ensures CM.Valid(r) && r.entries == m.entries
    ensures (forall i | 0 <= i < |m.surface.objects| :: m.surface.objects[i].itemData.None?) || !confirmed ==>
      r == m
    ensures (exists i | 0 <= i < |m.surface.objects| :: m.surface.objects[i].itemData.Some?) && confirmed ==>
      && r.surface.objects == CM.Keep(m.surface.objects, ItemFlags(m.surface.objects))
      && (forall i | 0 <= i < |r.surface.objects| :: r.surface.objects[i].itemData.None?)
      && r.surface.backgroundImage == m.surface.backgroundImage
      && r.currentBackground == m.currentBackground
      && r.purchaseList.keys == []
  {
    var objects := m.surface.objects;
    if (forall i | 0 <= i < |objects| :: objects[i].itemData.None?) || !confirmed then m
    else
      var flags := ItemFlags(objects);
      var i :| 0 <= i < |objects| && objects[i].itemData.Some?;
      assert flags[i];
      assert CM.Count(flags) > 0 by { FlaggedCounted(flags, i); }
      var r := CM.RemoveEach(m, flags);
      NoItemsKept(objects, flags);
      CleanupWithoutItems(m.purchaseList, r.surface.objects);
      r
  }

  lemma {:induction false} FlaggedCounted(flags: seq<bool>, i: nat)
    requires i < |flags| && flags[i]
    ensures CM.Count(flags) > 0
  {
    if i > 0 {
      FlaggedCounted(flags[1..], i - 1);
    }
  }
}
