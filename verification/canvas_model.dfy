/** The values the canvas manager works with (canvas-manager.js): catalogue
    item data, objects on the drawing surface, the item key that groups
    objects into purchasable units, and the purchase list with its
    reconciliation against the surface (`getItemKey`, `cleanupPurchaseList`). */
module CanvasModel {
  import opened Wrappers
  import opened Text
  import opened JsMap

  /** Surface size given to the drawing library at start-up. */
  const CanvasWidth: int := 1400
  const CanvasHeight: int := 1000
  /** Distance between successive images of one item. */
  const ImageOffset: int := 30
  /** Distance of a duplicate from its original. */
  const DuplicateOffset: int := 20

  /** The fields of a catalogue item that the canvas and the cart read. An
      absent or empty field is falsy. `images` holds the `url` of each entry
      of the item's image list. */
  datatype ItemData = ItemData(
    id: Option<string>,
    name: Option<string>,
    selectedSize: Option<string>,
    images: seq<Option<string>>,
    src: Option<string>,
    productCode: Option<string>,
    productName: Option<string>,
    displayInfo: Option<string>)

  /** The drawing library's own part of an object, kept opaque except for the
      image source and position that the manager sets. */
  datatype Visual = Visual(src: string, left: int, top: int)

  /** An object on the surface; images placed from the catalogue carry the
      item they were placed from. */
  datatype CanvasObject = CanvasObject(visual: Visual, itemData: Option<ItemData>)

  /** A background descriptor as listed by the background loader, or built
      from an uploaded file. */
  datatype Background = Background(
    id: Option<string>,
    name: Option<string>,
    src: Option<string>,
    category: Option<string>)

  // ---------------------------------------------------------------------------
  // Item key

  /** `itemData.id || itemData.name`, as the template literal renders it. */
  function IdPart(d: ItemData): string {
    Render(Or(d.id, d.name))
  }

  /** `itemData.selectedSize || ''`. */
  function SizePart(d: ItemData): string {
    OrElse(d.selectedSize, "")
  }

  /** `getItemKey`. */
  function ItemKey(d: ItemData): string {
    IdPart(d) + "_" + SizePart(d)
  }

  /** For items of the same size, the key tells identities apart exactly:
      two such items share a key if and only if they have the same id (or,
      lacking one, the same name). */
  lemma ItemKeyIdentity(a: ItemData, b: ItemData)
    requires SizePart(a) == SizePart(b)
    ensures ItemKey(a) == ItemKey(b) <==> IdPart(a) == IdPart(b)
  {
    if ItemKey(a) == ItemKey(b) {
      var n := |IdPart(a)|;
      assert |IdPart(b)| == n;
      assert ItemKey(a)[..n] == IdPart(a);
      assert ItemKey(b)[..n] == IdPart(b);
    }
  }

  /** Across sizes the key is ambiguous: an id ending in `_` and some text
      `t` renders like the shorter id with a size starting with `t` and `_`,
      so two different items, or one item in two sizes, can share one
      purchase entry. */
  lemma KeysCollideAcrossSizes(a: ItemData, b: ItemData, t: string)
    requires IdPart(a) == IdPart(b) + "_" + t
    requires SizePart(b) == t + "_" + SizePart(a)
    ensures ItemKey(a) == ItemKey(b)
    ensures IdPart(a) != IdPart(b) && SizePart(a) != SizePart(b)
  {
  }

  /** An instance: id `"a_b"` without a size and id `"a"` in size `"b_"`
      both get the key `"a_b_"`. */
  lemma KeyCollisionInstance(a: ItemData, b: ItemData)
    requires a.id == Some("a_b") && a.selectedSize.None?
    requires b.id == Some("a") && b.selectedSize == Some("b_")
    ensures ItemKey(a) == ItemKey(b) == "a_b_"
    ensures IdPart(a) != IdPart(b)
  {
  }

  predicate HasKey(o: CanvasObject, k: string) {
    o.itemData.Some? && ItemKey(o.itemData.value) == k
  }

  /** Some object on the surface belongs to the purchasable unit `k`. */
  predicate OnCanvas(objects: seq<CanvasObject>, k: string) {
    exists i | 0 <= i < |objects| :: HasKey(objects[i], k)
  }

  // ---------------------------------------------------------------------------
  // Purchase list

  /** Purchase entries are shared objects: the live list and every history
      snapshot refer to them, so an entry is named by its position in the
      manager's entry store. */
  type Ref = nat

  datatype Entry = Entry(itemData: ItemData, quantity: int)

  /** `purchaseList`: item key to entry, in insertion order. */
  type PurchaseList = OrderedMap<string, Ref>

  /** The keys of `keys` that no object carries, in order (`itemKeysToRemove`). */
  function AbsentKeys(keys: seq<string>, objects: seq<CanvasObject>): (r: seq<string>)
    ensures forall k :: k in r <==> k in keys && !OnCanvas(objects, k)
  {
    if keys == [] then []
    else if OnCanvas(objects, keys[0]) then AbsentKeys(keys[1..], objects)
    else [keys[0]] + AbsentKeys(keys[1..], objects)
  }

  /** The elements of `s` that are not in `ks`, in order. */
  function Filter(s: seq<string>, ks: seq<string>): (r: seq<string>)
    ensures forall x :: x in r <==> x in s && x !in ks
  {
    if s == [] then []
    else if s[0] in ks then Filter(s[1..], ks)
    else [s[0]] + Filter(s[1..], ks)
  }

  lemma {:induction false} FilterWithout(s: seq<string>, k: string, ks: seq<string>)
    ensures Filter(Without(s, k), ks) == Filter(s, [k] + ks)
  {
    if s != [] {
      FilterWithout(s[1..], k, ks);
    }
  }

  /** Deletes the keys one after another. */
  function DeleteAll(pl: PurchaseList, ks: seq<string>): (r: PurchaseList)
    requires pl.Valid()
    ensures r.Valid()
    ensures r.keys == Filter(pl.keys, ks)
    ensures r.values == pl.values - (set k | k in ks)
    decreases |ks|
  {
    if ks == [] then
      assert Filter(pl.keys, ks) == pl.keys by { FilterNothing(pl.keys); }
      pl
    else
      DeleteValid(pl, ks[0]);
      FilterWithout(pl.keys, ks[0], ks[1..]);
      assert [ks[0]] + ks[1..] == ks;
      DeleteAll(pl.Delete(ks[0]), ks[1..])
  }

  lemma {:induction false} FilterNothing(s: seq<string>)
    ensures Filter(s, []) == s
  {
    if s != [] {
      FilterNothing(s[1..]);
    }
  }

  /** The keys of `s` that some object carries, in order. */
  function KeepOnCanvas(s: seq<string>, objects: seq<CanvasObject>): seq<string>
  {
    if s == [] then []
    else if OnCanvas(objects, s[0]) then [s[0]] + KeepOnCanvas(s[1..], objects)
    else KeepOnCanvas(s[1..], objects)
  }

  lemma {:induction false} FilterAbsentIsKeep(s: seq<string>, ks: seq<string>, objects: seq<CanvasObject>)
    requires forall x :: x in s ==> (x in ks <==> !OnCanvas(objects, x))
    ensures Filter(s, ks) == KeepOnCanvas(s, objects)
  {
    if s != [] {
      FilterAbsentIsKeep(s[1..], ks, objects);
    }
  }

  /** `cleanupPurchaseList`: exactly the keys that some object still carries
      survive, with their entries and in their order. */
  function Cleanup(pl: PurchaseList, objects: seq<CanvasObject>): (r: PurchaseList)
    requires pl.Valid()
    ensures r.Valid()
    ensures forall k :: r.Has(k) <==> pl.Has(k) && OnCanvas(objects, k)
    ensures forall k :: r.Has(k) ==> pl.Has(k) && r.values[k] == pl.values[k]
    ensures r.keys == KeepOnCanvas(pl.keys, objects)
  {
    var absent := AbsentKeys(pl.keys, objects);
    FilterAbsentIsKeep(pl.keys, absent, objects);
    DeleteAll(pl, absent)
  }

  /** Every key of the list is carried by some object on the surface. */
  ghost predicate Reconciled(pl: PurchaseList, objects: seq<CanvasObject>) {
    forall k :: pl.Has(k) ==> OnCanvas(objects, k)
  }

  /** A list cleaned against objects none of which carries an item is empty. */
  lemma CleanupWithoutItems(pl: PurchaseList, objects: seq<CanvasObject>)
    requires pl.Valid()
    requires forall i | 0 <= i < |objects| :: objects[i].itemData.None?
    ensures Cleanup(pl, objects).keys == []
  {
    var r := Cleanup(pl, objects);
    if r.keys != [] {
      assert r.Has(r.keys[0]);
    }
  }

  lemma {:induction false} KeepAll(s: seq<string>, objects: seq<CanvasObject>)
    requires forall k :: k in s ==> OnCanvas(objects, k)
    ensures KeepOnCanvas(s, objects) == s
  {
    if s != [] {
      KeepAll(s[1..], objects);
    }
  }

  /** A reconciled list is left as it is; in particular a second cleanup
      after the first changes nothing. */
  lemma CleanupOfReconciled(pl: PurchaseList, objects: seq<CanvasObject>)
    requires pl.Valid() && Reconciled(pl, objects)
    ensures Cleanup(pl, objects) == pl
  {
    KeepAll(pl.keys, objects);
    var r := Cleanup(pl, objects);
    assert r.values == pl.values;
  }

  /** `cleanupPurchaseList` is idempotent. */
  lemma CleanupIdempotent(pl: PurchaseList, objects: seq<CanvasObject>)
    requires pl.Valid()
    ensures Reconciled(Cleanup(pl, objects), objects)
    ensures Cleanup(Cleanup(pl, objects), objects) == Cleanup(pl, objects)
  {
    CleanupOfReconciled(Cleanup(pl, objects), objects);
  }
}
