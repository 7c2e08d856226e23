/** The CMS's background-category service
    (cms/src/services/backgroundCategoryService.js) over an abstract document
    store: a map from document id to the stored record. Generated ids and the
    server time stamp are parameters; a query's answer is the list of
    documents in the order the database returned them. */
module CategoryService {
  import opened Wrappers
  import opened Text
  import opened Sorting
  import opened JsMap

  /** A stored category. Every field may be absent from a document. */
  datatype Category = Category(
    id: Option<string>,
    name: Option<string>,
    displayName: Option<string>,
    description: Option<string>,
    order: Option<int>,
    createdAt: Option<nat>,
    updatedAt: Option<nat>)

  type Store = map<string, Category>

  /** A query's answer: document ids with their records. */
  type Documents = seq<(string, Category)>

  /** `docs` lists every document of `store` once. */
  ghost predicate Lists(docs: Documents, store: Store) {
    && Distinct(seq(|docs|, i requires 0 <= i < |docs| => docs[i].0))
    && (forall i | 0 <= i < |docs| :: docs[i].0 in store && store[docs[i].0] == docs[i].1)
    && (forall id | id in store :: exists i | 0 <= i < |docs| :: docs[i].0 == id)
  }

  // ---------------------------------------------------------------------------
  // Listing

  /** `c.order || 0`. */
  function OrderOf(c: Category): int {
    if c.order.Some? then c.order.value else 0
  }

  /** The comparator `(a, b) => (a.order || 0) - (b.order || 0)`. */
  predicate OrderLe(a: Category, b: Category) {
    OrderOf(a) <= OrderOf(b)
  }

  lemma OrderLeIsPreorder()
    ensures TotalPreorder(OrderLe)
  {
  }

  /** `{ ...doc.data(), id: doc.id }`. */
  function WithId(doc: (string, Category)): (c: Category)
    ensures c.id == Some(doc.0)
    ensures c.(id := doc.1.id) == doc.1
  {
    doc.1.(id := Some(doc.0))
  }

  function WithIds(docs: Documents): (r: seq<Category>)
    ensures |r| == |docs| && forall i | 0 <= i < |docs| :: r[i] == WithId(docs[i])
  {
    seq(|docs|, i requires 0 <= i < |docs| => WithId(docs[i]))
  }

  /** `getCategories`. With the index on `order` the database answers in
      order and the records are taken as they come; without it the plain
      query's answer is sorted by order, a missing order counting as 0.
      Either way each record carries its document id, whatever id it
      stored. */
  function ListCategories(docs: Documents, indexed: bool): (r: seq<Category>)
    ensures |r| == |docs|
    ensures indexed ==> forall i | 0 <= i < |r| :: r[i].id == Some(docs[i].0) && r[i].(id := docs[i].1.id) == docs[i].1
    ensures !indexed ==> multiset(r) == multiset(WithIds(docs)) && SortedBy(r, OrderLe)
    ensures forall c | c in r :: exists i | 0 <= i < |docs| :: c == WithId(docs[i])
  {
    OrderLeIsPreorder();
    var r := if indexed then WithIds(docs) else Sort(WithIds(docs), OrderLe);
    forall c | c in r ensures exists i | 0 <= i < |docs| :: c == WithId(docs[i]) {
      assert c in multiset(r);
      assert c in WithIds(docs);
    }
    r
  }

  // ---------------------------------------------------------------------------
  // Creating

  /** What a caller passes to `createCategory`. */
  datatype CategoryInput = CategoryInput(
    name: Option<string>,
    displayName: Option<string>,
    description: Option<string>,
    order: Option<int>)

  /** The largest `order || 0` of a non-empty list. */
  function MaxOrder(cs: seq<Category>): (r: int)
    requires cs != []
    ensures forall i | 0 <= i < |cs| :: OrderOf(cs[i]) <= r
    ensures exists i | 0 <= i < |cs| :: OrderOf(cs[i]) == r
  {
    if |cs| == 1 then OrderOf(cs[0])
    else
      var m := MaxOrder(cs[1..]);
      assert forall i | 1 <= i < |cs| :: cs[i] == cs[1..][i - 1];
      if OrderOf(cs[0]) >= m then OrderOf(cs[0]) else m
  }

  /** The order a new category gets: one more than the largest existing
      order, or 1 when there is no category. */
  function NextOrder(existing: seq<Category>): (r: int)
    ensures existing == [] ==> r == 1
    ensures forall i | 0 <= i < |existing| :: OrderOf(existing[i]) < r
    ensures existing != [] ==> exists i | 0 <= i < |existing| :: OrderOf(existing[i]) == r - 1
  {
    if existing == [] then 1 else MaxOrder(existing) + 1
  }

  /** The record `createCategory` stores, given the listing it read, the
      generated id and the server time. */
  function NewCategory(existing: seq<Category>, input: CategoryInput, id: string, now: nat): (c: Category)
    ensures c.id == Some(id) && c.name == input.name
    ensures Truthy(input.displayName) ==> c.displayName == input.displayName
    ensures !Truthy(input.displayName) ==> c.displayName == input.name
    ensures c.description == Some(if Truthy(input.description) then input.description.value else "")
    ensures c.order == Some(NextOrder(existing))
    ensures c.createdAt == Some(now) && c.updatedAt == Some(now)
  {
    Category(Some(id), input.name, Or(input.displayName, input.name),
      Some(OrElse(input.description, "")), Some(NextOrder(existing)), Some(now), Some(now))
  }

  /** `createCategory`: the new record is stored under the generated id and
      returned; nothing else in the store changes. */
  function CreateCategory(store: Store, existing: seq<Category>, input: CategoryInput, id: string, now: nat)
    : (r: (Store, Category))
    ensures r.1 == NewCategory(existing, input, id, now)
    ensures r.0.Keys == store.Keys + {id} && r.0[id] == r.1
    ensures forall other | other in store && other != id :: r.0[other] == store[other]
  {
    var c := NewCategory(existing, input, id, now);
    (store[id := c], c)
  }

  /** An order the caller passes is ignored. */
  lemma CallerOrderIgnored(existing: seq<Category>, input: CategoryInput, a: Option<int>, b: Option<int>, id: string, now: nat)
    ensures NewCategory(existing, input.(order := a), id, now) == NewCategory(existing, input.(order := b), id, now)
  {
  }

  /** A category created from a listing orders after everything in it. */
  lemma CreatedComesLast(store: Store, docs: Documents, input: CategoryInput, id: string, now: nat)
    requires Lists(docs, store)
    ensures var c := CreateCategory(store, WithIds(docs), input, id, now).1;
      forall other | other in store :: OrderOf(store[other]) < OrderOf(c)
  {
    var existing := WithIds(docs);
    var next := NextOrder(existing);
    assert forall i | 0 <= i < |docs| :: OrderOf(docs[i].1) < next by {
      forall i | 0 <= i < |docs| ensures OrderOf(docs[i].1) < next {
        assert OrderOf(existing[i]) < next;
      }
    }
    forall other | other in store ensures OrderOf(store[other]) < next {
      var i :| 0 <= i < |docs| && docs[i].0 == other;
      assert docs[i].1 == store[other];
    }
  }

  // ---------------------------------------------------------------------------
  // Updating and deleting

  /** The fields an update names; an absent field is left alone. */
  datatype CategoryPatch = CategoryPatch(
    name: Option<string>,
    displayName: Option<string>,
    description: Option<string>,
    order: Option<int>)

  datatype StoreError = NotFound

  function Patch<T>(before: Option<T>, given: Option<T>): Option<T> {
    if given.Some? then given else before
  }

  /** `updateCategory`: the named fields and the update time change, the
      rest of the record and every other record stay. Updating a missing
      document fails. */
  function UpdateCategory(store: Store, id: string, patch: CategoryPatch, now: nat): (r: Result<Store, StoreError>)
    ensures r.Success? <==> id in store
    ensures r.Success? ==> r.value.Keys == store.Keys
    ensures r.Success? ==>
      var before := store[id];
      var c := r.value[id];
      && (forall other | other in store && other != id :: r.value[other] == store[other])
      && c.id == before.id && c.createdAt == before.createdAt && c.updatedAt == Some(now)
      && c.name == (if patch.name.Some? then patch.name else before.name)
      && c.displayName == (if patch.displayName.Some? then patch.displayName else before.displayName)
      && c.description == (if patch.description.Some? then patch.description else before.description)
      && c.order == (if patch.order.Some? then patch.order else before.order)
  {
    if id !in store then Failure(NotFound)
    else
      var before := store[id];
      Success(store[id := before.(
        name := Patch(before.name, patch.name),
        displayName := Patch(before.displayName, patch.displayName),
        description := Patch(before.description, patch.description),
        order := Patch(before.order, patch.order),
        updatedAt := Some(now))])
  }

  /** An update that names nothing only moves the update time. */
  lemma EmptyPatchTouchesOnlyTime(store: Store, id: string, now: nat)
    requires id in store
    ensures UpdateCategory(store, id, CategoryPatch(None, None, None, None), now)
      == Success(store[id := store[id].(updatedAt := Some(now))])
  {
  }

  /** `deleteCategory`: that document goes, every other stays. Deleting a
      missing document succeeds and changes nothing. */
  function DeleteCategory(store: Store, id: string): (r: Store)
    ensures r.Keys == store.Keys - {id}
    ensures forall other | other in r :: r[other] == store[other]
    ensures id !in store ==> r == store
  {
    store - {id}
  }

  // ---------------------------------------------------------------------------
  // Reordering

  /** Position `i` is the last at which its id is listed. */
  predicate LastAt(ids: seq<string>, i: nat)
    requires i < |ids|
  {
    forall j | i < j < |ids| :: ids[j] != ids[i]
  }

  /** `reorderCategories(ids)`: the i-th listed document gets order i + 1;
      an id listed twice keeps the order of its last position. Each update is
      independent, so a missing id fails the whole call while every present
      one is still updated. */
  function Reorder(store: Store, ids: seq<string>, now: nat): (r: (Store, bool))
    ensures r.0.Keys == store.Keys
    ensures r.1 <==> forall i | 0 <= i < |ids| :: ids[i] in store
    ensures forall id | id in store :: r.0[id].(order := store[id].order, updatedAt := store[id].updatedAt) == store[id]
    ensures forall id | id in store && id !in ids :: r.0[id] == store[id]
    ensures forall i | 0 <= i < |ids| && ids[i] in store && LastAt(ids, i) ::
      r.0[ids[i]] == store[ids[i]].(order := Some(i + 1), updatedAt := Some(now))
  {
    if ids == [] then (store, true)
    else
      var n := |ids| - 1;
      var prev := Reorder(store, ids[..n], now);
      var last := ids[n];
      var s := if last in prev.0 then prev.0[last := prev.0[last].(order := Some(n + 1), updatedAt := Some(now))] else prev.0;
      ReorderStep(store, ids, now, prev.0, s);
      AllPresentStep(store, ids, ids[..n]);
      (s, prev.1 && last in store)
  }

  /** Every listed id is present exactly when every id before the last one
      is and the last one is too. */
  lemma AllPresentStep(store: Store, ids: seq<string>, init: seq<string>)
    requires ids != [] && init == ids[..|ids| - 1]
    ensures (forall i | 0 <= i < |ids| :: ids[i] in store) <==>
      (forall i | 0 <= i < |init| :: init[i] in store) && ids[|ids| - 1] in store
  {
    assert forall i | 0 <= i < |init| :: init[i] == ids[i];
  }

  /** One more listed id: the proof step of `Reorder`. */
  lemma ReorderStep(store: Store, ids: seq<string>, now: nat, prev: Store, s: Store)
    requires ids != []
    requires prev.Keys == store.Keys
    requires forall id | id in store :: prev[id].(order := store[id].order, updatedAt := store[id].updatedAt) == store[id]
    requires forall id | id in store && id !in ids[..|ids| - 1] :: prev[id] == store[id]
    requires forall i | 0 <= i < |ids| - 1 && ids[i] in store && LastAt(ids[..|ids| - 1], i) ::
      prev[ids[i]] == store[ids[i]].(order := Some(i + 1), updatedAt := Some(now))
    requires var last := ids[|ids| - 1];
      s == if last in prev then prev[last := prev[last].(order := Some(|ids|), updatedAt := Some(now))] else prev
    ensures s.Keys == store.Keys
    ensures forall id | id in store :: s[id].(order := store[id].order, updatedAt := store[id].updatedAt) == store[id]
    ensures forall id | id in store && id !in ids :: s[id] == store[id]
    ensures forall i | 0 <= i < |ids| && ids[i] in store && LastAt(ids, i) ::
      s[ids[i]] == store[ids[i]].(order := Some(i + 1), updatedAt := Some(now))
  {
    var n := |ids| - 1;
    var init := ids[..n];
    var last := ids[n];
    assert ids == init + [last];
    forall id | id in store && id !in ids ensures s[id] == store[id] {
      assert id !in init && id != last;
    }
    forall i | 0 <= i < |ids| && ids[i] in store && LastAt(ids, i)
      ensures s[ids[i]] == store[ids[i]].(order := Some(i + 1), updatedAt := Some(now))
    {
      if i < n {
        assert ids[n] != ids[i];
        assert LastAt(init, i) by {
          forall j | i < j < n ensures init[j] != init[i] {
            assert init[j] == ids[j];
          }
        }
      } else {
        assert prev[last].(order := store[last].order, updatedAt := store[last].updatedAt) == store[last];
      }
    }
  }

  /** The documents listed in the order given to `reorderCategories`. */
  function InOrder(store: Store, ids: seq<string>): (docs: Documents)
    requires forall i | 0 <= i < |ids| :: ids[i] in store
  {
    seq(|ids|, i requires 0 <= i < |ids| => (ids[i], store[ids[i]]))
  }

  /** After reordering a list of distinct ids, the fallback listing of those
      documents keeps the list's order: their orders are 1..n. */
  lemma ReorderedListing(store: Store, ids: seq<string>, now: nat)
    requires Distinct(ids)
    requires forall i | 0 <= i < |ids| :: ids[i] in store
    ensures var after := Reorder(store, ids, now).0;
      && (forall i | 0 <= i < |ids| :: OrderOf(after[ids[i]]) == i + 1)
      && ListCategories(InOrder(after, ids), false) == WithIds(InOrder(after, ids))
  {
    var after := Reorder(store, ids, now).0;
    forall i | 0 <= i < |ids| ensures OrderOf(after[ids[i]]) == i + 1 {
      assert LastAt(ids, i);
    }
    var listed := WithIds(InOrder(after, ids));
    OrderLeIsPreorder();
    assert SortedBy(listed, OrderLe) by {
      forall i, j | 0 <= i < j < |listed| ensures OrderLe(listed[i], listed[j]) {
        assert OrderOf(listed[i]) == i + 1 && OrderOf(listed[j]) == j + 1;
      }
    }
    SortOfSortedIsIdentity(listed, OrderLe);
  }

  // ---------------------------------------------------------------------------
  // Default categories

  /** The eleven default category names, in their listed order. */
  const DefaultNames: seq<string> := [
    "기본배경", "키링", "스트랩", "모루인형", "비녀/뒤꽂이", "팔찌",
    "목걸이", "반지", "귀걸이", "데코덴 케이스", "스마트톡"]

  /** The input for the i-th default: name and display name alike, order i + 1. */
  function DefaultInput(i: nat): (input: CategoryInput)
    requires i < |DefaultNames|
    ensures input.name == Some(DefaultNames[i]) && input.displayName == Some(DefaultNames[i])
  {
    CategoryInput(Some(DefaultNames[i]), Some(DefaultNames[i]), None, Some(i + 1))
  }

  /** Creates the defaults from `i` on: the i-th reads `seen[i]` and is
      stored under `ids[i]`. */
  function CreateDefaults(store: Store, seen: seq<seq<Category>>, ids: seq<string>, now: nat, i: nat)
    : (r: (Store, seq<Category>))
    requires |seen| == |ids| == |DefaultNames| && i <= |DefaultNames|
    ensures |r.1| == |DefaultNames| - i
    decreases |DefaultNames| - i
  {
    if i == |DefaultNames| then (store, [])
    else
      var c := NewCategory(seen[i], DefaultInput(i), ids[i], now);
      var rest := CreateDefaults(store[ids[i] := c], seen, ids, now, i + 1);
      (rest.0, [c] + rest.1)
  }

  /** The created records are the defaults from the i-th on, each made from
      what its creation saw. */
  lemma {:induction false} CreateDefaultsList(store: Store, seen: seq<seq<Category>>, ids: seq<string>, now: nat, i: nat)
    requires |seen| == |ids| == |DefaultNames| && i <= |DefaultNames|
    ensures var r := CreateDefaults(store, seen, ids, now, i).1;
      forall j | i <= j < |DefaultNames| :: r[j - i] == NewCategory(seen[j], DefaultInput(j), ids[j], now)
    decreases |DefaultNames| - i
  {
    if i < |DefaultNames| {
      var c := NewCategory(seen[i], DefaultInput(i), ids[i], now);
      var rest := CreateDefaults(store[ids[i] := c], seen, ids, now, i + 1).1;
      CreateDefaultsList(store[ids[i] := c], seen, ids, now, i + 1);
      var r := CreateDefaults(store, seen, ids, now, i).1;
      assert r == [c] + rest;
      forall j | i < j < |DefaultNames|
        ensures r[j - i] == NewCategory(seen[j], DefaultInput(j), ids[j], now)
      {
        assert r[j - i] == rest[j - (i + 1)];
      }
    }
  }

  /** The documents afterwards are those before and the new ids. */
  lemma {:induction false} CreateDefaultsKeys(store: Store, seen: seq<seq<Category>>, ids: seq<string>, now: nat, i: nat)
    requires |seen| == |ids| == |DefaultNames| && i <= |DefaultNames|
    ensures var r := CreateDefaults(store, seen, ids, now, i).0;
      forall id :: id in r <==> id in store || id in ids[i..]
    decreases |DefaultNames| - i
  {
    if i < |DefaultNames| {
      var next := store[ids[i] := NewCategory(seen[i], DefaultInput(i), ids[i], now)];
      CreateDefaultsKeys(next, seen, ids, now, i + 1);
      assert CreateDefaults(store, seen, ids, now, i).0 == CreateDefaults(next, seen, ids, now, i + 1).0;
      SuffixMembers(ids, i);
    } else {
      assert ids[i..] == [];
    }
  }

  /** A suffix from position `i` holds the element there and the suffix
      after it. */
  lemma SuffixMembers(ids: seq<string>, i: nat)
    requires i < |ids|
    ensures forall id :: id in ids[i..] <==> id == ids[i] || id in ids[i + 1..]
  {
    assert ids[i..] == [ids[i]] + ids[i + 1..];
  }

  /** Every document outside the new ids is kept as it was. */
  lemma {:induction false} CreateDefaultsKeeps(store: Store, seen: seq<seq<Category>>, ids: seq<string>, now: nat, i: nat)
    requires |seen| == |ids| == |DefaultNames| && i <= |DefaultNames|
    ensures var r := CreateDefaults(store, seen, ids, now, i).0;
      forall id | id in store && id !in ids[i..] :: id in r && r[id] == store[id]
    decreases |DefaultNames| - i
  {
    if i < |DefaultNames| {
      var next := store[ids[i] := NewCategory(seen[i], DefaultInput(i), ids[i], now)];
      CreateDefaultsKeeps(next, seen, ids, now, i + 1);
      var r := CreateDefaults(store, seen, ids, now, i).0;
      assert r == CreateDefaults(next, seen, ids, now, i + 1).0;
      forall id | id in store && id !in ids[i..] ensures id in r && r[id] == store[id] {
        assert id != ids[i] && id !in ids[i + 1..];
        assert id in next && next[id] == store[id];
      }
    }
  }

  /** `initializeDefaultCategories`: with any category present, nothing is
      created and the listing is returned; otherwise the eleven defaults are
      created. The creations run concurrently: `seen[i]` is the listing the
      i-th creation read before writing, from which it takes its order. */
  function InitializeDefaults(store: Store, existing: seq<Category>, seen: seq<seq<Category>>, ids: seq<string>, now: nat)
    : (r: (Store, seq<Category>))
    requires |seen| == |ids| == |DefaultNames|
    ensures existing != [] ==> r == (store, existing)
    ensures existing == [] ==>
      && |r.1| == |DefaultNames|
      && (forall i | 0 <= i < |DefaultNames| ::
            && r.1[i].name == Some(DefaultNames[i]) && r.1[i].displayName == Some(DefaultNames[i])
            && r.1[i].id == Some(ids[i]) && r.1[i].description == Some("")
            && r.1[i].order == Some(NextOrder(seen[i])))
      && (forall id :: id in r.0 <==> id in store || id in ids)
      && forall id | id in store && id !in ids :: r.0[id] == store[id]
  {
    if existing != [] then (store, existing)
    else
      DefaultsCreated(store, seen, ids, now);
      CreateDefaults(store, seen, ids, now, 0)
  }

  /** Every default name is non-empty, so it is also the display name. */
  lemma DefaultNamesNonEmpty()
    ensures forall i | 0 <= i < |DefaultNames| :: DefaultNames[i] != ""
  {
  }

  /** All eleven defaults, created from an empty start. */
  lemma DefaultsCreated(store: Store, seen: seq<seq<Category>>, ids: seq<string>, now: nat)
    requires |seen| == |ids| == |DefaultNames|
    ensures var r := CreateDefaults(store, seen, ids, now, 0);
      && |r.1| == |DefaultNames|
      && (forall i | 0 <= i < |DefaultNames| ::
            && r.1[i].name == Some(DefaultNames[i]) && r.1[i].displayName == Some(DefaultNames[i])
            && r.1[i].id == Some(ids[i]) && r.1[i].description == Some("")
            && r.1[i].order == Some(NextOrder(seen[i])))
      && (forall id :: id in r.0 <==> id in store || id in ids)
      && forall id | id in store && id !in ids :: r.0[id] == store[id]
  {
    var r := CreateDefaults(store, seen, ids, now, 0);
    CreateDefaultsList(store, seen, ids, now, 0);
    CreateDefaultsKeys(store, seen, ids, now, 0);
    CreateDefaultsKeeps(store, seen, ids, now, 0);
    assert ids[0..] == ids;
    DefaultNamesNonEmpty();
    forall i | 0 <= i < |DefaultNames|
      ensures && r.1[i].name == Some(DefaultNames[i]) && r.1[i].displayName == Some(DefaultNames[i])
              && r.1[i].id == Some(ids[i]) && r.1[i].description == Some("")
              && r.1[i].order == Some(NextOrder(seen[i]))
    {
      assert r.1[i - 0] == NewCategory(seen[i], DefaultInput(i), ids[i], now);
    }
  }

  /** When every creation reads the store before any of them writes, all
      eleven defaults get order 1, not the order listed with them. */
  lemma DefaultsRacingAllGetOrderOne(store: Store, ids: seq<string>, now: nat)
    requires |ids| == |DefaultNames|
    ensures var r := InitializeDefaults(store, [], seq(|DefaultNames|, _ => []), ids, now);
      forall i | 0 <= i < |DefaultNames| :: r.1[i].order == Some(1) && DefaultInput(i).order == Some(i + 1)
  {
  }

  /** When each creation sees the ones before it, the defaults get orders
      1..11 in their listed order. */
  lemma DefaultsInSequenceGetListedOrder(store: Store, seen: seq<seq<Category>>, ids: seq<string>, now: nat)
    requires |seen| == |ids| == |DefaultNames|
    requires forall i | 0 <= i < |seen| :: |seen[i]| == i && forall j | 0 <= j < i :: OrderOf(seen[i][j]) == j + 1
    ensures var r := InitializeDefaults(store, [], seen, ids, now);
      forall i | 0 <= i < |DefaultNames| :: r.1[i].order == DefaultInput(i).order
  {
    forall i | 0 <= i < |DefaultNames| ensures NextOrder(seen[i]) == i + 1 {
      if i > 0 {
        var k :| 0 <= k < |seen[i]| && OrderOf(seen[i][k]) == NextOrder(seen[i]) - 1;
        assert OrderOf(seen[i][i - 1]) < NextOrder(seen[i]);
      }
    }
  }
}
