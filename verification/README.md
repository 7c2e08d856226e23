# ART canvas designer and background CMS — a Dafny model

This project models the core of ART. ART has two parts:

- **The designer.** Users place catalogue items as images on a drawing surface. They can set a background, undo and redo, and send the items to a shop's cart.
- **The CMS.** Administrators manage the backgrounds and the categories the backgrounds are filed under.

Every operation is a pure function, or a short method with loop invariants, over immutable data. The modules follow the source files:

| module | file | what it holds |
|---|---|---|
| `CanvasModel` | canvas_model.dfy | Item data, surface objects, backgrounds, the item key (`getItemKey`) and the purchase list with its reconciliation against the surface (`cleanupPurchaseList`). |
| `CanvasManager` | canvas_manager.dfy | The canvas manager as a state machine. See below. |
| `History` | history.dfy | The undo history: at most 50 snapshots, with a cursor. |
| `Filters` | filters.dfy | The catalogue filter: ten filters, the colour multi-select with its `'all'` sentinel, the sort by area and the item-count line. |
| `BackgroundCategories` | background_categories.dfy | The category a background is counted under (`'기타'` when it has none) and the per-category counts. |
| `App` | app.dfy | The designer page: cart aggregation by product code, the category dropdown, the background list filter, the custom-background upload and resetting the items. |
| `CategoryService` | category_service.dfy | The background-category service over a document store: list, create, update, delete, reorder, and seed the defaults. |
| `CategoryLoader` | category_loader.dfy | The designer's category loader: an ordered query with an unordered fallback. |
| `BackgroundsPage` | backgrounds_page.dfy | The CMS backgrounds page: the list shown for a category, the dropdown counts, the category forms, the category lookup and the zero-size label. |
| `Text`, `JsMap`, `Tally`, `Sorting`, `StableFilter`, `Wrappers` | | JavaScript values the code relies on: truthiness, `trim`, string order, an insertion-ordered `Map`, counting keys, a sort specified by permutation plus sortedness, and `Array.prototype.filter` specified as an order-keeping subsequence that keeps every copy of a passing value. |

`CanvasManager` holds four things:

- the surface;
- the purchase list, whose entries live in a shared store;
- the history;
- the `isLoadingState` flag.

Snapshots name purchase entries by their position in the shared store. A quantity change therefore shows through every snapshot that names the entry, as it does in the JavaScript, where snapshots hold the same entry objects.

The drawing library is modelled by what the code relies on from it:

- `add` fires `object:added`.
- `remove` fires `object:removed` once per object.
- `clear` and `loadFromJSON` remove every object, firing `object:removed` for each.
- `loadFromJSON` then inserts the snapshot's objects, firing `object:added` for each.
- While `isLoadingState` is set, the handlers do nothing.

The outside world enters as parameters:

- which objects are selected, as positions;
- whether each image load succeeded;
- the data URL a file read produced;
- the user's answer to a confirmation;
- the text typed into a form field;
- generated ids and timestamps;
- each database query's answer, as the list of documents it returned.

## Model

| member | source | states |
|---|---|---|
| CanvasModel.ItemKeyIdentity | canvas-manager.js:278-282 | For two items of the same selected size, their keys are equal exactly when their `id \|\| name` parts are equal, so one purchase entry groups all images of one catalogue item and size. |
| CanvasModel.KeysCollideAcrossSizes | canvas-manager.js:278-282 | An id ending in `_` plus some text, without that text in the size, renders the same key as the shorter id with the text moved into the size. |
| CanvasModel.KeyCollisionInstance | canvas-manager.js:278-282 | Id `"a_b"` without a size and id `"a"` in size `"b_"` both get the key `"a_b_"`. |
| CanvasModel.AbsentKeys | canvas-manager.js:285-297 | The keys chosen for deletion are exactly the listed keys that no object on the surface carries. |
| CanvasModel.DeleteAll | canvas-manager.js:298-303 | Deleting a batch of keys keeps the map well formed and keeps every other key in its original insertion order with its entry. |
| CanvasModel.Cleanup | canvas-manager.js:285-304 | After cleanup, a key is listed exactly when it was listed before and some object still carries it. Its entry is unchanged and the surviving keys keep their order. |
| CanvasModel.CleanupIdempotent | canvas-manager.js:285-304 | A cleaned-up list is reconciled with the surface, and a second cleanup changes nothing. |
| CanvasModel.CleanupOfReconciled | canvas-manager.js:285-304 | Cleaning up a list that is already reconciled leaves it as it is. |
| CanvasModel.FilterAbsentIsKeep | canvas-manager.js:285-304 | Deleting the absent keys is the same as keeping the keys still on the surface. |
| History.Push | canvas-manager.js:445-462 | A save drops the redo branch, appends the snapshot and keeps at most the 50 newest. The cursor ends on the new snapshot and the older ones keep their order. |
| History.PushMembers | canvas-manager.js:445-462 | A save introduces no snapshot other than the one saved. |
| History.PushDiscardsRedoBranch | canvas-manager.js:446-448 | Saving after an undo cuts off every snapshot after the cursor, so redo is no longer possible. |
| History.PushAllKeepsNewest | canvas-manager.js:456-460 | After any number of saves from an empty history, exactly the newest 50 snapshots remain, in order. |
| History.Undo | canvas-manager.js:464-469 | Undo moves the cursor back one when it can, and otherwise changes nothing. |
| History.Redo | canvas-manager.js:471-476 | Redo moves the cursor forward one when it can, and otherwise changes nothing. |
| History.RedoUndo | canvas-manager.js:464-476 | A redo after an undo gives back the same history. |
| History.UndoRedo | canvas-manager.js:464-476 | An undo after a redo gives back the same history. |
| History.PushInitial | canvas-manager.js:445-462 | The first save on an empty history leaves exactly that snapshot, under the cursor. |
| CanvasManager.Init | canvas-manager.js:4-47 | A new manager has an empty surface, an empty purchase list and one snapshot of that empty state, as the first save gives. |
| CanvasManager.SaveState | canvas-manager.js:445-462 | A save leaves the surface and list alone and makes the snapshot under the cursor exactly the current surface and list. The objects keep their items in the snapshot, as the corrected serialisation of the Findings row does. |
| CanvasManager.SaveStateAsWritten | canvas-manager.js:445-462 | As written, the snapshot under the cursor holds the full list but the objects without their items. |
| CanvasManager.SaveUnlessLoading | canvas-manager.js:229-242 | The added and modified handlers save unless a snapshot is loading, and touch nothing but the history. |
| CanvasManager.OnRemoved | canvas-manager.js:235-241 | The removed handler cleans up the list and saves, unless loading. The surface and the entries are untouched. |
| CanvasManager.AddObject | canvas-manager.js:229-234 | Adding puts the object on top. Unless loading, the history gains one snapshot showing it. |
| CanvasManager.RemoveAt | canvas-manager.js:235-241 | Removing one object takes it out of the stack. Unless loading, the list is cleaned up against what remains and a snapshot of that is saved. |
| CanvasManager.RemoveFlaggedObjects | canvas-manager.js:235-241 | Removing the flagged objects one at a time leaves exactly the unflagged ones, in order. |
| CanvasManager.RemoveFlaggedNone | canvas-manager.js:235-241 | With nothing flagged, the removals change nothing. |
| CanvasManager.RemoveFlaggedCursor | canvas-manager.js:235-241 | With events enabled, each removal saves its own snapshot: the cursor moves on by the number of objects removed, up to the 50-snapshot cap. |
| CanvasManager.RemoveFlaggedWithEvents | canvas-manager.js:235-241 | With events enabled and at least one object flagged, the last snapshot shows the survivors. The list ends up as the original list cleaned up against them, as one cleanup would leave it. |
| CanvasManager.RemoveEach | app.js:571-574 | Removing each flagged object in turn leaves exactly the unflagged ones. The list is cleaned up against them and the history grows by one snapshot per removal. |
| CanvasManager.RemoveSilently | canvas-manager.js:523-532 | Removing with events silenced changes only the objects on the surface. |
| JsMap.EntriesRoundTrip | canvas-manager.js:482-487 | Rebuilding a map from a copy of its entries gives back the same map, insertion order included. |
| CanvasManager.Restore | canvas-manager.js:482-487 | A snapshot's list is rebuilt with exactly the keys it names. A snapshot without a list gives an empty list. |
| CanvasManager.LoadState | canvas-manager.js:478-497 | Loading a snapshot shows exactly its surface and list, clears the loading flag and leaves the history alone. |
| CanvasManager.Undo | canvas-manager.js:464-469 | Undo shows the previous snapshot's surface and list. On the oldest snapshot it changes nothing. |
| CanvasManager.Redo | canvas-manager.js:471-476 | Redo shows the next snapshot's surface and list. On the newest snapshot it changes nothing. |
| CanvasManager.SaveThenLoad | canvas-manager.js:445-497 | With the corrected serialisation, loading a checkpoint just saved gives back the same surface and purchase list. |
| CanvasManager.ReloadAsWrittenLosesItems | canvas-manager.js:445-497 | As written, loading a checkpoint just saved gives back the same number of objects with the same pictures, and the same purchase list, but no object carries an item. |
| CanvasManager.ReloadAsWrittenEmptiesList | canvas-manager.js:445-497 | After that load, a list that names any key is no longer reconciled with the surface, and the cleanup of the next removal empties it. |
| CanvasManager.RedoAfterUndo | canvas-manager.js:464-476 | With the corrected serialisation, a redo after an undo shows the same objects again with the history unchanged. From a checkpointed state it restores the whole manager. |
| CanvasManager.ImageList | canvas-manager.js:310-312 | An item always yields at least one image to place, falling back to its own `src`. |
| CanvasManager.LoadedIndices | canvas-manager.js:360-401 | The images placed are exactly those with a url whose load succeeds, in list order. |
| CanvasManager.PlaceImages | canvas-manager.js:333-343 | Each image that loads is placed at its own position, 30 pixels on from the last, on top of the surface. Each placement saves a snapshot unless loading. |
| CanvasManager.ListItem | canvas-manager.js:319-325 | An unlisted key gets a new entry of quantity 1 at the end of the list. A listed key leaves the manager as it was. Either way the surface and history are untouched. |
| CanvasManager.AddItem | canvas-manager.js:307-357 | An item without a first image path fails with nothing changed. Otherwise a new key gets an entry of quantity 1, while a key already listed keeps its entry and quantity. Then the images that load are placed, and the add fails when none does. |
| CanvasManager.FailedAddLeavesEntry | canvas-manager.js:319-348 | When every image load fails for a new item, the purchase list keeps a key that no object carries. |
| CanvasManager.AddItemKeepsReconciled | canvas-manager.js:307-357 | A successful add keeps a reconciled list reconciled. |
| CanvasManager.DeleteSelectedAsWritten | canvas-manager.js:517-538 | As written: a multi-object delete removes the objects with events silenced and never cleans up the purchase list. |
| CanvasManager.StaleWhenAllRemoved | canvas-manager.js:523-532 | When a delete of several objects as written removes every object, every listed key is left without an object. |
| CanvasManager.DeleteSelectedAsWrittenLeavesStaleKey | canvas-manager.js:523-532 | From a reconciled, checkpointed surface showing one item twice, deleting both objects as written leaves that item's key in the list with no object carrying it. |
| CanvasManager.DeleteSelected | canvas-manager.js:517-538 | The selected objects go, the rest stay in order, and the list ends up cleaned up against the survivors. An empty selection changes nothing. |
| CanvasManager.DeleteSelectedReconciles | canvas-manager.js:517-538 | A delete keeps a reconciled list reconciled. |
| CanvasManager.KeepOtherKeys | canvas-manager.js:757-771 | Removing the objects of one key leaves every object carrying another key. |
| CanvasManager.KeyGone | canvas-manager.js:757-771 | After the objects of a key are removed, none carries it. |
| CanvasManager.DeleteAllForKey | canvas-manager.js:746-779 | Deleting an item from the list removes every object carrying its key and the key itself. Every other key keeps its entry, and a reconciled list stays reconciled with the same other keys. |
| CanvasManager.Duplicate | canvas-manager.js:834-850 | Duplicating puts on top a copy of the active object with the same item, 20 pixels right and down, and the added copy is checkpointed. The purchase list is unchanged, and with no active object nothing changes. |
| CanvasManager.ModifyObject | canvas-manager.js:242 | Moving an object changes only that object and checkpoints the result. |
| CanvasManager.Clear | canvas-manager.js:852-875 | Clearing with content asks first. On confirmation, or with nothing to lose, it empties the surface, background and list, and ends on an empty snapshot after one removal snapshot per object. |
| CanvasManager.Increase | canvas-manager.js:731-736 | The increase button adds one to that key's quantity and changes nothing else. |
| CanvasManager.Decrease | canvas-manager.js:699-706 | The decrease button subtracts one, but never below 1. |
| CanvasManager.SetQuantity | canvas-manager.js:714-725 | A typed quantity is taken when it parses to at least 1; anything else sets the quantity to 1. Nothing else changes. |
| CanvasManager.DecreaseAfterIncrease | canvas-manager.js:699-736 | A decrease undoes an increase. |
| CanvasManager.QuantityNotVersioned | canvas-manager.js:699-736 | A quantity change saves no snapshot and survives undo, because snapshots share entries with the live list. Its redo-after-undo clause uses the corrected serialisation. |
| CanvasManager.SetBackground | canvas-manager.js:404-443 | A background is set exactly when it has a source and its image loads. Setting it changes only the background image and the current background. |
| StableFilter.FilterIsFilterOf | filter-manager.js:310-322 | The list `filter` computes takes the input's elements at increasing positions, keeping every copy of a passing value and none of a failing one. |
| StableFilter.Canonical | filter-manager.js:310-322 | That description fixes the result: any list meeting it is the list `filter` computes. |
| Filters.SelectedIsFilter | filter-manager.js:310-322 | The filtered list is the catalogue's `filter`: the items that pass, in their original order, each as often as it occurs. |
| Filters.DefaultsAcceptEverything | filter-manager.js:8-20 | Every item passes the default filters. |
| Filters.SelectedByDefaults | filter-manager.js:310-330 | With the default filters the list is the whole catalogue, in order. |
| Filters.AreaOrders | filter-manager.js:410-436 | Both area comparisons are total preorders. |
| Filters.SortItems | filter-manager.js:410-436 | Sorting is a permutation, ordered by area ascending or descending for the two size sorts and untouched otherwise. |
| Filters.FilterLoop | filter-manager.js:310-330 | Checking the items one at a time keeps exactly the filtered list, in order. |
| Filters.ApplyFilters | filter-manager.js:310-330 | The shown list holds every copy of each item that passes every filter and nothing else, sorted as chosen. Without a size sort it is the `filter` of the catalogue, in its original order. With the defaults it is the catalogue unchanged. |
| Filters.Drop | filter-manager.js:130-133 | Deselecting a colour removes exactly that colour. |
| Filters.ClickColor | filter-manager.js:121-149 | Clicking `'all'` selects only `'all'`. Clicking a colour toggles it, drops `'all'`, and falls back to `'all'` when nothing is left. |
| Filters.ClickTwice | filter-manager.js:121-149 | Clicking an unselected colour twice gives back the selection. |
| Filters.ResetColor | filter-manager.js:528-530 | Resetting sets the colour filter to `['all']` and changes no other field, so an item then passes exactly when it passes the nine other filters. |
| Filters.ClearFilters | filter-manager.js:548-586 | Clearing restores filters under which every item passes. |
| Filters.CountTextReadBack | filter-manager.js:514-526 | Both counts can be read back from the count line, and the short form appears exactly when nothing is filtered out. |
| BackgroundCategories.CountCategories | app.js:103-107 | Each category a background is counted under gets one count: the number of backgrounds under it. |
| BackgroundCategories.CountOf | cms/src/pages/BackgroundsPage.js:78-86 | A count read for a name is the number of backgrounds under it, and 0 exactly when there is none. |
| BackgroundCategories.CategoryCountsAddUp | app.js:103-107 | The counts of the categories add up to the number of backgrounds. |
| Tally.CountsAddUp | app.js:479-483 | The counts of the distinct keys add up to the number of keys counted. |
| Tally.FirstAppearanceOnce | app.js:487 | The distinct keys list every counted key exactly once. |
| App.CodesOf | app.js:468-477 | The product codes counted are exactly the non-empty codes of item objects. |
| App.FirstWithCode | app.js:489 | The object a cart line is named after is the first item object with that code. |
| App.CountCodes | app.js:466-484 | The count map lists each product code once, in order of first appearance, with its number of objects. |
| App.CountOne | app.js:468-483 | One object keeps the map in step with the codes seen: a code not yet in the map is entered last with count 1, a code already there gains one, and an object without a code leaves the map unchanged. |
| App.BuildLines | app.js:487-500 | One cart line per counted code, in map order, each with its count and the first matching object's name, id and display info. |
| App.LineTotalIsTotal | app.js:539 | The quantities of the cart lines add up to the sum of the per-code counts. |
| App.AggregateCart | app.js:454-510 | No item objects gives "no items". Items without any code give "no product codes". Otherwise the cart has one line per distinct code, and the quantities add up to the number of coded item objects. |
| App.NamedCategories | app.js:112 | The fallback category names are exactly the non-empty categories some background names. |
| App.DropdownOptions | app.js:95-133 | With a category list, one option per listed name in order. Without one, each named category once, in string order. Each option counts the backgrounds under it. |
| App.OfCategory | app.js:253-257 | As many backgrounds are shown for a category as the dropdown counts under it, and they are exactly the backgrounds of that category. |
| App.OfCategoryIsFilter | app.js:253-257 | They are the `filter` of the list by category: those of the category in their original order, each as often as it occurs. |
| App.ShownBackgrounds | app.js:246-257 | With no category chosen every background is shown. Otherwise the backgrounds of the chosen category in their original order, as many as its count. |
| App.ExtensionDot | app.js:381 | It finds exactly the dot that starts a final extension without dots or slashes. |
| App.StripExtension | app.js:381 | The name loses its last extension when it has one, and is kept whole otherwise. |
| App.StripExtensionRoundTrip | app.js:381 | A base name with one extension appended gives back the base name. |
| App.UploadBackground | app.js:358-400 | An upload succeeds exactly for an image file of at most 10 MB that could be read. The background is named after the file without its extension. |
| App.NoItemsKept | app.js:571-574 | After the item objects are removed, no object carries an item. |
| App.ResetItems | app.js:555-578 | With no items, or without confirmation, nothing changes. Otherwise every item object goes, the background and the other objects stay, and the purchase list ends up empty. |
| CanvasModel.CleanupWithoutItems | canvas-manager.js:285-304 | A list cleaned up against objects without items is empty. |
| CategoryService.WithId | cms/src/services/backgroundCategoryService.js:33-36 | A listed record is the stored one with its id set to the document id. |
| CategoryService.OrderLeIsPreorder | cms/src/services/backgroundCategoryService.js:56 | The fallback comparator orders categories totally by `order \|\| 0`. |
| CategoryService.ListCategories | cms/src/services/backgroundCategoryService.js:23-60 | The indexed query lists the documents as they come, with their ids. The fallback lists the same records sorted by `order \|\| 0`. |
| CategoryService.NextOrder | cms/src/services/backgroundCategoryService.js:93-96 | A new category's order is 1 on an empty store, and otherwise one more than the largest existing order. |
| CategoryService.NewCategory | cms/src/services/backgroundCategoryService.js:98-106 | A created record defaults its display name to the name and its description to empty, takes the next order and stamps both times. |
| CategoryService.CreateCategory | cms/src/services/backgroundCategoryService.js:87-117 | Creating adds exactly the new record under its id and leaves every other document alone. |
| CategoryService.CallerOrderIgnored | cms/src/services/backgroundCategoryService.js:98-106 | An order the caller passes has no effect on the record created. |
| CategoryService.CreatedComesLast | cms/src/services/backgroundCategoryService.js:87-117 | A category created from a full listing orders after every existing one. |
| CategoryService.UpdateCategory | cms/src/services/backgroundCategoryService.js:122-139 | Updating a missing document fails. Otherwise the fields named are replaced, the rest kept, the update time stamped and every other document left alone. |
| CategoryService.EmptyPatchTouchesOnlyTime | cms/src/services/backgroundCategoryService.js:126-131 | An update naming no field only moves the update time. |
| CategoryService.DeleteCategory | cms/src/services/backgroundCategoryService.js:144-155 | Deleting removes exactly that document, and deleting a missing one changes nothing. |
| CategoryService.Reorder | cms/src/services/backgroundCategoryService.js:160-178 | It succeeds exactly when every listed id exists. Each listed document gets order i + 1 for the last position i where it is listed, with only its order and update time changing. Unlisted documents are untouched. |
| CategoryService.ReorderedListing | cms/src/services/backgroundCategoryService.js:160-178 | After reordering distinct ids, the fallback listing of those documents comes back in exactly the order given. |
| CategoryService.CreateDefaultsList | cms/src/services/backgroundCategoryService.js:192-210 | Each default is created, in list order, from the listing its own creation read. |
| CategoryService.CreateDefaultsKeys | cms/src/services/backgroundCategoryService.js:192-210 | After the creations the store holds exactly the old documents and the new ids. |
| CategoryService.CreateDefaultsKeeps | cms/src/services/backgroundCategoryService.js:192-210 | Documents outside the new ids are kept as they were. |
| CategoryService.InitializeDefaults | cms/src/services/backgroundCategoryService.js:183-218 | With any category present nothing is created. Otherwise the eleven defaults are created by name, each ordered after what its creation saw, and every other document is kept. |
| CategoryService.DefaultsRacingAllGetOrderOne | cms/src/services/backgroundCategoryService.js:206-210 | When every creation reads the store before any writes, as in parallel creation, all eleven defaults get order 1 whatever their listed position. |
| CategoryService.DefaultsInSequenceGetListedOrder | cms/src/services/backgroundCategoryService.js:192-210 | When each creation sees the earlier ones, the defaults get orders 1 to 11 in their listed order. |
| CategoryLoader.Normalize | background-category-loader.js:18-23 | A loaded category's display name falls back to its name and its order to 0. |
| CategoryLoader.LoadCategories | background-category-loader.js:6-56 | The ordered query's documents are taken as they come. On its failure the plain query's documents are sorted by order. With both failing the list is empty. |
| CategoryLoader.FallbackListsEachDocumentOnce | background-category-loader.js:33-50 | With distinct document ids, the fallback lists every document exactly once. |
| BackgroundsPage.StoredInIsFilter | cms/src/pages/BackgroundsPage.js:46-52 | The list for a category is the `filter` of the backgrounds by stored category: those stored under the name in their original order, each as often as it occurs. |
| BackgroundsPage.Displayed | cms/src/pages/BackgroundsPage.js:46-52 | `'all'` shows every background. Any other choice shows those whose stored category is the choice, in their original order, each as often as it occurs. |
| BackgroundsPage.CountMatchesDisplayed | cms/src/pages/BackgroundsPage.js:46-82 | A category's count equals the length of its list, except for `'기타'`, whose count also includes the untagged backgrounds its list leaves out. |
| BackgroundsPage.RenderDropdown | cms/src/pages/BackgroundsPage.js:67-92 | The total counts every background. Each category in list order shows its name, its display name or name, and the number of backgrounds counted under its name. |
| BackgroundsPage.FieldBlank | cms/src/pages/BackgroundsPage.js:602-608 | A field is blank exactly when it trims to nothing. |
| BackgroundsPage.AddCategoryForm | cms/src/pages/BackgroundsPage.js:598-628 | The form is refused exactly when the name is missing or blank. The name is trimmed and a blank display name becomes the name. |
| BackgroundsPage.AddedCategoryIsNamed | cms/src/pages/BackgroundsPage.js:598-628 | A category added through the form always has a non-empty display name and an empty description. |
| BackgroundsPage.UpdateCategoryForm | cms/src/pages/BackgroundsPage.js:671-692 | The edit is sent exactly when both fields are non-blank, and only the two trimmed fields are sent. |
| BackgroundsPage.FormUpdateKeepsOrder | cms/src/pages/BackgroundsPage.js:671-692 | An edit through the form keeps the category's order and description. |
| BackgroundsPage.FindCategory | cms/src/pages/BackgroundsPage.js:630-632 | The lookup gives the first loaded category with the id, and nothing exactly when none has it. |
| BackgroundsPage.FormatFileSize | cms/src/pages/BackgroundsPage.js:271-277 | A missing or zero size reads "0 Bytes"; any other size is scaled. |

## Left out

- Rendering, serialisation and the drawing library's internals: only the event behaviour described above is modelled. Objects keep only the image source and position the manager sets, and the item they were placed from.
- CanvasManager.SaveState: the snapshot keeps each object's item, as `toDatalessJSON(['itemData'])` would. The source calls `toDatalessJSON()`, whose snapshot drops the items (see Findings, CanvasManager.SaveStateAsWritten).
- CanvasManager.LoadState, CanvasManager.Undo, CanvasManager.Redo: they restore objects with their items, which only the corrected snapshot holds. In the source every restored object comes back without its item (CanvasManager.ReloadAsWrittenLosesItems).
- CanvasManager.SaveThenLoad: holds for the corrected snapshot only. As written, the reload gives the objects back without items.
- CanvasManager.RedoAfterUndo: `Redo(Undo(m)) == m` holds for the corrected snapshot only. As written, it fails as soon as an object carries an item.
- CanvasManager.QuantityNotVersioned: its quantity clause holds as written. Its redo-after-undo clause holds for the corrected snapshot only.
- DOM, notifications, loading spinners, modals, drag-and-drop and timers: these are user interface only.
- The network: the shop-cart requests in `addToCart` and all of cafe24Api.js. The model stops at the list of cart lines.
- Firestore: every read and write is replaced by a function over a `map` of documents. The indexed query's order and the database's errors are inputs, and ids and timestamps are parameters.
- CategoryService.CreatedComesLast: the indexed query `orderBy('order')` also leaves out documents without an `order` field. The listing the model takes as complete is therefore the fallback's, or the indexed one's only when every document has an order. The same holds for InitializeDefaults.
- `getCategory` (single lookup): it is not among the operations modelled.
- Concurrency:
  - the parallel creations of `initializeDefaultCategories` are modelled by the listing each one read;
  - the parallel writes of `reorderCategories` are applied one after another, so a repeated id gets its last position.
- Floating point: object scales, zoom and sizes beyond the "0 Bytes" case of `formatFileSize`.
- Text: `toLowerCase` is modelled for ASCII letters only, and string order compares UTF-16 code units without surrogate pairs.
- Integer widths: quantities and counts are unbounded.
- Filters.SortItems: sort stability is not stated; the contract gives the permutation and the order only.
- CanvasManager.Duplicate: the copy of a multi-object group selection is not modelled; the active object is a single object.
- CanvasManager.Increase: a key missing from the list changes nothing, where the source would throw on the missing entry.
- CanvasManager.Decrease: same as Increase.
- CanvasManager.SetQuantity: same as Increase for a missing key. `parseInt` is given as its result, an optional integer.
- CanvasManager.AddItem: an image entry that is `null` after the first throws at `imageInfo.url`, outside the `try`, so the source's `addItem` never settles. The model takes the image list as optional urls and skips such an entry instead (LoadedIndices as well).
- CanvasManager.LoadState: modelled as one step. In the source `isLoadingState` is cleared only in the `loadFromJSON` callback, so a user action arriving before that callback is silenced or interleaved; that interleaving is not modelled.
- BackgroundsPage.RenderDropdown: a category without a name reads the count stored under the key "undefined", as the object lookup does. The counts are held in a plain object, so a name such as `"constructor"` with no backgrounds reads an inherited property instead of 0; the model reads 0. The same holds for BackgroundCategories.CountOf and App.DropdownOptions.
- CanvasModel.ItemKeyIdentity: holds only for items of the same size. Across sizes two different items can share one key and so one purchase entry, as CanvasModel.KeysCollideAcrossSizes and CanvasModel.KeyCollisionInstance show.

## Findings

| source | as written | input that shows it | evidently intended | confidence | as-written member | corrected member |
|---|---|---|---|---|---|---|
| canvas-manager.js:523-532 | Deleting several selected objects silences the removal events, so `cleanupPurchaseList` never runs; the one checkpoint saved afterwards records the stale list. | Two objects of one item are the only ones carrying its key; select both and delete. The key stays in the purchase list with no object on the surface. | The list is cleaned up against the surviving objects, as after a single delete. | medium, not executed | CanvasManager.DeleteSelectedAsWritten, CanvasManager.DeleteSelectedAsWrittenLeavesStaleKey | CanvasManager.DeleteSelected, CanvasManager.DeleteSelectedReconciles |
| canvas-manager.js:452 | `saveState` stores `toDatalessJSON()` without `['itemData']`. The drawing library serialises only its own properties, so every snapshot's objects lose their items. The same code passes `['itemData']` to `clone` at lines 176 and 848. | Add an item, then undo and redo. The restored images carry no item. The next removal's cleanup empties the purchase list, the cart finds no items, and deleting the item from the list finds no objects. | Snapshots keep each object's item, as `toDatalessJSON(['itemData'])` would, so undo and redo restore what was shown. | medium, not executed | CanvasManager.SaveStateAsWritten, CanvasManager.ReloadAsWrittenLosesItems, CanvasManager.ReloadAsWrittenEmptiesList | CanvasManager.SaveState, CanvasManager.SaveThenLoad |
