/** The CMS page that manages backgrounds and their categories
    (cms/src/pages/BackgroundsPage.js): the list shown for the chosen
    category, the category dropdown with its counts, and the checks on the
    category forms before anything is sent to the service. */
module BackgroundsPage {
  import opened Wrappers
  import opened Text
  import opened Tally
  import opened CanvasModel
  import opened BackgroundCategories
  import opened CategoryService
  import SF = StableFilter

  /** The dropdown value that stands for every category. */
  const AllCategories: string := "all"

  // ---------------------------------------------------------------------------
  // The list shown

  /** The backgrounds whose stored category is exactly `c`, in order. */
  function StoredIn(bgs: seq<Background>, c: string): (r: seq<Background>)
    ensures forall b :: b in r <==> b in bgs && b.category == Some(c)
  {
    if bgs == [] then []
    else
      var last := bgs[|bgs| - 1];
      StoredIn(bgs[..|bgs| - 1], c) + (if last.category == Some(c) then [last] else [])
  }

  /** The list for a category is `bgs.filter(...)`: the backgrounds stored
      under it in their original order, each as often as it occurs. */
  lemma {:induction false} StoredInIsFilter(bgs: seq<Background>, c: string)
    ensures SF.IsFilterOf(StoredIn(bgs, c), bgs, (b: Background) => b.category == Some(c))
  {
    if bgs == [] {
      SF.Empty((b: Background) => b.category == Some(c));
    } else {
      var init, last := bgs[..|bgs| - 1], bgs[|bgs| - 1];
      StoredInIsFilter(init, c);
      SF.Snoc(StoredIn(init, c), init, (b: Background) => b.category == Some(c), last);
      SF.LastOff(bgs);
    }
  }

  /** The filter step of `loadBackgrounds`: every background for "all",
      otherwise those whose category is the chosen one. */
  function Displayed(bgs: seq<Background>, selected: string): (r: seq<Background>)
    ensures selected == AllCategories ==> r == bgs
    ensures selected != AllCategories ==> forall b :: b in r <==> b in bgs && b.category == Some(selected)
    ensures selected != AllCategories ==> SF.IsFilterOf(r, bgs, (b: Background) => b.category == Some(selected))
  {
    if selected == AllCategories then bgs
    else
      StoredInIsFilter(bgs, selected);
      StoredIn(bgs, selected)
  }

  /** The backgrounds counted under "기타" without naming it: no category or
      an empty one. */
  function Untagged(bgs: seq<Background>): (r: nat)
    ensures r <= |bgs|
  {
    if bgs == [] then 0
    else Untagged(bgs[..|bgs| - 1]) + (if Truthy(bgs[|bgs| - 1].category) then 0 else 1)
  }

  /** The count the dropdown shows for a category is the length of the list
      shown for it, except for "기타", whose count also takes in the
      backgrounds without a category, which the list does not show. */
  lemma {:induction false} CountMatchesDisplayed(bgs: seq<Background>, c: string)
    requires c != "" && c != AllCategories
    ensures c != Uncategorized ==> |Displayed(bgs, c)| == Occurrences(Categories(bgs), c)
    ensures c == Uncategorized ==> |Displayed(bgs, c)| + Untagged(bgs) == Occurrences(Categories(bgs), c)
  {
    if bgs != [] {
      var init := bgs[..|bgs| - 1];
      CountMatchesDisplayed(init, c);
      assert Categories(bgs) == Categories(init) + [CategoryOf(bgs[|bgs| - 1])];
    }
  }

  // ---------------------------------------------------------------------------
  // The category dropdown

  /** One option: the category's name as value, its display name (or name)
      as caption, and its number of backgrounds. */
  datatype CategoryOption = CategoryOption(value: Option<string>, caption: Option<string>, count: nat)

  /** The "all" option's count and the options of the listed categories. */
  datatype Dropdown = Dropdown(total: nat, options: seq<CategoryOption>)

  /** The property key `categoryCounts[cat.name]` reads: a missing name is
      the key "undefined". */
  function CountKey(name: Option<string>): string {
    Render(name)
  }

  /** `renderCategoryDropdown`: the "all" option counts every background,
      and each listed category, in list order, shows the number of
      backgrounds counted under its name (0 when there is none). */
  method RenderDropdown(bgs: seq<Background>, categories: seq<Category>) returns (d: Dropdown)
    ensures d.total == |bgs|
    ensures |d.options| == |categories|
    ensures forall i | 0 <= i < |categories| ::
      && d.options[i].value == categories[i].name
      && d.options[i].caption == Or(categories[i].displayName, categories[i].name)
      && d.options[i].count == Occurrences(Categories(bgs), CountKey(categories[i].name))
  {
    var counts := CountCategories(bgs);
    var options := seq(|categories|, i requires 0 <= i < |categories| =>
      CategoryOption(categories[i].name, Or(categories[i].displayName, categories[i].name),
        CountOf(counts, bgs, CountKey(categories[i].name))));
    d := Dropdown(|bgs|, options);
  }

  // ---------------------------------------------------------------------------
  // Category forms

  /** A present field is blank exactly when it trims to nothing. */
  lemma FieldBlank(field: Option<string>)
    ensures field.Some? ==> (Trim(field.value) == "" <==> AllSpace(field.value))
  {
    if field.Some? {
      TrimEmptyIffAllSpace(field.value);
    }
  }

  /** `addCategory`'s check: the trimmed name must not be empty; a blank
      display name becomes the trimmed name. A missing input field reads as
      no name. */
  function AddCategoryForm(nameField: Option<string>, displayField: Option<string>): (r: Option<CategoryInput>)
    ensures r.None? <==> nameField.None? || AllSpace(nameField.value)
    ensures r.Some? ==>
      && r.value.name == Some(Trim(nameField.value))
      && r.value.displayName ==
           (if displayField.Some? && !AllSpace(displayField.value) then Some(Trim(displayField.value))
            else Some(Trim(nameField.value)))
      && r.value.description.None? && r.value.order.None?
  {
    if nameField.None? then None
    else
      var name := Trim(nameField.value);
      TrimEmptyIffAllSpace(nameField.value);
      FieldBlank(displayField);
      var display := if displayField.Some? then Some(Trim(displayField.value)) else None;
      if name == "" then None
      else Some(CategoryInput(Some(name), Or(display, Some(name)), None, None))
  }

  /** A category added through the form always has a non-empty display name
      and an empty description. */
  lemma AddedCategoryIsNamed(nameField: Option<string>, displayField: Option<string>,
                             existing: seq<Category>, id: string, now: nat)
    requires AddCategoryForm(nameField, displayField).Some?
    ensures var c := NewCategory(existing, AddCategoryForm(nameField, displayField).value, id, now);
      && c.displayName.Some? && c.displayName.value != ""
      && c.description == Some("")
  {
    TrimEmptyIffAllSpace(nameField.value);
    FieldBlank(displayField);
  }

  /** `updateCategory`'s check: both trimmed fields must be non-empty, and
      only the name and display name are sent. */
  function UpdateCategoryForm(nameField: Option<string>, displayField: Option<string>): (r: Option<CategoryPatch>)
    ensures r.Some? <==>
      nameField.Some? && !AllSpace(nameField.value) && displayField.Some? && !AllSpace(displayField.value)
    ensures r.Some? ==>
      r.value == CategoryPatch(Some(Trim(nameField.value)), Some(Trim(displayField.value)), None, None)
  {
    if nameField.None? || displayField.None? then None
    else
      TrimEmptyIffAllSpace(nameField.value);
      TrimEmptyIffAllSpace(displayField.value);
      var name := Trim(nameField.value);
      var display := Trim(displayField.value);
      if name == "" || display == "" then None
      else Some(CategoryPatch(Some(name), Some(display), None, None))
  }

  /** An edit through the form leaves the description and the order alone. */
  lemma FormUpdateKeepsOrder(store: Store, id: string, nameField: Option<string>, displayField: Option<string>, now: nat)
    requires id in store
    requires UpdateCategoryForm(nameField, displayField).Some?
    ensures var r := UpdateCategory(store, id, UpdateCategoryForm(nameField, displayField).value, now);
      && r.Success?
      && r.value[id].order == store[id].order
      && r.value[id].description == store[id].description
      && r.value[id].name == Some(Trim(nameField.value))
  {
  }

  /** `editCategory`'s lookup: the first loaded category with that id, or
      nothing, in which case the page does nothing. */
  function FindCategory(categories: seq<Category>, id: string): (r: Option<Category>)
    ensures r.None? <==> forall i | 0 <= i < |categories| :: categories[i].id != Some(id)
    ensures r.Some? ==> exists i | 0 <= i < |categories| ::
      && categories[i] == r.value && r.value.id == Some(id)
      && forall j | 0 <= j < i :: categories[j].id != Some(id)
  {
    if categories == [] then None
    else if categories[0].id == Some(id) then Some(categories[0])
    else
      var r := FindCategory(categories[1..], id);
      assert forall i | 1 <= i < |categories| :: categories[i] == categories[1..][i - 1];
      r
  }

  // ---------------------------------------------------------------------------
  // File sizes

  /** The label of `formatFileSize`: "0 Bytes", or a scaled size. */
  datatype SizeLabel = ZeroBytes | Scaled(bytes: int)

  const ZeroBytesText: string := "0 Bytes"

  /** `formatFileSize`: a missing or zero size reads "0 Bytes". */
  function FormatFileSize(bytes: Option<int>): (r: SizeLabel)
    ensures r == ZeroBytes <==> bytes.None? || bytes.value == 0
    ensures r.Scaled? ==> r.bytes == bytes.value
  {
    if bytes.None? || bytes.value == 0 then ZeroBytes else Scaled(bytes.value)
  }
}
