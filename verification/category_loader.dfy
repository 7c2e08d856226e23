/** The designer's loader of background categories
    (background-category-loader.js): records are normalised, and when the
    ordered query fails the plain query's answer is sorted by order; when
    that fails too the list is empty. */
module CategoryLoader {
  import opened Wrappers
  import opened Text
  import opened Sorting
  import opened JsMap
  import opened CategoryService

  /** A category as the designer uses it. */
  datatype LoadedCategory = LoadedCategory(id: string, name: Option<string>, displayName: Option<string>, order: int)

  /** The record built from one document: the display name falls back to
      the name, a missing or zero order reads as 0, and only the document id
      is kept as id. */
  function Normalize(doc: (string, Category)): (c: LoadedCategory)
    ensures c.id == doc.0 && c.name == doc.1.name
    ensures Truthy(doc.1.displayName) ==> c.displayName == doc.1.displayName
    ensures !Truthy(doc.1.displayName) ==> c.displayName == doc.1.name
    ensures doc.1.order.Some? ==> c.order == doc.1.order.value
    ensures doc.1.order.None? ==> c.order == 0
  {
    LoadedCategory(doc.0, doc.1.name, Or(doc.1.displayName, doc.1.name), OrderOf(doc.1))
  }

  function NormalizeAll(docs: Documents): (r: seq<LoadedCategory>)
    ensures |r| == |docs| && forall i | 0 <= i < |docs| :: r[i] == Normalize(docs[i])
  {
    seq(|docs|, i requires 0 <= i < |docs| => Normalize(docs[i]))
  }

  /** The comparator `(a, b) => a.order - b.order`. */
  predicate ByOrder(a: LoadedCategory, b: LoadedCategory) {
    a.order <= b.order
  }

  /** What a query gave: its documents, or an error. */
  datatype Answer = Answered(docs: Documents) | QueryFailed

  /** `loadBackgroundCategoriesFromFirebase`, given the answers of the
      ordered query and of the plain fallback query. */
  function LoadCategories(ordered: Answer, plain: Answer): (r: seq<LoadedCategory>)
    ensures ordered.Answered? ==> |r| == |ordered.docs| && forall i | 0 <= i < |r| :: r[i] == Normalize(ordered.docs[i])
    ensures ordered.QueryFailed? && plain.Answered? ==>
      && multiset(r) == multiset(NormalizeAll(plain.docs))
      && SortedBy(r, ByOrder)
    ensures ordered.QueryFailed? && plain.QueryFailed? ==> r == []
  {
    match ordered
    case Answered(docs) => NormalizeAll(docs)
    case QueryFailed =>
      match plain
      case Answered(docs) =>
        assert TotalPreorder(ByOrder);
        Sort(NormalizeAll(docs), ByOrder)
      case QueryFailed => []
  }

  /** The ids of a list of documents. */
  function DocIds(docs: Documents): (ids: seq<string>)
    ensures |ids| == |docs| && forall i | 0 <= i < |docs| :: ids[i] == docs[i].0
  {
    seq(|docs|, i requires 0 <= i < |docs| => docs[i].0)
  }

  /** The fallback listing holds every document exactly once, in order of
      `order`, when the documents have distinct ids. */
  lemma FallbackListsEachDocumentOnce(docs: Documents)
    requires Distinct(DocIds(docs))
    ensures var r := LoadCategories(QueryFailed, Answered(docs));
      && |r| == |docs|
      && (forall i | 0 <= i < |docs| :: multiset(r)[Normalize(docs[i])] == 1)
      && (forall c | c in r :: exists i | 0 <= i < |docs| :: c == Normalize(docs[i]))
  {
    var r := LoadCategories(QueryFailed, Answered(docs));
    var all := NormalizeAll(docs);
    assert Distinct(all) by {
      forall i, j | 0 <= i < j < |all| ensures all[i] != all[j] {
        assert all[i].id == DocIds(docs)[i] && all[j].id == DocIds(docs)[j];
      }
    }
    forall i | 0 <= i < |docs| ensures multiset(r)[Normalize(docs[i])] == 1 {
      assert all[i] == Normalize(docs[i]);
      DistinctOnce(all, Normalize(docs[i]));
    }
    forall c | c in r ensures exists i | 0 <= i < |docs| :: c == Normalize(docs[i]) {
      assert c in multiset(r);
      assert c in all;
    }
    assert |r| == |multiset(r)| == |multiset(all)| == |all|;
  }
}
