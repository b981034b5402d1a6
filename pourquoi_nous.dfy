/** The "Pourquoi nous" page: every product is counted under the taxonomy
    label of its universe, and the six labels with the most products are shown. */
module PourquoiNous {
  import opened Seqs
  import opened Sorting
  import opened Products
  import opened UniverseCategories
  import opened Tally

  /** The label a product is counted under: the universe mapper for "tout"
      products, the mode mapper for the others. */
  function MappedCategory(p: Product): string
  {
    if p.universe == Tout then MapUniverseCategory(p.category) else MapModeCategory(p.category)
  }

  /** `[...mappedCategoryCounts.entries()]` on the page. */
  function CategoryCounts(products: seq<Product>): (r: seq<(string, nat)>)
  {
    Tallies(MappedCategory, products)
  }

  /** The counting loop of the page over a JavaScript `Map`: `keys` is its
      insertion order, `counts` its contents. */
  method CountMappedCategories(products: seq<Product>) returns (entries: seq<(string, nat)>)
    ensures entries == CategoryCounts(products)
  {
    var keys: seq<string> := [];
    var counts: map<string, nat> := map[];
    var i := 0;
    while i < |products|
      invariant 0 <= i <= |products|
      invariant Tallied(MappedCategory, products[..i], keys, counts)
    {
      var p := products[i];
      var category := MappedCategory(p);
      TakeSnoc(products, i);
      if category in counts {
        TallyKnown(MappedCategory, products[..i], p, keys, counts);
        counts := counts[category := counts[category] + 1];
      } else {
        TallyNew(MappedCategory, products[..i], p, keys, counts);
        keys := keys + [category];
        counts := counts[category := 1];
      }
      i := i + 1;
    }
    assert products[..i] == products;
    entries := seq(|keys|, k requires 0 <= k < |keys| => (keys[k], counts[keys[k]]));
  }

  /** On the page, the counts add up to the number of products. */
  lemma CountsSumToProducts(products: seq<Product>)
    ensures Total(CategoryCounts(products)) == |products|
  {
    TalliesSumToProducts(MappedCategory, products);
  }

  /** Every counted label is a taxonomy label met by some product. */
  lemma CountsAreLabels(products: seq<Product>, k: nat)
    requires k < |CategoryCounts(products)|
    ensures var tag := CategoryCounts(products)[k].0;
            && (tag in UniverseCategoryLabels || tag in ModeCategoryLabels)
            && exists i :: 0 <= i < |products| && MappedCategory(products[i]) == tag
  {
    TalliedLabelMet(MappedCategory, products, k);
    var tag := CategoryCounts(products)[k].0;
    var i :| 0 <= i < |products| && MappedCategory(products[i]) == tag;
    var p := products[i];
    if p.universe == Tout {
      MapUniverseCategoryIsALabel(p.category);
    } else {
      MapModeCategoryIsALabel(p.category);
    }
  }

  // ---------------------------------------------------------------------------
  // The six largest
  // ---------------------------------------------------------------------------

  /** `(a, b) => b[1] - a[1]`: larger counts first. */
  predicate MoreProducts(a: (string, nat), b: (string, nat))
  {
    b.1 <= a.1
  }

  function ByCount(entries: seq<(string, nat)>): seq<(string, nat)>
  {
    InsertionSort(entries, MoreProducts)
  }

  /** `.sort(...).slice(0, 6)`. */
  function TopCategories(entries: seq<(string, nat)>): seq<(string, nat)>
  {
    var sorted := ByCount(entries);
    sorted[..if |sorted| < 6 then |sorted| else 6]
  }

  /** At most six labels, largest counts first, each one of the counted
      entries. */
  lemma TopCategoriesShape(entries: seq<(string, nat)>)
    ensures var top := TopCategories(entries);
            && |top| <= 6 && |top| == (if |entries| < 6 then |entries| else 6)
            && (forall i, j :: 0 <= i < j < |top| ==> top[i].1 >= top[j].1)
            && (forall i :: 0 <= i < |top| ==> top[i] in entries)
  {
    var sorted := ByCount(entries);
    InsertionSortSorted(entries, MoreProducts);
    PermutationLength(sorted, entries);
    forall i | 0 <= i < |TopCategories(entries)| ensures TopCategories(entries)[i] in entries {
      assert sorted[i] in multiset(sorted);
    }
  }

  /** A tag left out of the top has no more products than any tag shown. */
  lemma OmittedNotLarger(entries: seq<(string, nat)>, e: (string, nat), t: (string, nat))
    requires e in entries && e !in TopCategories(entries) && t in TopCategories(entries)
    ensures e.1 <= t.1
  {
    var sorted := ByCount(entries);
    var top := TopCategories(entries);
    InsertionSortSorted(entries, MoreProducts);
    assert e in multiset(entries);
    assert e in sorted;
    var j :| 0 <= j < |sorted| && sorted[j] == e;
    var i :| 0 <= i < |top| && top[i] == t;
    assert j >= |top|;
    assert sorted[i] == t;
  }

  /** The page's list for a product list. */
  function PageTopCategories(products: seq<Product>): seq<(string, nat)>
  {
    TopCategories(CategoryCounts(products))
  }
}
