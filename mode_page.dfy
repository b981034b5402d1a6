/** The "Mode" page: the anchor slug of a category name, the distinct sorted
    category list and one group of products per category. */
module ModePage {
  import opened Seqs
  import opened Sorting
  import opened Text
  import opened Products
  import opened ProductOptions
  import opened Tally

  // ---------------------------------------------------------------------------
  // Anchor slugs
  // ---------------------------------------------------------------------------

  /** `.replace(/\s+/g, "-")`: every run of whitespace becomes one hyphen. */
  function Hyphenate(s: string): (r: string)
    ensures NoSpace(r) && |r| <= |s|
    decreases |s|
  {
    if s == [] then []
    else if IsSpace(s[0]) then "-" + Hyphenate(TrimStart(s[1..]))
    else [s[0]] + Hyphenate(s[1..])
  }

  /** `slug`: lower-cased, accents removed, whitespace runs turned into hyphens. */
  function Slug(s: string): string
  {
    Hyphenate(Fold(s))
  }

  /** Text without whitespace is left as it is. */
  lemma {:induction false} HyphenateFixed(s: string)
    requires NoSpace(s)
    ensures Hyphenate(s) == s
  {
    if s != [] {
      HyphenateFixed(s[1..]);
      assert s == [s[0]] + s[1..];
    }
  }

  /** A whitespace run at the front becomes a single hyphen. */
  lemma HyphenateRun(w: string, b: string)
    requires w != [] && AllSpace(w)
    requires b == [] || !IsSpace(b[0])
    ensures Hyphenate(w + b) == "-" + Hyphenate(b)
  {
    assert (w + b)[0] == w[0] && (w + b)[1..] == w[1..] + b;
    TrimStartPadded(w[1..], b);
  }

  /** Hyphenation works piece by piece when the cut is not inside a
      whitespace run. */
  lemma {:induction false} HyphenateWord(a: string, b: string)
    requires a == [] || !IsSpace(a[|a| - 1])
    ensures Hyphenate(a + b) == Hyphenate(a) + Hyphenate(b)
    decreases |a|, 1
  {
    if a == [] {
      assert a + b == b;
    } else if IsSpace(a[0]) {
      HyphenateWordSpace(a, b);
    } else {
      assert (a + b)[1..] == a[1..] + b;
      assert Hyphenate(a + b) == [a[0]] + Hyphenate(a[1..] + b);
      HyphenateWord(a[1..], b);
    }
  }

  lemma {:induction false} HyphenateWordSpace(a: string, b: string)
    requires a != [] && IsSpace(a[0]) && !IsSpace(a[|a| - 1])
    ensures Hyphenate(a + b) == Hyphenate(a) + Hyphenate(b)
    decreases |a|, 0
  {
    var t := TrimStart(a[1..]);
    TrimStartSlice(a[1..]);
    assert t != [] && t[|t| - 1] == a[|a| - 1];
    calc {
      Hyphenate(a + b);
      { assert (a + b)[0] == a[0] && (a + b)[1..] == a[1..] + b; }
      "-" + Hyphenate(TrimStart(a[1..] + b));
      { TrimStartAppend(a[1..], b); }
      "-" + Hyphenate(t + b);
      { HyphenateWord(t, b); }
      "-" + Hyphenate(t) + Hyphenate(b);
      Hyphenate(a) + Hyphenate(b);
    }
  }

  /** Each run of whitespace between two words becomes exactly one hyphen. */
  lemma SlugSeparator(a: string, w: string, b: string)
    requires a == [] || !IsSpace(a[|a| - 1])
    requires w != [] && AllSpace(w)
    requires b == [] || !IsSpace(b[0])
    ensures Hyphenate(a + w + b) == Hyphenate(a) + "-" + Hyphenate(b)
  {
    assert a + w + b == a + (w + b);
    HyphenateWord(a, w + b);
    HyphenateRun(w, b);
  }

  /** A hyphen folds to itself. */
  lemma FoldHyphen()
    ensures Fold("-") == "-"
  {
    assert Fold("-") == FoldChar('-') + Fold([]);
  }

  /** Hyphenating folded text leaves it folded. */
  lemma {:induction false} HyphenateFolded(t: string)
    requires Fold(t) == t
    ensures Fold(Hyphenate(t)) == Hyphenate(t)
    decreases |t|
  {
    if t != [] {
      FoldFixedSlice(t, 1, |t|);
      if IsSpace(t[0]) {
        var u := TrimStart(t[1..]);
        TrimStartSlice(t[1..]);
        FoldFixedSlice(t[1..], |t[1..]| - |u|, |t[1..]|);
        assert u == t[1..][|t[1..]| - |u|..|t[1..]|];
        HyphenateFolded(u);
        FoldHyphen();
        FoldConcat("-", Hyphenate(u));
      } else {
        FoldFixedSlice(t, 0, 1);
        assert t[0..1] == [t[0]];
        HyphenateFolded(t[1..]);
        FoldConcat([t[0]], Hyphenate(t[1..]));
      }
    }
  }

  /** A slug has no whitespace and is already lower-cased and free of
      accents: folding it changes nothing. */
  lemma SlugShape(s: string)
    ensures NoSpace(Slug(s)) && Fold(Slug(s)) == Slug(s)
  {
    FoldIdempotent(s);
    HyphenateFolded(Fold(s));
  }

  /** The slug of a slug is itself. */
  lemma SlugIdempotent(s: string)
    ensures Slug(Slug(s)) == Slug(s)
  {
    SlugShape(s);
    HyphenateFixed(Slug(s));
  }

  // ---------------------------------------------------------------------------
  // Categories
  // ---------------------------------------------------------------------------

  function Category(p: Product): string
  {
    p.category
  }

  /** `[...new Set(products.map((p) => p.category).filter(Boolean))].sort()`. */
  function Categories(products: seq<Product>): seq<string>
  {
    InsertionSort(Dedupe(Filter(NonEmpty, Tags(Category, products))), StrLe)
  }

  /** A category is listed exactly when some product carries it and it is
      not empty. */
  lemma CategoriesMembers(products: seq<Product>, c: string)
    ensures c in Categories(products) <==>
            c != [] && exists i :: 0 <= i < |products| && products[i].category == c
  {
    var d := Dedupe(Filter(NonEmpty, Tags(Category, products)));
    var r := InsertionSort(d, StrLe);
    assert c in r <==> c in multiset(r);
    assert c in d <==> c in multiset(d);
    if c in Tags(Category, products) {
      var i :| 0 <= i < |products| && Tags(Category, products)[i] == c;
      TagsAt(Category, products, i);
    }
    if exists i :: 0 <= i < |products| && products[i].category == c {
      var i :| 0 <= i < |products| && products[i].category == c;
      TagsAt(Category, products, i);
      assert Tags(Category, products)[i] in Tags(Category, products);
    }
  }

  /** The list is sorted, without repeats and without the empty name. */
  lemma CategoriesShape(products: seq<Product>)
    ensures var cs := Categories(products);
            && Distinct(cs) && SortedBy(cs, StrLe)
            && forall k :: 0 <= k < |cs| ==> cs[k] != []
  {
    var d := Dedupe(Filter(NonEmpty, Tags(Category, products)));
    var cs := InsertionSort(d, StrLe);
    StrLeIsTotalPreorder();
    InsertionSortSorted(d, StrLe);
    PermutationDistinct(d, cs);
    forall k | 0 <= k < |cs| ensures cs[k] != [] {
      assert cs[k] in multiset(cs);
      CategoriesMembers(products, cs[k]);
    }
  }

  // ---------------------------------------------------------------------------
  // Groups
  // ---------------------------------------------------------------------------

  datatype Group = Group(category: string, products: seq<Product>)

  /** What the page renders: the product count in the banner, the anchor
      links and one section per category. */
  datatype ModeView = ModeView(productCount: nat, categories: seq<string>, groups: seq<Group>)

  /** `categories.map((category) => ({ category, products: products.filter(…) }))`. */
  function Groups(products: seq<Product>): (r: seq<Group>)
    ensures |r| == |Categories(products)|
  {
    var cs := Categories(products);
    seq(|cs|, k requires 0 <= k < |cs| => Group(cs[k], Filter(Under(Category, cs[k]), products)))
  }

  function View(products: seq<Product>): ModeView
  {
    ModeView(|products|, Categories(products), Groups(products))
  }

  /** Each section follows the anchor list, holds at least one product, and
      holds exactly the products of its category in their original order. */
  lemma GroupContents(products: seq<Product>, k: nat, p: Product)
    requires k < |Groups(products)|
    ensures var g := Groups(products)[k];
            && g.category == Categories(products)[k]
            && g.products != []
            && (p in g.products <==> p in products && p.category == g.category)
            && IsSubsequence(g.products, products)
  {
    var cs := Categories(products);
    var g := Groups(products)[k];
    assert cs[k] in cs;
    CategoriesMembers(products, cs[k]);
    var i :| 0 <= i < |products| && products[i].category == cs[k];
    UnderMeans(Category, cs[k], p);
    UnderMeans(Category, cs[k], products[i]);
    assert Category(products[i]) == cs[k];
    assert products[i] in g.products;
    FilterSubsequence(Under(Category, cs[k]), products);
  }

  /** A product with a category is in exactly one section, the one for its
      category; a product without one is in none. */
  lemma ProductSection(products: seq<Product>, p: Product)
    requires p in products
    ensures var gs := Groups(products);
            && (forall k :: 0 <= k < |gs| ==> (p in gs[k].products <==> gs[k].category == p.category))
            && (p.category != [] <==> exists k :: 0 <= k < |gs| && p in gs[k].products)
            && (forall k, l :: 0 <= k < |gs| && 0 <= l < |gs| && p in gs[k].products && p in gs[l].products ==> k == l)
  {
    var gs := Groups(products);
    var cs := Categories(products);
    CategoriesShape(products);
    CategoriesMembers(products, p.category);
    forall k | 0 <= k < |gs| ensures p in gs[k].products <==> gs[k].category == p.category {
      GroupContents(products, k, p);
    }
    if p.category != [] {
      var i :| 0 <= i < |products| && products[i] == p;
      var k :| 0 <= k < |cs| && cs[k] == p.category;
      assert p in gs[k].products;
    }
  }

  /** The sizes of the sections, added up. */
  function Sectioned(groups: seq<Group>): nat
  {
    if groups == [] then 0 else |groups[0].products| + Sectioned(groups[1..])
  }

  lemma {:induction false} SectionedIsSumCounts(labels: seq<string>, products: seq<Product>)
    ensures Sectioned(seq(|labels|, k requires 0 <= k < |labels| => Group(labels[k], Filter(Under(Category, labels[k]), products))))
            == SumCounts(Category, labels, products)
  {
    var gs := seq(|labels|, k requires 0 <= k < |labels| => Group(labels[k], Filter(Under(Category, labels[k]), products)));
    if labels != [] {
      SectionedIsSumCounts(labels[1..], products);
      assert gs[1..] == seq(|labels[1..]|, k requires 0 <= k < |labels[1..]| =>
                              Group(labels[1..][k], Filter(Under(Category, labels[1..][k]), products)));
      FilterCount(Under(Category, labels[0]), products);
    }
  }

  /** `productCount` counts every product: those in the sections plus those
      without a category. */
  lemma ProductCountCoversAll(products: seq<Product>)
    ensures View(products).productCount == Sectioned(Groups(products)) + Count(Under(Category, ""), products)
  {
    var cs := Categories(products);
    var labels := cs + [""];
    CategoriesShape(products);
    assert Distinct(labels) by {
      forall i, j | 0 <= i < j < |labels| ensures labels[i] != labels[j] {
        if j < |cs| {
          assert labels[i] == cs[i] && labels[j] == cs[j];
        } else {
          assert labels[i] == cs[i] && cs[i] != [];
        }
      }
    }
    forall i | 0 <= i < |products| ensures Category(products[i]) in labels {
      CategoriesMembers(products, products[i].category);
      if products[i].category != [] {
        assert products[i].category in cs;
      }
    }
    SumCountsCover(Category, labels, products);
    SumCountsAppendLabel(Category, cs, "", products);
    SectionedIsSumCounts(cs, products);
  }
}
