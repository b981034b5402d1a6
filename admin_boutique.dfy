/** The administration page of the shop: the product form turned into a
    creation payload (`toPayload`, with the size list typed as free text), the
    form filled from an existing product, and the filtered, sorted product
    list shown in the table. */
module AdminBoutique {
  import opened Wrappers
  import opened Text
  import opened Seqs
  import opened Sorting
  import opened ProductOptions
  import opened Products

  // ---------------------------------------------------------------------------
  // Sizes typed as free text
  // ---------------------------------------------------------------------------

  /** The separators of `/[\s,]+/`. */
  predicate IsSizeSeparator(c: char)
  {
    IsSpace(c) || c == ','
  }

  /** A size the form can carry: non-empty, with no whitespace and no comma. */
  predicate IsSize(s: string)
  {
    s != [] && FreeOf(s, IsSizeSeparator)
  }

  /** `toSizes`: split on runs of whitespace and commas, trim, drop empty
      pieces; `None` (undefined) when nothing is left. */
  function ToSizes(raw: string): (r: Option<seq<string>>)
    ensures r.Some? ==> r.value != [] && forall i :: 0 <= i < |r.value| ==> IsSize(r.value[i])
  {
    var items := Filter(NonEmpty, TrimAll(Tokens(raw, IsSizeSeparator)));
    SizeTokens(raw);
    if |items| > 0 then Some(items) else None
  }

  /** A piece between separators has no surrounding whitespace to trim. */
  lemma SizeTrimmed(t: string)
    requires FreeOf(t, IsSizeSeparator)
    ensures Trim(t) == t
  {
    if t != [] {
      assert !IsSizeSeparator(t[0]) && !IsSizeSeparator(t[|t| - 1]);
    }
    TrimTrimmed(t);
  }

  /** Trimming and dropping empty pieces change nothing: the sizes are exactly
      the maximal runs of characters that are neither whitespace nor commas. */
  lemma SizeTokens(raw: string)
    ensures Filter(NonEmpty, TrimAll(Tokens(raw, IsSizeSeparator))) == Tokens(raw, IsSizeSeparator)
  {
    var tokens := Tokens(raw, IsSizeSeparator);
    forall i | 0 <= i < |tokens| ensures TrimAll(tokens)[i] == tokens[i] {
      SizeTrimmed(tokens[i]);
    }
    assert TrimAll(tokens) == tokens;
    FilterAll(NonEmpty, tokens);
  }

  /** `toSizes` is undefined exactly when the text holds no size. */
  lemma ToSizesNone(raw: string)
    ensures ToSizes(raw).None? <==> Tokens(raw, IsSizeSeparator) == []
    ensures ToSizes(raw).Some? ==> ToSizes(raw).value == Tokens(raw, IsSizeSeparator)
  {
    SizeTokens(raw);
  }

  /** `fromSizes`: the sizes joined with ", ", or "" when there are none. */
  function FromSizes(sizes: Option<seq<string>>): string
  {
    match sizes
    case Some(items) => Join(items, ", ")
    case None => ""
  }

  /** Writing a size list into the form and reading it back gives it again. */
  lemma SizesRoundTrip(sizes: seq<string>)
    requires sizes != [] && forall i :: 0 <= i < |sizes| ==> IsSize(sizes[i])
    ensures ToSizes(FromSizes(Some(sizes))) == Some(sizes)
  {
    TokensJoin(sizes, ", ", IsSizeSeparator);
    SizeTokens(Join(sizes, ", "));
  }

  /** A product without sizes leaves the field empty, which reads back as none. */
  lemma NoSizesRoundTrip()
    ensures FromSizes(None) == ""
    ensures ToSizes(FromSizes(None)) == None
  {
    SizeTokens("");
  }

  // ---------------------------------------------------------------------------
  // The product form
  // ---------------------------------------------------------------------------

  /** `ProductFormState`: every field as typed. */
  datatype ProductForm = ProductForm(
    name: string,
    price: string,
    category: string,
    universe: Universe,
    image: string,
    description: string,
    color: string,
    sizes: string)

  /** What `toPayload` returns: a product without id and slug. */
  datatype Payload = Payload(
    name: string,
    price: int,
    category: string,
    universe: Universe,
    image: string,
    description: string,
    color: Option<string>,
    sizes: Option<seq<string>>)

  const InvalidPrice: string := "Prix invalide."
  const MissingFields: string := "Tous les champs marqués * sont obligatoires."

  /** A payload `toPayload` can produce: text fields trimmed and non-empty, a
      price that is a non-negative integer, a colour only when non-blank, and
      sizes only when there is at least one. */
  predicate WellFormed(p: Payload)
  {
    && p.price >= 0
    && p.name != [] && IsTrimmed(p.name)
    && p.category != [] && IsTrimmed(p.category)
    && p.image != [] && IsTrimmed(p.image)
    && p.description != [] && IsTrimmed(p.description)
    && (p.color.Some? ==> p.color.value != [] && IsTrimmed(p.color.value))
    && (p.sizes.Some? ==> p.sizes.value != [] && forall i :: 0 <= i < |p.sizes.value| ==> IsSize(p.sizes.value[i]))
  }

  /** `toPayload`: the price is checked before anything else, then the four
      required fields; the payload holds the trimmed fields, the colour when
      it is not blank and the sizes when there are some. */
  function ToPayload(form: ProductForm): (r: Result<Payload, string>)
    ensures (ParseInt(form.price).None? || ParseInt(form.price).value < 0) ==> r == Err(InvalidPrice)
    ensures ParseInt(form.price).Some? && ParseInt(form.price).value >= 0 ==>
              (r.Err? <==> AllSpace(form.name) || AllSpace(form.category)
                           || AllSpace(form.image) || AllSpace(form.description))
    ensures r.Err? ==> r.error == InvalidPrice || r.error == MissingFields
    ensures r.Ok? ==> && WellFormed(r.value)
                      && Some(r.value.price) == ParseInt(form.price)
                      && r.value.name == Trim(form.name) && r.value.category == Trim(form.category)
                      && r.value.image == Trim(form.image) && r.value.description == Trim(form.description)
                      && r.value.universe == form.universe
                      && (r.value.color.Some? <==> !AllSpace(form.color))
                      && (r.value.color.Some? ==> r.value.color.value == Trim(form.color))
                      && r.value.sizes == ToSizes(form.sizes)
  {
    TrimBlank(form.name);
    TrimBlank(form.category);
    TrimBlank(form.image);
    TrimBlank(form.description);
    TrimBlank(form.color);
    var price := ParseInt(form.price);
    if price.None? || price.value < 0 then Err(InvalidPrice)
    else
      var name := Trim(form.name);
      var category := Trim(form.category);
      var image := Trim(form.image);
      var description := Trim(form.description);
      if name == [] || category == [] || image == [] || description == [] then Err(MissingFields)
      else
        var color := Trim(form.color);
        Ok(Payload(name, price.value, category, form.universe, image, description,
                   if color != [] then Some(color) else None, ToSizes(form.sizes)))
  }

  /** `openEditForm`: the form filled from a stored product. `showNumber`
      stands for `String(price)`. */
  function EditForm(p: Product, showNumber: real -> string): ProductForm
  {
    ProductForm(p.name, showNumber(p.price), p.category, p.universe, p.image, p.description,
                p.color.GetOr(""), FromSizes(p.sizes))
  }

  /** The payload a product stands for. */
  function PayloadOf(p: Product, price: int): Payload
  {
    Payload(p.name, price, p.category, p.universe, p.image, p.description, p.color, p.sizes)
  }

  /** Saving the edit form of a product whose fields `toPayload` could have
      produced, without touching anything, gives that product back. */
  lemma EditFormRoundTrip(p: Product, price: nat, showNumber: real -> string)
    requires p.price == price as real && showNumber(p.price) == NatToString(price)
    requires WellFormed(PayloadOf(p, price))
    ensures ToPayload(EditForm(p, showNumber)) == Ok(PayloadOf(p, price))
  {
    ParseIntOfNatToString(price, []);
    assert NatToString(price) + [] == NatToString(price);
    TrimTrimmed(p.name);
    TrimTrimmed(p.category);
    TrimTrimmed(p.image);
    TrimTrimmed(p.description);
    if p.color.Some? {
      TrimTrimmed(p.color.value);
    }
    match p.sizes
    case Some(items) => SizesRoundTrip(items);
    case None => NoSizesRoundTrip();
  }

  // ---------------------------------------------------------------------------
  // The product table: filter and sort
  // ---------------------------------------------------------------------------

  datatype UniverseFilter = AllUniverses | OnlyUniverse(universe: Universe)

  datatype SortBy = ByCategory | ByName | PriceAsc | PriceDesc

  /** The filter of `filteredProducts`, with `q` the trimmed, lower-cased query. */
  predicate Shown(p: Product, universeFilter: UniverseFilter, q: string)
  {
    && (universeFilter.AllUniverses? || p.universe == universeFilter.universe)
    && (q == []
        || Contains(Lower(p.name), q) || Contains(Lower(p.category), q)
        || Contains(Lower(p.slug), q) || Contains(Lower(p.color.GetOr("")), q))
  }

  function ShownBy(universeFilter: UniverseFilter, q: string): Product -> bool
  {
    (p: Product) => Shown(p, universeFilter, q)
  }

  /** The category order: by category, then by name. */
  predicate CategoryThenName(a: Product, b: Product)
  {
    if a.category != b.category then StrLe(a.category, b.category) else StrLe(a.name, b.name)
  }

  /** The comparator of each sort option, as "`a` may come before `b`". */
  function Order(sortBy: SortBy): (Product, Product) -> bool
  {
    match sortBy
    case ByName => (a: Product, b: Product) => StrLe(a.name, b.name)
    case PriceAsc => (a: Product, b: Product) => a.price <= b.price
    case PriceDesc => (a: Product, b: Product) => b.price <= a.price
    case ByCategory => CategoryThenName
  }

  /** `filteredProducts`: the shown products of the list, sorted stably by the
      chosen order. */
  function FilteredProducts(products: seq<Product>, query: string, universeFilter: UniverseFilter, sortBy: SortBy): seq<Product>
  {
    InsertionSort(Filter(ShownBy(universeFilter, Lower(Trim(query))), products), Order(sortBy))
  }

  lemma CategoryThenNameIsTotalPreorder()
    ensures TotalPreorder(CategoryThenName)
  {
    forall a, b ensures CategoryThenName(a, b) || CategoryThenName(b, a) {
      StrLeTotal(a.category, b.category);
      StrLeTotal(a.name, b.name);
    }
    forall a, b, c | CategoryThenName(a, b) && CategoryThenName(b, c) ensures CategoryThenName(a, c) {
      CategoryThenNameTransitive(a, b, c);
    }
  }

  lemma CategoryThenNameTransitive(a: Product, b: Product, c: Product)
    requires CategoryThenName(a, b) && CategoryThenName(b, c)
    ensures CategoryThenName(a, c)
  {
    if a.category == b.category == c.category {
      StrLeTransitive(a.name, b.name, c.name);
    } else if a.category == c.category {
      StrLeAntisymmetric(a.category, b.category);
    } else {
      if a.category == b.category {
        assert StrLe(b.category, c.category);
      } else if b.category == c.category {
        assert StrLe(a.category, b.category);
      } else {
        StrLeTransitive(a.category, b.category, c.category);
      }
    }
  }

  lemma OrderIsTotalPreorder(sortBy: SortBy)
    ensures TotalPreorder(Order(sortBy))
  {
    match sortBy
    case ByName => StrLeIsTotalPreorder();
    case PriceAsc =>
    case PriceDesc =>
    case ByCategory => CategoryThenNameIsTotalPreorder();
  }

  /** The table holds exactly the shown products, each as often as in the list,
      in the order of the chosen option; products the option ties keep the
      order of the list. */
  lemma FilteredProductsSpec(products: seq<Product>, query: string, universeFilter: UniverseFilter, sortBy: SortBy)
    ensures var r := FilteredProducts(products, query, universeFilter, sortBy);
            var shown := Filter(ShownBy(universeFilter, Lower(Trim(query))), products);
            && multiset(r) == multiset(shown)
            && SortedBy(r, Order(sortBy))
            && forall y :: Filter(TiedWith(y, Order(sortBy)), r) == Filter(TiedWith(y, Order(sortBy)), shown)
  {
    var shown := Filter(ShownBy(universeFilter, Lower(Trim(query))), products);
    OrderIsTotalPreorder(sortBy);
    InsertionSortSorted(shown, Order(sortBy));
    forall y
      ensures Filter(TiedWith(y, Order(sortBy)), InsertionSort(shown, Order(sortBy)))
              == Filter(TiedWith(y, Order(sortBy)), shown)
    {
      InsertionSortStable(shown, Order(sortBy), y);
    }
  }

  /** A product is in the table exactly when it is in the list and passes the
      universe and query filter. */
  lemma FilteredProductsMembers(products: seq<Product>, query: string, universeFilter: UniverseFilter, sortBy: SortBy, p: Product)
    ensures p in FilteredProducts(products, query, universeFilter, sortBy) <==>
            p in products && Shown(p, universeFilter, Lower(Trim(query)))
  {
    var kept := Filter(ShownBy(universeFilter, Lower(Trim(query))), products);
    var r := InsertionSort(kept, Order(sortBy));
    assert p in r <==> p in multiset(r);
    assert p in kept <==> p in multiset(kept);
  }

  /** With "price-asc" prices never go down along the table; with
      "price-desc" they never go up. */
  lemma FilteredProductsByPrice(products: seq<Product>, query: string, universeFilter: UniverseFilter, sortBy: SortBy, i: nat, j: nat)
    requires sortBy == PriceAsc || sortBy == PriceDesc
    requires i < j < |FilteredProducts(products, query, universeFilter, sortBy)|
    ensures var r := FilteredProducts(products, query, universeFilter, sortBy);
            if sortBy == PriceAsc then r[i].price <= r[j].price else r[i].price >= r[j].price
  {
    FilteredProductsSpec(products, query, universeFilter, sortBy);
  }

  /** A blank query with every universe selected shows the whole list. */
  lemma BlankQueryShowsAll(products: seq<Product>, query: string, sortBy: SortBy)
    requires AllSpace(query)
    ensures multiset(FilteredProducts(products, query, AllUniverses, sortBy)) == multiset(products)
  {
    TrimBlank(query);
    FilterAll(ShownBy(AllUniverses, Lower(Trim(query))), products);
    FilteredProductsSpec(products, query, AllUniverses, sortBy);
  }
}
