/** The clothing selector on the "Mode" page: the sub-categories offered in
    the drop-down and the products shown for the selected option. */
module ModeClothingSelector {
  import opened Wrappers
  import opened Seqs
  import opened Products
  import opened UniverseCategories

  /** A product with the clothing sub-category the page attached to it, or
      `null`. */
  datatype ClothingProduct = ClothingProduct(product: Product, subCategory: Option<string>)

  /** `!product.subCategory`: no sub-category, or an empty one. */
  predicate WithoutSub(p: ClothingProduct)
  {
    p.subCategory.None? || p.subCategory.value == ""
  }

  /** `products.some((product) => product.subCategory === subCategory)`. */
  predicate Uses(products: seq<ClothingProduct>, subCategory: string)
  {
    exists i :: 0 <= i < |products| && products[i].subCategory == Some(subCategory)
  }

  /** `MODE_CLOTHING_SUBCATEGORIES.filter(…)`: the sub-categories some product uses. */
  function AvailableSubCategories(products: seq<ClothingProduct>): seq<string>
  {
    Filter((subCategory: string) => Uses(products, subCategory), ModeClothingSubcategories)
  }

  /** `products.some((product) => !product.subCategory)`. */
  predicate HasOtherClothing(products: seq<ClothingProduct>)
  {
    exists i :: 0 <= i < |products| && WithoutSub(products[i])
  }

  /** The test the non-"all" selections apply. */
  predicate Selects(selected: string, p: ClothingProduct)
  {
    if selected == "other" then WithoutSub(p) else p.subCategory == Some(selected)
  }

  /** `filteredProducts`: everything for "all", the products without a
      sub-category for "other", otherwise those of the selected one. */
  function FilteredProducts(products: seq<ClothingProduct>, selected: string): seq<ClothingProduct>
  {
    if selected == "all" then products
    else Filter((p: ClothingProduct) => Selects(selected, p), products)
  }

  /** The offered sub-categories are the used ones, in the order of the
      constant list. */
  lemma AvailableMembers(products: seq<ClothingProduct>, subCategory: string)
    ensures subCategory in AvailableSubCategories(products) <==>
            subCategory in ModeClothingSubcategories && Uses(products, subCategory)
    ensures IsSubsequence(AvailableSubCategories(products), ModeClothingSubcategories)
  {
    FilterSubsequence((s: string) => Uses(products, s), ModeClothingSubcategories);
  }

  /** "all" shows the list unchanged; any other choice shows exactly the
      products it selects, in their original order. */
  lemma FilteredProductsSpec(products: seq<ClothingProduct>, selected: string, p: ClothingProduct)
    ensures selected == "all" ==> FilteredProducts(products, selected) == products
    ensures selected != "all" ==>
              (p in FilteredProducts(products, selected) <==> p in products && Selects(selected, p))
    ensures IsSubsequence(FilteredProducts(products, selected), products)
  {
    if selected == "all" {
      SubsequenceOfItself(products);
    } else {
      FilterSubsequence((q: ClothingProduct) => Selects(selected, q), products);
    }
  }

  /** Every option in the drop-down shows at least one product: a
      sub-category is offered only when selecting it finds a product, and
      "Autres vêtements" only when "other" does. */
  lemma OfferedOptionsAreNotEmpty(products: seq<ClothingProduct>, subCategory: string)
    requires subCategory != "all" && subCategory != "other"
    ensures subCategory in AvailableSubCategories(products) ==> FilteredProducts(products, subCategory) != []
    ensures HasOtherClothing(products) <==> FilteredProducts(products, "other") != []
  {
    AvailableMembers(products, subCategory);
    if subCategory in AvailableSubCategories(products) {
      var i :| 0 <= i < |products| && products[i].subCategory == Some(subCategory);
      FilteredProductsSpec(products, subCategory, products[i]);
    }
    if HasOtherClothing(products) {
      var i :| 0 <= i < |products| && WithoutSub(products[i]);
      FilteredProductsSpec(products, "other", products[i]);
    }
    var others := FilteredProducts(products, "other");
    if others != [] {
      FilteredProductsSpec(products, "other", others[0]);
      var i :| 0 <= i < |products| && products[i] == others[0];
    }
  }

  /** Every product is reachable from some option besides "all": "other"
      when it has no sub-category, otherwise its own sub-category, which is
      then offered. */
  lemma EveryProductReachable(products: seq<ClothingProduct>, k: nat)
    requires k < |products|
    requires products[k].subCategory.Some? ==> products[k].subCategory.value in ModeClothingSubcategories
    ensures var p := products[k];
            if WithoutSub(p) then HasOtherClothing(products) && p in FilteredProducts(products, "other")
            else p.subCategory.value in AvailableSubCategories(products)
  {
    var p := products[k];
    if WithoutSub(p) {
      FilteredProductsSpec(products, "other", p);
    } else {
      AvailableMembers(products, p.subCategory.value);
    }
  }
}
