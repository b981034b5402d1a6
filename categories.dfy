/** The category registry of `data/categories.json`, and the category list the
    shop shows: the registered names, the categories products use and the
    built-in taxonomy labels, trimmed, de-duplicated and sorted. Creating,
    deleting and renaming a category also moves products through the product
    repository. */
module Categories {
  import opened Wrappers
  import opened Text
  import opened Seqs
  import opened Sorting
  import opened UniverseCategories
  import opened Products
  import Json

  const CategoryNameRequired: string := "Nom de catégorie requis."
  const ReplacementMustDiffer: string := "La catégorie de remplacement doit être différente."
  const CategoryInUse: string :=
    "Cette catégorie contient des produits. Choisir une catégorie de remplacement."
  const NextNameRequired: string := "Nouveau nom de catégorie requis."
  const CategoryNotFound: string := "Catégorie introuvable."

  /** `normalizeCategoryName`: the name without surrounding white space; it
      is empty exactly when the name is blank. */
  function NormalizeCategoryName(value: string): (r: string)
    ensures IsTrimmed(r) && |r| <= |value|
    ensures r == [] <==> AllSpace(value)
  {
    TrimBlank(value);
    Trim(value)
  }

  /** A name the list can hold: trimmed and not empty. */
  predicate Listable(x: string)
  {
    x != [] && IsTrimmed(x)
  }

  /** The `map(trim)` and `filter(Boolean)` steps of `uniqSorted`, fused. */
  function TrimmedName(v: string): Option<string>
  {
    var t := Trim(v);
    if t == [] then None else Some(t)
  }

  /** `uniqSorted`: trim, drop the empty names, keep one copy of each and sort. */
  function UniqSorted(values: seq<string>): seq<string>
  {
    InsertionSort(Dedupe(FilterMap(TrimmedName, values)), StrLe)
  }

  /** The shape `uniqSorted` promises: a sorted list of distinct trimmed
      non-empty names. */
  lemma UniqSortedShape(values: seq<string>)
    ensures var r := UniqSorted(values);
            && Distinct(r) && SortedBy(r, StrLe)
            && (forall i :: 0 <= i < |r| ==> Listable(r[i]))
  {
    UniqSortedOrdered(values);
    UniqSortedListable(values);
  }

  lemma UniqSortedOrdered(values: seq<string>)
    ensures Distinct(UniqSorted(values)) && SortedBy(UniqSorted(values), StrLe)
  {
    var d := Dedupe(FilterMap(TrimmedName, values));
    StrLeIsTotalPreorder();
    InsertionSortSorted(d, StrLe);
    PermutationDistinct(d, InsertionSort(d, StrLe));
  }

  lemma UniqSortedListable(values: seq<string>)
    ensures forall i :: 0 <= i < |UniqSorted(values)| ==> Listable(UniqSorted(values)[i])
  {
    var d := Dedupe(FilterMap(TrimmedName, values));
    var r := InsertionSort(d, StrLe);
    forall i | 0 <= i < |r| ensures Listable(r[i]) {
      assert r[i] in multiset(r);
      FilterMapMembers(TrimmedName, values, r[i]);
    }
  }

  /** What `uniqSorted` holds: exactly the non-empty trimmed inputs. */
  lemma UniqSortedMembers(values: seq<string>, x: string)
    ensures x in UniqSorted(values) <==> x != [] && exists j :: 0 <= j < |values| && Trim(values[j]) == x
  {
    var d := Dedupe(FilterMap(TrimmedName, values));
    var r := InsertionSort(d, StrLe);
    assert x in r <==> x in multiset(r);
    assert x in d <==> x in multiset(d);
    FilterMapMembers(TrimmedName, values, x);
  }

  /** `uniqSorted` of two lists spread into one holds what either holds. */
  lemma UniqSortedConcat(a: seq<string>, b: seq<string>, x: string)
    ensures x in UniqSorted(a + b) <==> x in UniqSorted(a) || x in UniqSorted(b)
  {
    UniqSortedMembers(a + b, x);
    UniqSortedMembers(a, x);
    UniqSortedMembers(b, x);
    if x in UniqSorted(a + b) {
      var j :| 0 <= j < |a + b| && Trim((a + b)[j]) == x;
      if j >= |a| {
        assert b[j - |a|] == (a + b)[j];
      }
    }
    if x in UniqSorted(b) {
      var j :| 0 <= j < |b| && Trim(b[j]) == x;
      assert (a + b)[|a| + j] == b[j];
    }
    if x in UniqSorted(a) {
      var j :| 0 <= j < |a| && Trim(a[j]) == x;
      assert (a + b)[j] == a[j];
    }
  }

  /** A list `uniqSorted` could have produced is left as it is. */
  lemma UniqSortedFixed(values: seq<string>)
    requires Distinct(values) && SortedBy(values, StrLe)
    requires forall i :: 0 <= i < |values| ==> Listable(values[i])
    ensures UniqSorted(values) == values
  {
    forall i | 0 <= i < |values| ensures TrimmedName(values[i]) == Some(values[i]) {
      TrimTrimmed(values[i]);
    }
    FilterMapIdentity(TrimmedName, values);
    DedupeDistinct(values);
    InsertionSortFixed(values, StrLe);
  }

  /** Writing a `uniqSorted` list and reading it back through `uniqSorted`
      gives the same list. */
  lemma UniqSortedIdempotent(values: seq<string>)
    ensures UniqSorted(UniqSorted(values)) == UniqSorted(values)
  {
    UniqSortedShape(values);
    UniqSortedFixed(UniqSorted(values));
  }

  /** On names that are already listable, `uniqSorted` loses and adds nothing. */
  lemma UniqSortedListableMembers(values: seq<string>)
    requires forall i :: 0 <= i < |values| ==> Listable(values[i])
    ensures forall x :: x in UniqSorted(values) <==> x in values
  {
    forall x ensures x in UniqSorted(values) <==> x in values {
      UniqSortedMembers(values, x);
      if x in values {
        var j :| 0 <= j < |values| && values[j] == x;
        TrimTrimmed(values[j]);
      }
      if x in UniqSorted(values) {
        var j :| 0 <= j < |values| && Trim(values[j]) == x;
        TrimTrimmed(values[j]);
      }
    }
  }

  /** The built-in names, in the order `getCategories` spreads them. */
  const BuiltInCategories: seq<string> :=
    ModeCategoryLabels + ModeClothingSubcategories + UniverseCategoryLabels

  function ProductCategories(ps: seq<Product>): seq<string>
  {
    seq(|ps|, i requires 0 <= i < |ps| => ps[i].category)
  }

  /** `getCategories` on given registry contents and products. */
  function Categories(registered: seq<string>, ps: seq<Product>): seq<string>
  {
    UniqSorted(registered + ProductCategories(ps) + BuiltInCategories)
  }

  /** The list is sorted and duplicate-free. */
  lemma CategoriesShape(registered: seq<string>, ps: seq<Product>)
    ensures var r := Categories(registered, ps);
            && Distinct(r) && SortedBy(r, StrLe) && forall i :: 0 <= i < |r| ==> Listable(r[i])
  {
    UniqSortedShape(registered + ProductCategories(ps) + BuiltInCategories);
  }

  /** A name is listed exactly when it comes, trimmed, from the registry, from
      a product or from the built-in names. */
  lemma CategoriesMembers(registered: seq<string>, ps: seq<Product>, x: string)
    ensures x in Categories(registered, ps) <==>
              || x in UniqSorted(registered)
              || x in UniqSorted(ProductCategories(ps))
              || x in UniqSorted(BuiltInCategories)
  {
    UniqSortedConcat(registered + ProductCategories(ps), BuiltInCategories, x);
    UniqSortedConcat(registered, ProductCategories(ps), x);
  }

  /** Every listable registered name is listed. */
  lemma RegisteredListed(registered: seq<string>, ps: seq<Product>, x: string)
    requires x in registered && Listable(x)
    ensures x in Categories(registered, ps)
  {
    CategoriesMembers(registered, ps, x);
    UniqSortedMembers(registered, x);
    var j :| 0 <= j < |registered| && registered[j] == x;
    TrimTrimmed(x);
  }

  /** Every product with a non-blank category has that category listed. */
  lemma ProductCategoryListed(registered: seq<string>, ps: seq<Product>, i: nat)
    requires i < |ps| && Trim(ps[i].category) != []
    ensures Trim(ps[i].category) in Categories(registered, ps)
  {
    var x := Trim(ps[i].category);
    CategoriesMembers(registered, ps, x);
    UniqSortedMembers(ProductCategories(ps), x);
    assert ProductCategories(ps)[i] == ps[i].category;
  }

  /** Every non-blank built-in name is listed. */
  lemma BuiltInListed(registered: seq<string>, ps: seq<Product>, b: string)
    requires b in BuiltInCategories && Trim(b) != []
    ensures Trim(b) in Categories(registered, ps)
  {
    CategoriesMembers(registered, ps, Trim(b));
    UniqSortedMembers(BuiltInCategories, Trim(b));
    var j :| 0 <= j < |BuiltInCategories| && BuiltInCategories[j] == b;
  }

  /** The fixed taxonomy labels are listed whatever the registry and the
      products hold, so deleting one of them never takes it off the list. */
  lemma TaxonomyLabelsListed(registered: seq<string>, ps: seq<Product>, l: string)
    requires l in ModeCategoryLabels + UniverseCategoryLabels
    ensures l in Categories(registered, ps)
  {
    assert l in BuiltInCategories;
    assert l != [] && !IsSpace(l[0]) && !IsSpace(l[|l| - 1]);
    TrimTrimmed(l);
    BuiltInListed(registered, ps, l);
  }

  datatype CategoryInfo = CategoryInfo(name: string, count: nat)

  datatype Creation = Creation(created: bool, name: string)

  datatype Renaming = Renaming(reassigned: nat, merged: bool)

  function NotNamed(name: string): string -> bool
  {
    (c: string) => c != name
  }

  /** The replacement name of `deleteCategory`: an absent or empty argument is
      no replacement. */
  function ReplacementName(raw: Option<string>): (r: string)
    ensures IsTrimmed(r)
    ensures raw.None? ==> r == []
    ensures raw.Some? ==> (r == [] <==> AllSpace(raw.value))
  {
    match raw
    case None => []
    case Some(s) => NormalizeCategoryName(s)
  }

  /** The counting of `getCategoryInfos`: one pass over the products fills a
      map from category to count, then each name gets its count or 0. */
  method CountByCategory(categories: seq<string>, products: seq<Product>) returns (infos: seq<CategoryInfo>)
    ensures |infos| == |categories|
    ensures forall k :: 0 <= k < |infos| ==>
              infos[k].name == categories[k] && infos[k].count == Count(InCategory(categories[k]), products)
  {
    var counts: map<string, nat> := map[];
    var i := 0;
    while i < |products|
      invariant 0 <= i <= |products|
      invariant forall c :: Count(InCategory(c), products[..i]) == if c in counts then counts[c] else 0
    {
      var p := products[i];
      TakeSnoc(products, i);
      forall c ensures Count(InCategory(c), products[..i + 1])
                       == Count(InCategory(c), products[..i]) + (if p.category == c then 1 else 0)
      {
        CountSnoc(InCategory(c), products[..i], p);
      }
      counts := counts[p.category := (if p.category in counts then counts[p.category] else 0) + 1];
      i := i + 1;
    }
    assert products[..i] == products;
    infos := seq(|categories|, k requires 0 <= k < |categories| =>
               CategoryInfo(categories[k], if categories[k] in counts then counts[categories[k]] else 0));
  }

  /** Adding a listable name to a registry `uniqSorted` produced: the written
      list reads back unchanged and holds the old names and the new one. */
  lemma AddedToRegistry(registered: seq<string>, name: string)
    requires forall i :: 0 <= i < |registered| ==> Listable(registered[i])
    requires Listable(name)
    ensures var next := UniqSorted(registered + [name]);
            && UniqSorted(next) == next
            && forall x :: x in next <==> x in registered || x == name
  {
    var all := registered + [name];
    forall i | 0 <= i < |all|
      ensures Listable(all[i])
    {
      if i < |registered| {
        assert all[i] == registered[i];
      }
    }
    UniqSortedIdempotent(all);
    UniqSortedListableMembers(all);
  }

  /** What `readCategoryFile` makes of the parsed file before `uniqSorted`:
      `data.map((v) => String(v))` on an array; `None` when the file is
      missing or does not parse (`data` is `None`), when it is not an array,
      and when `String` throws on an entry, since the `catch` returns `[]`
      in every such case. */
  function FileEntries(data: Option<Json.Value>, showNumber: real -> string): (r: Option<seq<string>>)
    ensures r.Some? <==> data.Some? && data.value.Arr? && !Json.CoercionThrows(data.value)
    ensures r.Some? ==>
              && |r.value| == |data.value.items|
              && forall i :: 0 <= i < |r.value| ==> Some(r.value[i]) == Json.ToStr(data.value.items[i], showNumber)
  {
    if data.Some? && data.value.Arr? then
      var items := data.value.items;
      if exists i :: 0 <= i < |items| && Json.CoercionThrows(items[i]) then None
      else Some(seq(|items|, i requires 0 <= i < |items| => Json.ToStr(items[i], showNumber).value))
    else None
  }

  /** The registry file next to the product repository. */
  class CategoryRegistry {
    /** The file's entries as `FileEntries` gives them: `None` when it is
        missing, is not a JSON array or holds an entry `String` throws on. */
    var file: Option<seq<string>>
    const store: ProductStore

    constructor (initial: Option<seq<string>>, products: ProductStore)
      ensures file == initial && store == products
    {
      file := initial;
      store := products;
    }

    /** `readCategoryFile`: the registered names, through `uniqSorted`. */
    function Registered(): (r: seq<string>)
      reads this
      ensures file.None? ==> r == []
    {
      if file.None? then [] else UniqSorted(file.value)
    }

    /** `getCategories`. */
    function Listed(): seq<string>
      reads this, store
    {
      Categories(Registered(), store.FromFile())
    }

    lemma RegisteredListable()
      ensures Distinct(Registered()) && SortedBy(Registered(), StrLe)
      ensures forall i :: 0 <= i < |Registered()| ==> Listable(Registered()[i])
    {
      if file.Some? {
        UniqSortedShape(file.value);
      }
    }

    /** `getCategoryInfos`. */
    method CategoryInfos() returns (infos: seq<CategoryInfo>)
      ensures |infos| == |Listed()|
      ensures forall k :: 0 <= k < |infos| ==>
                infos[k].name == Listed()[k] && infos[k].count == Count(InCategory(infos[k].name), store.FromFile())
    {
      infos := CountByCategory(Listed(), store.FromFile());
    }

    /** `createCategory`: refuses a blank name; a listed name is reported as
        not created; any other name is added to the registry. */
    method CreateCategory(rawName: string) returns (r: Result<Creation, string>)
      modifies this
      ensures var name := NormalizeCategoryName(rawName);
              && (name == [] ==> r == Err(CategoryNameRequired) && file == old(file))
              && (name != [] && name in old(Listed()) ==> r == Ok(Creation(false, name)) && file == old(file))
              && (name != [] && name !in old(Listed()) ==>
                    r == Ok(Creation(true, name)) && file == Some(UniqSorted(old(Registered()) + [name])))
      ensures forall x :: x in Registered() <==> x in old(Registered()) || (r.Ok? && r.value.created && x == r.value.name)
    {
      var name := NormalizeCategoryName(rawName);
      if name == [] {
        return Err(CategoryNameRequired);
      }
      var existing := Listed();
      if name in existing {
        return Ok(Creation(false, name));
      }
      var current := Registered();
      RegisteredListable();
      AddedToRegistry(current, name);
      current := current + [name];
      file := Some(UniqSorted(current));
      r := Ok(Creation(true, name));
    }

    /** `removeRegisteredCategory`: drops the name from the registry and
        keeps the rest in order. */
    method RemoveRegisteredCategory(name: string)
      modifies this
      ensures file == Some(UniqSorted(Filter(NotNamed(name), old(Registered()))))
      ensures Registered() == Filter(NotNamed(name), old(Registered()))
    {
      var current := Registered();
      RegisteredListable();
      var next := Filter(NotNamed(name), current);
      FilterDistinct(NotNamed(name), current);
      FilterSorted(NotNamed(name), current, StrLe);
      FilterKeeps(NotNamed(name), current, Listable);
      UniqSortedFixed(next);
      file := Some(UniqSorted(next));
    }

    /** The steps `deleteCategory` and `renameCategory` share: register the
        target unless it is listed, move the products of `name` to it, and
        drop `name` from the registry. */
    method MoveCategory(name: string, target: string) returns (reassigned: nat)
      requires Listable(name) && Listable(target) && name != target
      modifies this, store
      ensures reassigned == Count(InCategory(name), old(store.FromFile()))
      ensures reassigned == 0 ==> store.file == old(store.file)
      ensures store.FromFile() == RecategorizeAll(old(store.FromFile()), name, target)
      ensures Count(InCategory(name), store.FromFile()) == 0
      ensures forall x :: x in Registered() <==>
                x != name && (x in old(Registered()) || (x == target && x !in old(Listed())))
    {
      ghost var listed, registered := Listed(), Registered();
      TrimTrimmed(target);
      var _ := CreateCategory(target);
      ghost var added := Registered();
      reassigned := store.ReplaceCategory(name, target);
      RemoveRegisteredCategory(name);
      MovedRegistry(registered, listed, added, Registered(), name, target);
    }

    /** The registry after a move: `target` joined it unless it was listed,
        then `name` left it. */
    static lemma MovedRegistry(registered: seq<string>, listed: seq<string>, added: seq<string>,
                               after: seq<string>, name: string, target: string)
      requires forall x :: x in added <==> x in registered || (x == target && x !in listed)
      requires after == Filter(NotNamed(name), added)
      ensures forall x :: x in after <==> x != name && (x in registered || (x == target && x !in listed))
    {
      forall x
        ensures x in after <==> x != name && x in added
      {
        assert NotNamed(name)(x) <==> x != name;
      }
    }

    /** `deleteCategory`: refuses a blank name, a replacement equal to the
        name, and a category still in use without a replacement, changing
        nothing. Otherwise the products of the category move to the
        replacement (registered first if it is not listed), the name leaves
        the registry, and the number of moved products is returned. */
    method DeleteCategory(rawName: string, rawReplacement: Option<string>) returns (r: Result<nat, string>)
      modifies this, store
      ensures var name := NormalizeCategoryName(rawName);
              var replacement := ReplacementName(rawReplacement);
              var usage := Count(InCategory(name), old(store.FromFile()));
              && (name == [] ==> r == Err(CategoryNameRequired))
              && (name != [] && replacement == name ==> r == Err(ReplacementMustDiffer))
              && (name != [] && replacement != name && usage > 0 && replacement == [] ==> r == Err(CategoryInUse))
              && (name != [] && replacement != name && (usage == 0 || replacement != []) ==> r == Ok(usage))
              && (r.Err? ==> file == old(file) && store.file == old(store.file))
              && (r.Ok? && usage == 0 ==> store.file == old(store.file))
              && (r.Ok? && usage > 0 ==> store.FromFile() == RecategorizeAll(old(store.FromFile()), name, replacement))
              && (r.Ok? ==> Count(InCategory(name), store.FromFile()) == 0)
              && (r.Ok? ==> forall x :: x in Registered() <==>
                    x != name && (x in old(Registered()) || (usage > 0 && x == replacement && x !in old(Listed()))))
    {
      var name := NormalizeCategoryName(rawName);
      var replacement := ReplacementName(rawReplacement);
      if name == [] {
        return Err(CategoryNameRequired);
      }
      if replacement != [] && replacement == name {
        return Err(ReplacementMustDiffer);
      }
      var usage := store.CountProductsByCategory(name);
      if usage > 0 {
        if replacement == [] {
          return Err(CategoryInUse);
        }
        var reassigned := MoveCategory(name, replacement);
        return Ok(reassigned);
      }
      RemoveRegisteredCategory(name);
      r := Ok(0);
    }

    /** `renameCategory`: refuses blank names and a name that is not listed;
        renaming to the same name changes nothing. Otherwise the new name is
        registered if it is not listed yet, every product moves to it, the old
        name leaves the registry, and `merged` says whether the new name was
        already listed. */
    method RenameCategory(rawName: string, rawNextName: string) returns (r: Result<Renaming, string>)
      modifies this, store
      ensures var name := NormalizeCategoryName(rawName);
              var nextName := NormalizeCategoryName(rawNextName);
              && (name == [] ==> r == Err(CategoryNameRequired))
              && (name != [] && nextName == [] ==> r == Err(NextNameRequired))
              && (name != [] && nextName != [] && name !in old(Listed()) ==> r == Err(CategoryNotFound))
              && (name != [] && name in old(Listed()) && name == nextName ==> r == Ok(Renaming(0, false)))
              && (r.Err? || name == nextName ==> file == old(file) && store.file == old(store.file))
              && (name != [] && nextName != [] && name in old(Listed()) && name != nextName ==>
                    && r == Ok(Renaming(Count(InCategory(name), old(store.FromFile())), nextName in old(Listed())))
                    && store.FromFile() == RecategorizeAll(old(store.FromFile()), name, nextName)
                    && Count(InCategory(name), store.FromFile()) == 0
                    && forall x :: x in Registered() <==>
                         x != name && (x in old(Registered()) || (x == nextName && x !in old(Listed()))))
    {
      var name := NormalizeCategoryName(rawName);
      var nextName := NormalizeCategoryName(rawNextName);
      if name == [] {
        return Err(CategoryNameRequired);
      }
      if nextName == [] {
        return Err(NextNameRequired);
      }
      var existing := Listed();
      if name !in existing {
        return Err(CategoryNotFound);
      }
      if name == nextName {
        return Ok(Renaming(0, false));
      }
      var merged := nextName in existing;
      var reassigned := MoveCategory(name, nextName);
      r := Ok(Renaming(reassigned, merged));
    }
  }
}
