/** The file-backed product repository: the products kept in
    `data/products.json`, their image normalisation, URL slugs with a numeric
    suffix on collision, and the add, update, delete, count and bulk
    re-categorisation operations on them. */
module Products {
  import opened Wrappers
  import opened Text
  import opened Seqs
  import opened Json
  import opened ProductOptions

  datatype Universe = Mode | Tout

  /** A product as stored. Optional fields are `None` when absent. */
  datatype Product = Product(
    id: string,
    slug: string,
    name: string,
    price: real,
    category: string,
    universe: Universe,
    image: string,
    images: Option<seq<string>>,
    description: string,
    color: Option<string>,
    sizes: Option<seq<string>>)

  // ---------------------------------------------------------------------------
  // Images
  // ---------------------------------------------------------------------------

  /** `normalizeProductImages(images, image)`: the usable URLs of the legacy
      single image followed by the image list, trimmed and de-duplicated. */
  function NormalizeProductImages(images: Option<seq<string>>, image: string): (r: seq<string>)
    ensures ValidUrls(r)
    ensures Trim(image) != [] ==> r != [] && r[0] == Trim(image)
  {
    LegacyImageFirst(image, images.GetOr([]));
    UniqueUrls(Strs([image] + images.GetOr([])))
  }

  lemma LegacyImageFirst(image: string, xs: seq<string>)
    ensures var r := UniqueUrls(Strs([image] + xs));
            Trim(image) != [] ==> r != [] && r[0] == Trim(image)
  {
    if Trim(image) == [] {
      return;
    }
    var all := Strs([image] + xs);
    assert all == [Str(image)] + Strs(xs);
    FilterMapConcat(ToImageUrl, [Str(image)], Strs(xs));
    assert FilterMap(ToImageUrl, [Str(image)]) == [Trim(image)] by {
      assert [Str(image)][..0] == [];
    }
    var u := ImageUrls(all);
    assert u == [Trim(image)] + ImageUrls(Strs(xs));
    DedupeHead(u);
    assert UniqueUrls(all) == Dedupe(u);
  }

  /** A URL is kept exactly when it is the trimmed, non-blank form of the
      legacy image or of an element of the list. */
  lemma NormalizeProductImagesMembers(images: Option<seq<string>>, image: string, u: string)
    ensures u in NormalizeProductImages(images, image) <==>
            u != [] && (u == Trim(image) || exists x :: x in images.GetOr([]) && u == Trim(x))
  {
    LegacyAndListMembers(image, images.GetOr([]), u);
  }

  lemma LegacyAndListMembers(image: string, ys: seq<string>, u: string)
    ensures u in UniqueUrls(Strs([image] + ys)) <==>
            u != [] && (u == Trim(image) || exists x :: x in ys && u == Trim(x))
  {
    var xs := [image] + ys;
    UniqueUrlsMembers(Strs(xs), u);
    StrsTrimmed(xs, u);
    assert forall x :: x in xs <==> x == image || x in ys;
  }

  /** Some string of `xs`, trimmed, is `u`, whether read as JSON strings or not. */
  lemma StrsTrimmed(xs: seq<string>, u: string)
    ensures (exists j :: 0 <= j < |Strs(xs)| && Strs(xs)[j].Str? && u == Trim(Strs(xs)[j].s))
            <==> (exists x :: x in xs && u == Trim(x))
  {
    if exists x :: x in xs && u == Trim(x) {
      var x :| x in xs && u == Trim(x);
      var j :| 0 <= j < |xs| && xs[j] == x;
      assert Strs(xs)[j] == Str(x);
    }
    if exists j :: 0 <= j < |Strs(xs)| && Strs(xs)[j].Str? && u == Trim(Strs(xs)[j].s) {
      var j :| 0 <= j < |Strs(xs)| && Strs(xs)[j].Str? && u == Trim(Strs(xs)[j].s);
      assert xs[j] in xs;
    }
  }

  /** A valid list whose first URL is the legacy image normalises to itself. */
  lemma NormalizedImagesFixed(images: seq<string>)
    requires ValidUrls(images) && images != []
    ensures NormalizeProductImages(Some(images), images[0]) == images
  {
    var x := images[0];
    var xs := [x] + images;
    UrlsWithRepeatedHead(images);
    ImageUrlsOfStrs(xs);
    assert UniqueUrls(Strs(xs)) == Dedupe(xs);
    HeadSplit(images);
    DedupeRepeatHead(x, images[1..]);
    DedupeDistinct(images);
  }

  lemma UrlsWithRepeatedHead(images: seq<string>)
    requires ValidUrls(images) && images != []
    ensures forall i :: 0 <= i < |[images[0]] + images| ==> IsUrl(([images[0]] + images)[i])
  {
    var xs := [images[0]] + images;
    forall i | 0 <= i < |xs| ensures IsUrl(xs[i]) {
      if i > 0 {
        assert xs[i] == images[i - 1];
      }
    }
  }

  /** `normalizeProduct`: the image list is normalised and the main image is
      its first URL; without any usable URL the product is left as it is. */
  function NormalizeProduct(p: Product): Product
  {
    var images := NormalizeProductImages(p.images, p.image);
    if images != [] then p.(image := images[0], images := Some(images)) else p
  }

  /** Only the image fields change; with a usable URL the list is valid and the
      main image is its first URL, the legacy image when that one is usable. */
  lemma NormalizeProductEffect(p: Product)
    ensures var r := NormalizeProduct(p);
            && r.(image := p.image, images := p.images) == p
            && (NormalizeProductImages(p.images, p.image) == [] ==> r == p)
            && (NormalizeProductImages(p.images, p.image) != [] ==>
                  r.images.Some? && r.images.value != [] && ValidUrls(r.images.value)
                  && r.image == r.images.value[0])
            && (Trim(p.image) != [] ==> r.image == Trim(p.image))
  {
  }

  predicate Normalized(p: Product)
  {
    NormalizeProduct(p) == p
  }

  /** Normalising a product twice is normalising it once. */
  lemma NormalizeProductIdempotent(p: Product)
    ensures Normalized(NormalizeProduct(p))
  {
    var images := NormalizeProductImages(p.images, p.image);
    if images != [] {
      NormalizedImagesFixed(images);
    }
  }

  /** `data.map(normalizeProduct)`. */
  function NormalizeAll(ps: seq<Product>): (r: seq<Product>)
    ensures |r| == |ps|
  {
    if ps == [] then [] else [NormalizeProduct(ps[0])] + NormalizeAll(ps[1..])
  }

  lemma {:induction false} NormalizeAllAt(ps: seq<Product>, i: nat)
    requires i < |ps|
    ensures NormalizeAll(ps)[i] == NormalizeProduct(ps[i])
  {
    if i > 0 {
      NormalizeAllAt(ps[1..], i - 1);
    }
  }

  /** Every product of a normalised list is normalised. */
  lemma NormalizeAllNormalized(ps: seq<Product>)
    ensures forall i :: 0 <= i < |ps| ==> Normalized(NormalizeAll(ps)[i])
  {
    forall i | 0 <= i < |ps| ensures Normalized(NormalizeAll(ps)[i]) {
      NormalizeAllAt(ps, i);
      NormalizeProductIdempotent(ps[i]);
    }
  }

  /** A list of normalised products normalises to itself. */
  lemma {:induction false} NormalizeAllFixed(ps: seq<Product>)
    requires forall i :: 0 <= i < |ps| ==> Normalized(ps[i])
    ensures NormalizeAll(ps) == ps
  {
    if ps != [] {
      NormalizeAllFixed(ps[1..]);
      assert Normalized(ps[0]);
    }
  }

  /** A product whose list is a normalised list and whose main image is its
      first URL, or empty when the list is, is normalised. */
  lemma StoredImagesNormalized(p: Product, images: seq<string>)
    requires ValidUrls(images) && p.images == Some(images)
    requires p.image == if images != [] then images[0] else []
    ensures Normalized(p)
  {
    if images != [] {
      NormalizedImagesFixed(images);
    } else {
      var all := Strs([[]]);
      assert all == [Str([])];
      assert FilterMap(ToImageUrl, all) == [] by {
        assert all[..0] == [];
      }
      assert UniqueUrls(all) == Dedupe(ImageUrls(all));
    }
  }

  /** Replacing one product of a normalised list by a normalised product
      gives a list that reads back unchanged. */
  lemma ReplaceNormalized(ps: seq<Product>, k: nat, p: Product)
    requires k < |ps| && Normalized(p)
    requires forall i :: 0 <= i < |ps| ==> Normalized(ps[i])
    ensures NormalizeAll(ps[k := p]) == ps[k := p]
  {
    var next := ps[k := p];
    assert forall i :: 0 <= i < |next| ==> Normalized(next[i]);
    NormalizeAllFixed(next);
  }

  // ---------------------------------------------------------------------------
  // Slugs
  // ---------------------------------------------------------------------------

  predicate IsSlugChar(c: char)
  {
    'a' <= c <= 'z' || '0' <= c <= '9'
  }

  /** Letters, digits and single dashes. */
  predicate IsSlugText(s: string)
  {
    && (forall i :: 0 <= i < |s| ==> IsSlugChar(s[i]) || s[i] == '-')
    && (forall i :: 0 <= i < |s| - 1 ==> s[i] == '-' ==> s[i + 1] != '-')
  }

  /** What `slugify` promises: letters, digits and single dashes, with no dash
      at either end. */
  predicate IsSlug(s: string)
  {
    IsSlugText(s) && (s == [] || (s[0] != '-' && s[|s| - 1] != '-'))
  }

  /** `.replace(/[^a-z0-9]+/g, "-")`: every maximal run of other characters
      becomes a single dash. */
  function Dashify(s: string): (r: string)
    ensures IsSlugText(r)
    ensures (r != [] && r[|r| - 1] == '-') <==> (s != [] && !IsSlugChar(s[|s| - 1]))
  {
    if s == [] then []
    else
      var init := s[..|s| - 1];
      var c := s[|s| - 1];
      var d := Dashify(init);
      if IsSlugChar(c) then d + [c]
      else if init != [] && !IsSlugChar(init[|init| - 1]) then d
      else d + "-"
  }

  /** `.replace(/^-|-$/g, "")`: one leading and one trailing dash removed. */
  function TrimDashes(t: string): string
  {
    var u := if t != [] && t[0] == '-' then t[1..] else t;
    if u != [] && u[|u| - 1] == '-' then u[..|u| - 1] else u
  }

  lemma TrimDashesSlug(t: string)
    requires IsSlugText(t)
    ensures IsSlug(TrimDashes(t))
  {
    var u := if t != [] && t[0] == '-' then t[1..] else t;
    assert IsSlugText(u) && (u == [] || u[0] != '-');
    if u != [] && u[|u| - 1] == '-' {
      var v := u[..|u| - 1];
      assert v != [] ==> v[|v| - 1] != '-' by {
        if v != [] {
          assert u[|u| - 2] == v[|v| - 1];
        }
      }
    }
  }

  /** `slugify`: fold case and accents, then turn every run of characters
      other than `[a-z0-9]` into one dash and drop dashes at the ends. */
  function Slugify(name: string): (r: string)
    ensures IsSlug(r)
  {
    TrimDashesSlug(Dashify(Fold(name)));
    TrimDashes(Dashify(Fold(name)))
  }

  /** The dash runs are the only change: the letters and digits of the folded
      name all stay, in order. */
  lemma {:induction false} DashifyKeepsAlphanumerics(s: string)
    ensures Filter(IsSlugChar, Dashify(s)) == Filter(IsSlugChar, s)
  {
    if s != [] {
      var init := s[..|s| - 1];
      var c := s[|s| - 1];
      var d := Dashify(init);
      DashifyKeepsAlphanumerics(init);
      LastSplit(s);
      FilterSnoc(IsSlugChar, init, c);
      if IsSlugChar(c) {
        assert Dashify(s) == d + [c];
        FilterSnoc(IsSlugChar, d, c);
      } else if init != [] && !IsSlugChar(init[|init| - 1]) {
        assert Dashify(s) == d;
      } else {
        assert Dashify(s) == d + ['-'];
        FilterSnoc(IsSlugChar, d, '-');
      }
    }
  }

  lemma TrimDashesKeepsAlphanumerics(t: string)
    ensures Filter(IsSlugChar, TrimDashes(t)) == Filter(IsSlugChar, t)
  {
    var u := if t != [] && t[0] == '-' then t[1..] else t;
    if t != [] && t[0] == '-' {
      assert t == [t[0]] + u;
      FilterCons(IsSlugChar, t[0], u);
    }
    if u != [] && u[|u| - 1] == '-' {
      var v := u[..|u| - 1];
      LastSplit(u);
      FilterSnoc(IsSlugChar, v, '-');
    }
  }

  /** A slug holds exactly the letters and digits of the folded name, in order. */
  lemma SlugKeepsAlphanumerics(name: string)
    ensures Filter(IsSlugChar, Slugify(name)) == Filter(IsSlugChar, Fold(name))
  {
    DashifyKeepsAlphanumerics(Fold(name));
    TrimDashesKeepsAlphanumerics(Dashify(Fold(name)));
  }

  lemma {:induction false} DashifySlugText(s: string)
    requires IsSlugText(s)
    ensures Dashify(s) == s
  {
    if s != [] {
      var init := s[..|s| - 1];
      assert IsSlugText(init);
      DashifySlugText(init);
      if |s| > 1 {
        assert s[|s| - 2] == init[|init| - 1];
      }
      assert s == init + [s[|s| - 1]];
    }
  }

  lemma FoldSlug(s: string)
    requires IsSlugText(s)
    ensures Fold(s) == s
  {
    forall i | 0 <= i < |s| ensures FoldChar(s[i]) == [s[i]] {
    }
    FoldCharwise(s, s);
  }

  /** A slug is its own slug. */
  lemma SlugifyIdempotent(name: string)
    ensures Slugify(Slugify(name)) == Slugify(name)
  {
    var s := Slugify(name);
    FoldSlug(s);
    DashifySlugText(s);
  }

  /** The slug tried after `k` collisions. */
  function Candidate(base: string, k: nat): string
  {
    if k == 0 then base else base + "-" + NatToString(k)
  }

  lemma CandidatesDiffer(base: string, j: nat, k: nat)
    requires j != k
    ensures Candidate(base, j) != Candidate(base, k)
  {
    if j != 0 && k != 0 && Candidate(base, j) == Candidate(base, k) {
      var n := |base| + 1;
      assert Candidate(base, j)[n..] == NatToString(j);
      assert Candidate(base, k)[n..] == NatToString(k);
      NatToStringInjective(j, k);
    }
  }

  /** `products.some(p => p.slug === slug)`, or with `except`,
      `products.some(p => p.id !== except && p.slug === slug)`. */
  predicate Taken(ps: seq<Product>, slug: string, except: Option<string>)
  {
    exists i :: 0 <= i < |ps| && ps[i].slug == slug && (except.None? || ps[i].id != except.value)
  }

  function SlugSet(ps: seq<Product>): set<string>
  {
    if ps == [] then {} else {ps[0].slug} + SlugSet(ps[1..])
  }

  lemma {:induction false} SlugSetSize(ps: seq<Product>)
    ensures |SlugSet(ps)| <= |ps|
  {
    if ps != [] {
      SlugSetSize(ps[1..]);
    }
  }

  lemma {:induction false} TakenInSlugSet(ps: seq<Product>, slug: string, except: Option<string>)
    requires Taken(ps, slug, except)
    ensures slug in SlugSet(ps)
  {
    if ps[0].slug != slug || (except.Some? && ps[0].id == except.value) {
      var i :| 0 <= i < |ps| && ps[i].slug == slug && (except.None? || ps[i].id != except.value);
      assert ps[1..][i - 1] == ps[i];
      TakenInSlugSet(ps[1..], slug, except);
    }
  }

  function CandidateSet(base: string, k: nat): set<string>
  {
    if k == 0 then {base} else CandidateSet(base, k - 1) + {Candidate(base, k)}
  }

  lemma {:induction false} CandidateSetMembers(base: string, k: nat, x: string)
    ensures x in CandidateSet(base, k) <==> exists j :: 0 <= j <= k && x == Candidate(base, j)
  {
    if k == 0 {
      if x == base {
        assert x == Candidate(base, 0);
      }
    } else {
      CandidateSetMembers(base, k - 1, x);
      if x == Candidate(base, k) {
        assert exists j :: 0 <= j <= k && x == Candidate(base, j);
      }
      if exists j :: 0 <= j <= k && x == Candidate(base, j) {
        var j :| 0 <= j <= k && x == Candidate(base, j);
        if j < k {
          assert exists j' :: 0 <= j' <= k - 1 && x == Candidate(base, j');
        }
      }
    }
  }

  lemma {:induction false} CandidateSetSize(base: string, k: nat)
    ensures |CandidateSet(base, k)| == k + 1
  {
    if k > 0 {
      CandidateSetSize(base, k - 1);
      CandidateSetMembers(base, k - 1, Candidate(base, k));
      forall j | 0 <= j <= k - 1 ensures Candidate(base, k) != Candidate(base, j) {
        CandidatesDiffer(base, j, k);
      }
    }
  }

  lemma SubsetSize(a: set<string>, b: set<string>)
    requires a <= b
    ensures |a| <= |b|
  {
    assert b == a + (b - a);
  }

  /** The collision loop stops in time: when the first `k + 1` candidates are
      all taken there are more than `k` products. */
  lemma SuffixBound(ps: seq<Product>, base: string, except: Option<string>, k: nat)
    requires forall j :: 0 <= j <= k ==> Taken(ps, Candidate(base, j), except)
    ensures k < |ps|
  {
    forall x | x in CandidateSet(base, k) ensures x in SlugSet(ps) {
      CandidateSetMembers(base, k, x);
      var j :| 0 <= j <= k && x == Candidate(base, j);
      TakenInSlugSet(ps, x, except);
    }
    SubsetSize(CandidateSet(base, k), SlugSet(ps));
    CandidateSetSize(base, k);
    SlugSetSize(ps);
  }

  /** The collision loop of `addProduct` and `updateProduct`: the first
      candidate no other product uses, with the suffix it needed. */
  method FreeSlug(ps: seq<Product>, base: string, except: Option<string>) returns (slug: string, suffix: nat)
    ensures slug == Candidate(base, suffix) && !Taken(ps, slug, except)
    ensures forall j :: 0 <= j < suffix ==> Taken(ps, Candidate(base, j), except)
    ensures suffix <= |ps|
  {
    slug := base;
    suffix := 0;
    while Taken(ps, slug, except)
      invariant slug == Candidate(base, suffix)
      invariant forall j :: 0 <= j < suffix ==> Taken(ps, Candidate(base, j), except)
      invariant suffix <= |ps|
      decreases |ps| - suffix
    {
      SuffixBound(ps, base, except, suffix);
      suffix := suffix + 1;
      slug := base + "-" + NatToString(suffix);
    }
  }

  /** `p` is the record `addProduct` stores for `input` over `ps`: the input
      itself except for a fresh id, the least free slug and the normalised
      images led by the primary image. */
  ghost predicate AddedAs(ps: seq<Product>, input: Product, freshId: string, p: Product)
  {
    var images := NormalizeProductImages(input.images, input.image);
    var base := Slugify(input.name);
    && p.(id := input.id, slug := input.slug, image := input.image, images := input.images) == input
    && p.id == freshId
    && images != [] && p.images == Some(images) && p.image == images[0]
    && !Taken(ps, p.slug, None)
    && exists k :: 0 <= k <= |ps| && p.slug == Candidate(base, k)
                   && forall j :: 0 <= j < k ==> Taken(ps, Candidate(base, j), None)
  }

  /** The slugs of a list, in order. */
  function Slugs(ps: seq<Product>): (r: seq<string>)
    ensures |r| == |ps| && forall i :: 0 <= i < |ps| ==> r[i] == ps[i].slug
  {
    seq(|ps|, i requires 0 <= i < |ps| => ps[i].slug)
  }

  /** Appending a product whose slug nobody uses keeps the slugs unique. */
  lemma AppendKeepsSlugsUnique(ps: seq<Product>, p: Product)
    requires Distinct(Slugs(ps)) && !Taken(ps, p.slug, None)
    ensures Distinct(Slugs(ps + [p]))
  {
    var s := Slugs(ps + [p]);
    forall i, j | 0 <= i < j < |s| ensures s[i] != s[j] {
      if j == |ps| {
        assert s[i] == ps[i].slug;
      } else {
        assert s[i] == Slugs(ps)[i] && s[j] == Slugs(ps)[j];
      }
    }
  }

  // ---------------------------------------------------------------------------
  // Updates and categories
  // ---------------------------------------------------------------------------

  /** `Partial<Omit<Product, "id">>`: the fields an update sets. `color` may be
      set to `undefined` (`Some(None)`), which removes it. */
  datatype Patch = Patch(
    slug: Option<string>,
    name: Option<string>,
    price: Option<real>,
    category: Option<string>,
    universe: Option<Universe>,
    image: Option<string>,
    images: Option<seq<string>>,
    description: Option<string>,
    color: Option<Option<string>>,
    sizes: Option<seq<string>>)

  /** `{ ...product, ...patch }`. */
  function ApplyPatch(p: Product, patch: Patch): Product
  {
    Product(
      p.id,
      patch.slug.GetOr(p.slug),
      patch.name.GetOr(p.name),
      patch.price.GetOr(p.price),
      patch.category.GetOr(p.category),
      patch.universe.GetOr(p.universe),
      patch.image.GetOr(p.image),
      if patch.images.Some? then patch.images else p.images,
      patch.description.GetOr(p.description),
      patch.color.GetOr(p.color),
      if patch.sizes.Some? then patch.sizes else p.sizes)
  }

  /** The slug is regenerated only for a new, non-empty name. */
  predicate Renames(before: Product, patch: Patch)
  {
    patch.name.Some? && patch.name.value != [] && patch.name.value != before.name
  }

  /** The product `updateProduct` stores for the product `before` of the list
      `ps`: the patch applied, the images normalised (the main image is empty
      when none is usable) and, on a rename, the first candidate slug no other
      product uses. */
  predicate UpdatedAs(ps: seq<Product>, before: Product, patch: Patch, after: Product)
  {
    var merged := ApplyPatch(before, patch);
    var images := NormalizeProductImages(merged.images, merged.image);
    && after.(slug := merged.slug, image := merged.image, images := merged.images) == merged
    && after.images == Some(images)
    && after.image == (if images != [] then images[0] else [])
    && (!Renames(before, patch) ==> after.slug == merged.slug)
    && (Renames(before, patch) ==>
          var base := Slugify(patch.name.value);
          exists k :: 0 <= k <= |ps| && after.slug == Candidate(base, k)
                      && !Taken(ps, after.slug, Some(before.id))
                      && forall j :: 0 <= j < k ==> Taken(ps, Candidate(base, j), Some(before.id)))
  }

  lemma RenamedAs(ps: seq<Product>, before: Product, patch: Patch, after: Product, k: nat)
    requires Renames(before, patch)
    requires var merged := ApplyPatch(before, patch);
             var images := NormalizeProductImages(merged.images, merged.image);
             after.(slug := merged.slug)
             == merged.(image := if images != [] then images[0] else [], images := Some(images))
    requires var base := Slugify(patch.name.value);
             && k <= |ps| && after.slug == Candidate(base, k) && !Taken(ps, after.slug, Some(before.id))
             && forall j :: 0 <= j < k ==> Taken(ps, Candidate(base, j), Some(before.id))
    ensures UpdatedAs(ps, before, patch, after)
  {
  }

  function HasId(id: string): Product -> bool
  {
    (p: Product) => p.id == id
  }

  function LacksId(id: string): Product -> bool
  {
    (p: Product) => p.id != id
  }

  function InCategory(category: string): Product -> bool
  {
    (p: Product) => p.category == category
  }

  /** The callback of `replaceCategory`'s `map`. */
  function Recategorize(p: Product, oldCategory: string, newCategory: string): Product
  {
    if p.category == oldCategory then p.(category := newCategory) else p
  }

  function RecategorizeAll(ps: seq<Product>, oldCategory: string, newCategory: string): (r: seq<Product>)
    ensures |r| == |ps| && forall i :: 0 <= i < |ps| ==> r[i] == Recategorize(ps[i], oldCategory, newCategory)
  {
    seq(|ps|, i requires 0 <= i < |ps| => Recategorize(ps[i], oldCategory, newCategory))
  }

  /** After the replacement no product is left in the old category, the ones
      that were are in the new one, and nothing else changes. */
  lemma RecategorizeAllEffect(ps: seq<Product>, oldCategory: string, newCategory: string)
    requires oldCategory != newCategory
    ensures var r := RecategorizeAll(ps, oldCategory, newCategory);
            && Count(InCategory(oldCategory), r) == 0
            && forall i :: 0 <= i < |ps| ==>
                 && r[i].(category := ps[i].category) == ps[i]
                 && (ps[i].category == oldCategory ==> r[i].category == newCategory)
                 && (ps[i].category != oldCategory ==> r[i] == ps[i])
  {
    var r := RecategorizeAll(ps, oldCategory, newCategory);
    CountZero(InCategory(oldCategory), r);
  }

  /** Moving stored products to another category keeps them normalised, so
      reading the rewritten file gives back exactly what was written. */
  lemma RecategorizeReadBack(raw: seq<Product>, oldCategory: string, newCategory: string)
    ensures var ps := NormalizeAll(raw);
            NormalizeAll(RecategorizeAll(ps, oldCategory, newCategory))
            == RecategorizeAll(ps, oldCategory, newCategory)
  {
    var ps := NormalizeAll(raw);
    NormalizeAllNormalized(raw);
    var r := RecategorizeAll(ps, oldCategory, newCategory);
    forall i | 0 <= i < |r| ensures Normalized(r[i]) {
      assert Normalized(ps[i]);
    }
    NormalizeAllFixed(r);
  }

  /** With nobody in the old category the replacement changes nothing, so
      skipping the write loses nothing. */
  lemma RecategorizeNone(ps: seq<Product>, oldCategory: string, newCategory: string)
    requires Count(InCategory(oldCategory), ps) == 0
    ensures RecategorizeAll(ps, oldCategory, newCategory) == ps
  {
    CountZero(InCategory(oldCategory), ps);
  }

  /** The `map` of `replaceCategory`, which counts the products it moves. */
  method RecategorizeCounting(products: seq<Product>, oldCategory: string, newCategory: string)
    returns (next: seq<Product>, count: nat)
    ensures next == RecategorizeAll(products, oldCategory, newCategory)
    ensures count == Count(InCategory(oldCategory), products)
    ensures count == 0 ==> next == products
    ensures oldCategory != newCategory ==> Count(InCategory(oldCategory), next) == 0
  {
    count := 0;
    next := [];
    var i := 0;
    while i < |products|
      invariant 0 <= i <= |products|
      invariant |next| == i
      invariant forall j :: 0 <= j < i ==> next[j] == Recategorize(products[j], oldCategory, newCategory)
      invariant count == Count(InCategory(oldCategory), products[..i])
    {
      var p := products[i];
      TakeSnoc(products, i);
      CountSnoc(InCategory(oldCategory), products[..i], p);
      if p.category != oldCategory {
        next := next + [p];
      } else {
        count := count + 1;
        next := next + [p.(category := newCategory)];
      }
      i := i + 1;
    }
    assert products[..i] == products;
    if oldCategory != newCategory {
      RecategorizeAllEffect(products, oldCategory, newCategory);
    }
    if count == 0 {
      RecategorizeNone(products, oldCategory, newCategory);
    }
  }

  const NoImageError: string := "Au moins une image produit est requise."

  /** The repository of `data/products.json`. */
  class ProductStore {
    /** The parsed file: `None` when it is missing or is not a JSON array. */
    var file: Option<seq<Product>>

    constructor (initial: Option<seq<Product>>)
      ensures file == initial
    {
      file := initial;
    }

    /** `fromFile`: the stored products, normalised; a file that cannot be
        read gives no products. */
    function FromFile(): (r: seq<Product>)
      reads this
      ensures file.None? ==> r == []
      ensures file.Some? ==> |r| == |file.value|
    {
      if file.None? then [] else NormalizeAll(file.value)
    }

    /** What `fromFile` returns is already normalised, so writing it back and
        reading it again gives the same products. */
    lemma FromFileNormalized()
      ensures forall i :: 0 <= i < |FromFile()| ==> Normalized(FromFile()[i])
    {
      if file.Some? {
        NormalizeAllNormalized(file.value);
      }
    }

    /** `getProductById`: the first product with that id. */
    function ProductById(id: string): (r: Option<Product>)
      reads this
      ensures r.Some? ==> r.value.id == id && r.value in FromFile()
      ensures r.None? <==> forall i :: 0 <= i < |FromFile()| ==> FromFile()[i].id != id
      ensures r.Some? ==> exists k :: 0 <= k < |FromFile()| && FromFile()[k] == r.value
                                     && forall j :: 0 <= j < k ==> FromFile()[j].id != id
    {
      var ps := FromFile();
      match FirstWhere(HasId(id), ps)
      case None => None
      case Some(k) => Some(ps[k])
    }

    /** `getProductBySlug`: the first product with that slug. */
    function ProductBySlug(slug: string): (r: Option<Product>)
      reads this
      ensures r.Some? ==> r.value.slug == slug && r.value in FromFile()
      ensures r.None? <==> !Taken(FromFile(), slug, None)
      ensures r.Some? ==> exists k :: 0 <= k < |FromFile()| && FromFile()[k] == r.value
                                     && forall j :: 0 <= j < k ==> FromFile()[j].slug != slug
    {
      var ps := FromFile();
      match FirstWhere((p: Product) => p.slug == slug, ps)
      case None => None
      case Some(k) => Some(ps[k])
    }

    /** `countProductsByCategory`. */
    function CountProductsByCategory(category: string): (n: nat)
      reads this
      ensures n == Count(InCategory(category), FromFile())
      ensures n == 0 <==> forall i :: 0 <= i < |FromFile()| ==> FromFile()[i].category != category
    {
      FilterCount(InCategory(category), FromFile());
      CountZero(InCategory(category), FromFile());
      |Filter(InCategory(category), FromFile())|
    }

    /** `addProduct`: refuses a product without a usable image; otherwise
        appends it with the given id and the first free slug, and returns it. */
    method AddProduct(input: Product, freshId: string) returns (r: Result<Product, string>)
      modifies this
      ensures NormalizeProductImages(input.images, input.image) == [] ==>
                r == Err(NoImageError) && file == old(file)
      ensures NormalizeProductImages(input.images, input.image) != [] ==>
                r.Ok? && file == Some(old(FromFile()) + [r.value])
                && FromFile() == old(FromFile()) + [r.value]
      ensures r.Ok? ==> AddedAs(old(FromFile()), input, freshId, r.value)
    {
      var images := NormalizeProductImages(input.images, input.image);
      if images == [] {
        return Err(NoImageError);
      }
      var products := FromFile();
      FromFileNormalized();
      var slug, suffix := FreeSlug(products, Slugify(input.name), None);
      var product := input.(id := freshId, slug := slug, image := images[0], images := Some(images));
      NormalizedImagesFixed(images);
      assert Normalized(product);
      file := Some(products + [product]);
      NormalizeAllFixed(products + [product]);
      r := Ok(NormalizeProduct(product));
    }

    /** `updateProduct`: nothing happens for an unknown id; otherwise the
        first product with the id is replaced in place by the patched one. */
    method UpdateProduct(id: string, patch: Patch) returns (r: Option<Product>)
      modifies this
      ensures FirstWhere(HasId(id), old(FromFile())).None? ==> r.None? && file == old(file)
      ensures FirstWhere(HasId(id), old(FromFile())).Some? ==>
                var k := FirstWhere(HasId(id), old(FromFile())).value;
                && r.Some?
                && UpdatedAs(old(FromFile()), old(FromFile())[k], patch, r.value)
                && file == Some(old(FromFile())[k := r.value])
                && FromFile() == old(FromFile())[k := r.value]
    {
      var products := FromFile();
      FromFileNormalized();
      var index := FirstWhere(HasId(id), products);
      if index.None? {
        return None;
      }
      var k := index.value;
      var before := products[k];
      var merged := ApplyPatch(before, patch);
      var images := NormalizeProductImages(merged.images, merged.image);
      var updated := merged.(image := if images != [] then images[0] else "", images := Some(images));
      if patch.name.Some? && patch.name.value != "" && patch.name.value != before.name {
        var base := Slugify(patch.name.value);
        var slug, suffix := FreeSlug(products, base, Some(id));
        updated := updated.(slug := slug);
        RenamedAs(products, before, patch, updated, suffix);
      } else {
        assert UpdatedAs(products, before, patch, updated);
      }
      StoredImagesNormalized(updated, images);
      var next := products[k := updated];
      ReplaceNormalized(products, k, updated);
      file := Some(next);
      r := Some(NormalizeProduct(updated));
    }

    /** `deleteProduct`: removes every product with the id and reports whether
        there was one; with none the file is not written. */
    method DeleteProduct(id: string) returns (deleted: bool)
      modifies this
      ensures deleted <==> exists i :: 0 <= i < |old(FromFile())| && old(FromFile())[i].id == id
      ensures !deleted ==> file == old(file)
      ensures deleted ==> file == Some(Filter(LacksId(id), old(FromFile())))
                          && FromFile() == Filter(LacksId(id), old(FromFile()))
    {
      var products := FromFile();
      FromFileNormalized();
      var filtered := Filter(LacksId(id), products);
      if |filtered| == |products| {
        FilterKeepsAll(LacksId(id), products);
        return false;
      }
      if forall i :: 0 <= i < |products| ==> products[i].id != id {
        FilterAll(LacksId(id), products);
        assert false;
      }
      file := Some(filtered);
      FilterKeeps(LacksId(id), products, Normalized);
      NormalizeAllFixed(filtered);
      deleted := true;
    }

    /** `replaceCategory`: moves every product of one category to another and
        returns how many moved; writes only when some did. */
    method ReplaceCategory(oldCategory: string, newCategory: string) returns (count: nat)
      modifies this
      ensures oldCategory == newCategory ==> count == 0 && file == old(file)
      ensures oldCategory != newCategory ==> count == Count(InCategory(oldCategory), old(FromFile()))
      ensures oldCategory != newCategory && count > 0 ==>
                file == Some(RecategorizeAll(old(FromFile()), oldCategory, newCategory))
      ensures oldCategory != newCategory ==>
                FromFile() == RecategorizeAll(old(FromFile()), oldCategory, newCategory)
      ensures oldCategory != newCategory ==> Count(InCategory(oldCategory), FromFile()) == 0
      ensures count == 0 ==> file == old(file)
    {
      if oldCategory == newCategory {
        return 0;
      }
      var products := FromFile();
      var next;
      next, count := RecategorizeCounting(products, oldCategory, newCategory);
      if count > 0 {
        RecategorizeReadBack(file.value, oldCategory, newCategory);
        file := Some(next);
      }
    }
  }
}
