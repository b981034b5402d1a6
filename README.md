# Luxury Market storefront: a verified model of the domain layer

This project models in Dafny the domain logic of the Luxury Market storefront, a
Next.js shop with two universes: "mode" (fashion) and "tout" (everything else).
It covers:

- the category taxonomy that maps free-text categories onto fixed labels;
- the product option helpers: colour lists, colour swatches, image URL
  de-duplication and the colour → images map;
- the file-backed product repository, with slugs, add, update, delete, counting
  and bulk category replacement;
- the category registry, layered on that repository;
- the shopping cart;
- the small validators, filters and aggregations embedded in pages and
  components: the admin product form and list, the checkout form and its
  WhatsApp message, the product-creation API route, the "pourquoi nous" category
  statistics, the "mode" page grouping, the clothing sub-category selector and
  the product gallery.

Stateful parts are classes:

- `ProductStore` holds the products JSON file as an optional sequence. `None`
  is a file that cannot be read.
- `CategoryRegistry` holds the registered-categories file and a reference to the
  product store.
- `CartState` holds the cart items.

Their methods say exactly what the new state is. The loops of the source
(the slug-suffix search, the de-duplication and colour-map loops, the
category-counting loops, the message builder) are methods with loop invariants,
each proved equal to a specification function. Lemmas then prove what the
application promises about those functions.

Shared helpers:

- `Text`: trimming, lower-casing with accents removed, substring search,
  decimal digits, and a whitespace/separator tokenizer.
- `Seqs`: filter, de-duplication, counting and subsequences.
- `Sorting`: a stable insertion sort and the string order.
- `Json`: parsed JSON values and the JavaScript `String`/`Number` coercions.
- `Tally`: counting products per tag.

## Model

| member | source | states |
|---|---|---|
| Text.NormalizeIdempotent | src/lib/universe-categories.ts:16-22 | normalising (trim, lower-case, strip accents) an already normalised string changes nothing |
| UniverseCategories.MapUniverseCategoryIsALabel | src/lib/universe-categories.ts:1-6 | `mapUniverseCategory` always returns one of the four universe labels |
| UniverseCategories.MapModeCategoryIsALabel | src/lib/universe-categories.ts:8-14 | `mapModeCategory` always returns one of the five mode labels |
| UniverseCategories.MappersIgnorePadding | src/lib/universe-categories.ts:16-22 | surrounding whitespace never changes the label either mapper gives |
| UniverseCategories.MappersIgnoreCaseAndAccents | src/lib/universe-categories.ts:16-22 | a text and its lower-cased, accent-stripped form get the same label from both mappers |
| UniverseCategories.ElectromenagerWins | src/lib/universe-categories.ts:27-33 | a text holding, anywhere, a word that folds to "electromenager" or "electro menager" is "Electromenager", whatever else it holds, "électronique" included |
| UniverseCategories.VetementWins | src/lib/universe-categories.ts:49-51 | a text holding, anywhere, a word that folds to "vetement" is "Vêtements", whatever else it holds |
| UniverseCategories.DefaultUniverseBucket | src/lib/universe-categories.ts:24-44 | the label is "Accessoires & divers" exactly when no universe keyword occurs in the normal form |
| UniverseCategories.DefaultModeBucket | src/lib/universe-categories.ts:46-66 | the label is "Accessoires" exactly when no mode keyword occurs in the normal form |
| UniverseCategories.ModeLabelsAreFixpoints | src/lib/universe-categories.ts:8-14 | `mapModeCategory` maps each of its own labels to itself |
| UniverseCategories.AccessoiresMaisonIsNotAFixpoint | src/lib/universe-categories.ts:35-43 | the universe label "Accessoires maison" does not contain "accessoire maison" and maps to "Accessoires & divers" |
| UniverseCategories.ModdFemmeTypo | src/lib/universe-categories.ts:49-63 | a word that folds to the misspelling "modd femme", anywhere in a text with none of the three earlier keywords, is classified as "Mode femme" |
| ProductOptions.ColorPieces | src/lib/product-options.ts:53-56 | the pieces cut on `, ; / \|` and trimmed are non-empty, trimmed and free of separators |
| ProductOptions.ParseColorList | src/lib/product-options.ts:51-58 | undefined or empty input gives `[]`; the result is duplicate-free and every element is a trimmed, non-empty, separator-free name |
| ProductOptions.ParseColorListOrder | src/lib/product-options.ts:57 | the colours keep the order of their first occurrence in the input |
| ProductOptions.ParseColorListComplete | src/lib/product-options.ts:53-57 | every non-blank piece of the input appears, trimmed, in the result |
| ProductOptions.ParseColorListJoin | src/lib/product-options.ts:51-58 | parsing a comma-joined list of distinct colour names gives the list back |
| ProductOptions.ToInt32 | src/lib/product-options.ts:45 | the JavaScript `\| 0` truncation lands in the signed 32-bit range and agrees with its argument modulo 2^32 |
| ProductOptions.Hue | src/lib/product-options.ts:42-49 | the hashed hue is below 360 |
| ProductOptions.HashColor | src/lib/product-options.ts:42-49 | the fallback colour is `hsl(h 65% 50%)` for some hue 0 ≤ h < 360 |
| ProductOptions.ColorFromHash | src/lib/product-options.ts:42-49 | the hashing loop computes the fallback colour of its input |
| ProductOptions.ColorToSwatch | src/lib/product-options.ts:60-77 | a blank input gives "#d1d5db"; a trimmed hex, `rgb…` or `hsl…` colour is returned unchanged |
| ProductOptions.NamedSwatch | src/lib/product-options.ts:71-74 | a known colour name gives its table entry, which is a hex colour |
| ProductOptions.ColorMapIsHex | src/lib/product-options.ts:11-40 | every entry of the colour table is a 3- or 6-digit hex colour |
| ProductOptions.SwatchIsCss | src/lib/product-options.ts:60-77 | a string swatch is a hex colour, an `rgb…` or an `hsl…` value; the swatch is instead the inherited `Object.prototype` member exactly when the non-blank, non-CSS input normalises to one of its names |
| ProductOptions.ConstructorSwatch | src/lib/product-options.ts:71-74 | "Constructor" normalises to "constructor", which the table lookup finds on `Object.prototype`, so the swatch is that inherited member and not a colour |
| ProductOptions.SwatchTrimmed | src/lib/product-options.ts:60-77 | every string swatch is trimmed |
| ProductOptions.SwatchIdempotent | src/lib/product-options.ts:60-77 | the swatch of a string swatch is itself |
| ProductOptions.ToImageUrl | src/lib/product-options.ts:79-83 | a URL comes out exactly for a string with non-blank content, and it is that string trimmed |
| ProductOptions.ImageUrlsMembers | src/lib/product-options.ts:79-98 | a URL is accepted exactly when it is the non-empty trimmed form of some string input |
| ProductOptions.UniqueUrls | src/lib/product-options.ts:85-98 | the de-duplicated URLs are trimmed, non-empty and distinct |
| ProductOptions.UniqueUrlsMembers | src/lib/product-options.ts:85-98 | the de-duplicated list holds exactly the trimmed non-empty string inputs |
| ProductOptions.UniqueUrlsOrder | src/lib/product-options.ts:85-98 | the de-duplicated list keeps first-occurrence order |
| ProductOptions.UniqueImageUrls | src/lib/product-options.ts:85-98 | the loop with its `seen` set computes the de-duplicated list |
| ProductOptions.UniqueUrlsOfValid | src/lib/product-options.ts:85-98 | an already de-duplicated list of trimmed URLs is returned unchanged |
| ProductOptions.NormalizeColorImagesMap | src/lib/product-options.ts:100-119 | the loop over the entries computes the reference colour map, and throws exactly when the reference does; null, non-objects and arrays give `{}` |
| ProductOptions.ColorImagesThrows | src/lib/product-options.ts:106-116 | the loop throws exactly when some entry has a trimmed name that `Object.prototype` defines and at least one image URL |
| ProductOptions.PutKeys | src/lib/product-options.ts:115 | `output[color] = …` leaves the old keys and `color`, none repeated; array-index keys stay first in ascending order, and the other keys keep their creation order with a new one last |
| ProductOptions.ColorImagesWellFormed | src/lib/product-options.ts:100-119 | when the loop does not throw, every key of the map is a trimmed non-empty colour that `Object.prototype` does not define; keys are distinct and in enumeration order; each maps to a non-empty duplicate-free URL list |
| ProductOptions.MergeColorImages | src/lib/product-options.ts:108-116 | a step that does not throw merges the entry's URLs after the existing ones for the same trimmed colour, without duplicates |
| ProductOptions.ColorImagesReference | src/lib/product-options.ts:100-119 | when the loop does not throw, the images of a colour are the de-duplicated URLs of all entries with that trimmed colour, in entry order |
| ProductOptions.ColorImagesKeys | src/lib/product-options.ts:100-119 | when the loop does not throw, a colour is a key exactly when some entry for it contributes a URL |
| ProductOptions.GetColorImages | src/lib/product-options.ts:121-133 | the search loop returns `[]` for a missing map or colour, a blank normalised colour or no match, otherwise the de-duplicated images of the first key whose normalised name equals the colour's |
| ProductOptions.FirstMatchFound | src/lib/product-options.ts:126-131 | the first key with the matching normalised name decides the result |
| ProductOptions.FirstMatchMissing | src/lib/product-options.ts:132 | with no matching key the result is `[]` |
| ProductOptions.StoredImagesFound | src/lib/product-options.ts:121-133 | on a well-formed map the images found for a colour are the stored list itself |
| Products.NormalizeProductImages | src/lib/products-data.ts:3 | the image list is trimmed, non-empty and distinct, and starts with the trimmed legacy image when there is one |
| Products.NormalizeProductImagesMembers | src/lib/products-data.ts:55 | a URL is kept exactly when it is the trimmed legacy image or a trimmed listed image, and non-empty |
| Products.NormalizedImagesFixed | src/lib/products-data.ts:55 | a stored, already normalised list whose first element is the image is kept as it is |
| Products.NormalizeProductEffect | src/lib/products-data.ts:54-63 | normalising changes only `image` and `images`; with no usable URL nothing changes, otherwise `images` is non-empty and `image` is its first element |
| Products.NormalizeProductIdempotent | src/lib/products-data.ts:54-63 | a normalised product is a fixpoint of normalisation |
| Products.NormalizeAllNormalized | src/lib/products-data.ts:65-73 | every product read from the file is normalised |
| Products.NormalizeAllFixed | src/lib/products-data.ts:65-73 | reading back a list of normalised products changes nothing |
| Products.ReplaceNormalized | src/lib/products-data.ts:221 | storing a normalised product into a normalised list keeps the read-back equal to the stored list |
| Products.Dashify | src/lib/products-data.ts:112-113 | runs of characters outside `[a-z0-9]` become one "-"; the result is `[a-z0-9-]` text with no "--" and ends in "-" exactly when the input ends in such a character |
| Products.Slugify | src/lib/products-data.ts:109-116 | the slug holds only `[a-z0-9-]`, with no leading or trailing "-" and no "--" |
| Products.SlugKeepsAlphanumerics | src/lib/products-data.ts:109-116 | the slug keeps every letter and digit of the folded name, in order |
| Products.SlugifyIdempotent | src/lib/products-data.ts:109-116 | the slug of a slug is itself |
| Products.CandidatesDiffer | src/lib/products-data.ts:153-157 | the candidate slugs for different suffixes are different |
| Products.SuffixBound | src/lib/products-data.ts:155-158 | if the candidates 0..k are all taken, then k is below the number of products |
| Products.FreeSlug | src/lib/products-data.ts:153-158 | the suffix loop ends with a free slug, which is the base when that is free and otherwise `base-k` for the least free k; k is at most the number of products |
| Products.AppendKeepsSlugsUnique | src/lib/products-data.ts:159-164 | appending a product with a free slug keeps slugs unique |
| Products.RenamedAs | src/lib/products-data.ts:208-221 | an update that renames differs from the merged, normalised product only in its slug, which is free among the other products |
| Products.RecategorizeAllEffect | src/lib/products-data.ts:253-259 | afterwards no product has the old category; every other field and the order are unchanged, and products of other categories are untouched |
| Products.RecategorizeReadBack | src/lib/products-data.ts:253-263 | the rewritten list reads back unchanged |
| Products.RecategorizeNone | src/lib/products-data.ts:261 | with no product in the old category the list is unchanged |
| Products.RecategorizeCounting | src/lib/products-data.ts:254-259 | the counting map produces the recategorised list and the number of products that had the old category |
| Products.ProductStore.constructor | src/lib/products-data.ts:65-73 | the store starts with the given file contents |
| Products.ProductStore.FromFile | src/lib/products-data.ts:65-73 | an unreadable file reads as `[]`; otherwise there is one normalised product per stored product |
| Products.ProductStore.ProductById | src/lib/products-data.ts:85-95 | the result is the first product with that id, or none exactly when no product has it |
| Products.ProductStore.ProductBySlug | src/lib/products-data.ts:97-107 | the result is the first product with that slug, or none exactly when no product has it |
| Products.ProductStore.CountProductsByCategory | src/lib/products-data.ts:226-236 | the count is the number of products whose category is exactly the given one |
| Products.ProductStore.AddProduct | src/lib/products-data.ts:122-167 | with no usable image it fails and writes nothing; otherwise it appends exactly one product, equal to the input except for the fresh id, the least free slug (`slugify(name)` or the first free numeric suffix, at most the product count) and the normalised images with `image == images[0]`, leaving earlier products unchanged |
| Products.ProductStore.UpdateProduct | src/lib/products-data.ts:205-223 | an unknown id gives none and writes nothing; otherwise the merged, normalised product replaces the first with that id at the same index, the slug is regenerated only when a new, different name is given, and other products are untouched |
| Products.ProductStore.DeleteProduct | src/lib/products-data.ts:267-279 | it returns false exactly when no product has the id, and then writes nothing; otherwise it writes the list without those products, in order |
| Products.ProductStore.ReplaceCategory | src/lib/products-data.ts:238-265 | equal names give 0 and no write; otherwise it returns the number of products in the old category, writes only when that is positive, and afterwards no product has the old category |
| Categories.NormalizeCategoryName | src/lib/categories-data.ts:18-20 | the name is trimmed, no longer than the input, and empty exactly for blank input |
| Categories.UniqSortedShape | src/lib/categories-data.ts:22-26 | the list is trimmed, non-empty, duplicate-free and sorted |
| Categories.UniqSortedMembers | src/lib/categories-data.ts:22-26 | a name is listed exactly when it is the non-empty trimmed form of some input |
| Categories.UniqSortedConcat | src/lib/categories-data.ts:83-89 | the list of a concatenation is the union of the lists of its parts |
| Categories.UniqSortedFixed | src/lib/categories-data.ts:22-26 | a trimmed, duplicate-free, sorted list is returned unchanged |
| Categories.UniqSortedIdempotent | src/lib/categories-data.ts:22-26 | applying the function twice is the same as once |
| Categories.CategoriesShape | src/lib/categories-data.ts:80-90 | the listed categories are trimmed, non-empty, duplicate-free and sorted |
| Categories.CategoriesMembers | src/lib/categories-data.ts:80-90 | a name is listed exactly when it comes from the registry, a product category or the built-in constants |
| Categories.RegisteredListed | src/lib/categories-data.ts:84 | every registered name is listed |
| Categories.ProductCategoryListed | src/lib/categories-data.ts:82-85 | every non-blank product category is listed, trimmed |
| Categories.BuiltInListed | src/lib/categories-data.ts:86-88 | every built-in name stays listed, whatever the registry holds |
| Categories.TaxonomyLabelsListed | src/lib/categories-data.ts:86-88 | every mode and universe label is listed |
| Categories.ReplacementName | src/lib/categories-data.ts:131 | a missing replacement is ""; a given one is trimmed and empty exactly when blank |
| Categories.CountByCategory | src/lib/categories-data.ts:92-101 | one entry per listed name, in order, whose count is the number of products with exactly that category |
| Categories.AddedToRegistry | src/lib/categories-data.ts:120-122 | registering a new name keeps the registry sorted and distinct, and adds exactly that name |
| Categories.FileEntries | src/lib/categories-data.ts:42-49 | the file's entries are the `String` of each element of a JSON array, and there are none when the file is missing, is not an array, or holds an element `String` throws on |
| Categories.CategoryRegistry.constructor | src/lib/categories-data.ts:42-50 | the registry starts with the given file contents and product store |
| Categories.CategoryRegistry.RegisteredListable | src/lib/categories-data.ts:56-65 | the registered names are trimmed, non-empty, distinct and sorted |
| Categories.CategoryRegistry.CategoryInfos | src/lib/categories-data.ts:92-101 | one entry per listed category, with the exact count of its products |
| Categories.CategoryRegistry.CreateCategory | src/lib/categories-data.ts:103-124 | a blank name fails with no change; a listed name gives `created: false` with no change; otherwise the name is registered and `created: true` |
| Categories.CategoryRegistry.RemoveRegisteredCategory | src/lib/categories-data.ts:67-78 | the registry loses exactly that name, and the rest keep their order |
| Categories.CategoryRegistry.MoveCategory | src/lib/categories-data.ts:145-149 | the target is registered, every product of the name moves to the target, the number moved is returned, and the name leaves the registry |
| Categories.CategoryRegistry.DeleteCategory | src/lib/categories-data.ts:126-151 | it fails on a blank name, on a replacement equal to the name, and on a category in use without a replacement, each with no change; otherwise it returns the prior usage (0 when unused), the products move to the replacement, which is registered when new, no product keeps the name and the name leaves the registry |
| Categories.CategoryRegistry.RenameCategory | src/lib/categories-data.ts:153-177 | it fails on blank names or an unlisted name; equal names give `{0, false}` with no change; otherwise `merged` says whether the new name was listed, every product moves to it, and the old name is neither used nor registered |
| Cart.ClampQuantity | src/components/cart/CartProvider.tsx:46-49 | the quantity is at least 1; non-finite input gives 1; a finite input below 1 gives 1; a finite input of at least 1 gives its floor |
| Cart.ClampWhole | src/components/cart/CartProvider.tsx:46-49 | on whole numbers the clamp is `max(1, n)` |
| Cart.ClampIdempotent | src/components/cart/CartProvider.tsx:46-49 | clamping a clamped quantity changes nothing |
| Cart.ParseStoredCart | src/components/cart/CartProvider.tsx:51-78 | missing or non-array storage gives `[]`; a kept entry whose quantity `Number` throws on empties the whole cart; every restored item has quantity at least 1 |
| Cart.UnconvertibleQuantityEmptiesCart | src/components/cart/CartProvider.tsx:53-77 | one stored line whose quantity cannot be converted, among any other lines, gives the empty cart |
| Cart.ToStringQuantityEmptiesCart | src/components/cart/CartProvider.tsx:53-77 | a line with quantity `{"toString": 1}` restores as the empty cart |
| Cart.StoredItemRoundTrip | src/components/cart/CartProvider.tsx:57-74 | an item saved as JSON passes the filter and comes back unchanged |
| Cart.StoredCartRoundTrip | src/components/cart/CartProvider.tsx:51-93 | restoring the saved cart gives the cart back |
| Cart.StoredTextQuantity | src/components/cart/CartProvider.tsx:57-74 | a stored line whose quantity is text restores with the clamp of `Number` of that text |
| Cart.StoredExponentQuantity | src/components/cart/CartProvider.tsx:73 | a quantity stored as text in exponent notation, such as "1e1", restores as the number it denotes |
| Json.ToStr | src/app/api/admin/products/route.ts:41-49 | `String(v)` throws exactly when `v` is an object with an own "toString" or an array holding such a value at any depth |
| Json.ToNumber | src/components/cart/CartProvider.tsx:73 | `Number(v)` throws in exactly the same cases as `String(v)`; a number is itself and a string goes through `StringToNumber` |
| Json.JoinItems | src/app/api/admin/products/route.ts:49 | `join` throws exactly when one of the elements does |
| Json.OwnToStringThrows | src/components/cart/CartProvider.tsx:73 | `String` and `Number` of `{"toString": 1}` throw, and so does `String` of an array holding it |
| Json.NumberOfNatToString | src/components/cart/CartProvider.tsx:73 | `Number` reads the decimal form of every natural number back as that number |
| Json.NumberOfExponent | src/components/cart/CartProvider.tsx:73 | `Number` of `m` written with `e` and `x` is `m · 10^x` |
| Json.NumberOfOneEOne | src/components/cart/CartProvider.tsx:73 | `Number("1e1")` is 10 |
| Json.NumberOfHex | src/components/cart/CartProvider.tsx:73 | `Number("0x10")` is 16 |
| Json.NumberOfSignedHex | src/components/cart/CartProvider.tsx:73 | `Number("-0x10")` is NaN, because a non-decimal integer takes no sign |
| Cart.AddedNew | src/components/cart/CartProvider.tsx:99-101 | an unseen id is appended with the quantity, and the item count and subtotal grow by that line |
| Cart.AddedExisting | src/components/cart/CartProvider.tsx:102-106 | an existing id gets its quantity increased in place, the length is kept, and the totals grow accordingly |
| Cart.AddedInvariant | src/components/cart/CartProvider.tsx:95-108 | adding keeps ids unique and all quantities at least 1 |
| Cart.WithoutEffect | src/components/cart/CartProvider.tsx:123-125 | removing the item with an id drops exactly that position and its quantity from the count |
| Cart.WithoutAbsent | src/components/cart/CartProvider.tsx:123-125 | removing an absent id changes nothing |
| Cart.UpdatedEffect | src/components/cart/CartProvider.tsx:115-120 | a positive quantity sets only that item's quantity to the clamped value, and the count changes by the difference |
| Cart.UpdatedInvariant | src/components/cart/CartProvider.tsx:110-121 | updating keeps ids unique and all quantities at least 1 |
| Cart.WithoutInvariant | src/components/cart/CartProvider.tsx:123-125 | removing keeps ids unique and all quantities at least 1 |
| Cart.TotalsConcat | src/components/cart/CartProvider.tsx:131-138 | item count and subtotal add up over concatenated carts |
| Cart.CartState.constructor | src/components/cart/CartProvider.tsx:86-89 | the cart starts as the restored storage, with all quantities at least 1 |
| Cart.CartState.AddItem | src/components/cart/CartProvider.tsx:95-108 | the new items are the old ones with the clamped quantity added, keeping the invariants |
| Cart.CartState.UpdateQuantity | src/components/cart/CartProvider.tsx:110-121 | a quantity of 0 or less removes the id; otherwise only its quantity is set to the clamp; the invariants are kept |
| Cart.CartState.RemoveItem | src/components/cart/CartProvider.tsx:123-125 | the items with that id are removed, the rest keep their order, and the invariants are kept |
| Cart.CartState.ClearCart | src/components/cart/CartProvider.tsx:127-129 | the cart is empty, with count 0 and subtotal 0 |
| AdminBoutique.ToSizes | src/app/admin/boutique/AdminBoutique.tsx:39-45 | a list comes out only when non-empty, and each size is non-empty, with no whitespace or comma |
| AdminBoutique.SizeTokens | src/app/admin/boutique/AdminBoutique.tsx:40-43 | trimming and dropping empty pieces leaves exactly the tokens between whitespace and commas |
| AdminBoutique.ToSizesNone | src/app/admin/boutique/AdminBoutique.tsx:39-45 | the result is undefined exactly when the input has no token; otherwise it is the tokens in order |
| AdminBoutique.SizesRoundTrip | src/app/admin/boutique/AdminBoutique.tsx:39-49 | `toSizes(fromSizes(s)) == s` for a non-empty list of sizes free of whitespace and commas |
| AdminBoutique.NoSizesRoundTrip | src/app/admin/boutique/AdminBoutique.tsx:47-49 | no sizes shows as "" and reads back as no sizes |
| AdminBoutique.ToPayload | src/app/admin/boutique/AdminBoutique.tsx:51-82 | an unparsable or negative price fails with "Prix invalide." before anything else; then a blank name, category, image or description fails; otherwise the fields are trimmed, `color` is present exactly when non-blank, and `sizes` exactly when `toSizes` gives a list |
| AdminBoutique.EditFormRoundTrip | src/app/admin/boutique/AdminBoutique.tsx:155-167 | the edit form filled from a well-formed product with a whole, non-negative price turns back into that product's payload, as long as `String(price)` prints plain decimal digits (prices below 1e21) |
| AdminBoutique.OrderIsTotalPreorder | src/app/admin/boutique/AdminBoutique.tsx:362-368 | each sort order is total and transitive |
| Sorting.InsertionSortStable | src/app/admin/boutique/AdminBoutique.tsx:362-368 | the sort is stable: the elements tied with any value come out in their input order |
| AdminBoutique.FilteredProductsSpec | src/app/admin/boutique/AdminBoutique.tsx:348-371 | the shown list is a permutation of the filtered products, is sorted by the chosen order, and keeps the filtered order among products the order ties |
| AdminBoutique.FilteredProductsMembers | src/app/admin/boutique/AdminBoutique.tsx:349-360 | a product is shown exactly when it is in the selected universe (or all) and the query is blank or its lower-cased name, category, slug or colour contains the lower-cased trimmed query |
| AdminBoutique.FilteredProductsByPrice | src/app/admin/boutique/AdminBoutique.tsx:364-365 | the price sorts are non-decreasing or non-increasing by price |
| AdminBoutique.BlankQueryShowsAll | src/app/admin/boutique/AdminBoutique.tsx:353 | a blank query with all universes shows every product |
| CommandeForm.WhatsAppNumber | src/components/CommandeForm.tsx:9-10 | the number has only digits, and is the default number when none is configured |
| CommandeForm.DefaultNumberKept | src/components/CommandeForm.tsx:9-10 | stripping non-digits keeps the default number |
| CommandeForm.DigitsOnlyFixed | src/components/CommandeForm.tsx:10 | stripping non-digits leaves a string unchanged exactly when it is all digits |
| CommandeForm.DigitsOnlyIdempotent | src/components/CommandeForm.tsx:10 | stripping twice is stripping once |
| CommandeForm.EmailMeaning | src/components/CommandeForm.tsx:12 | an e-mail has no whitespace, exactly one "@" with text before it, and a "." with text on both sides after it |
| CommandeForm.Validate | src/components/CommandeForm.tsx:47-64 | name error exactly when the trimmed name has fewer than 2 characters ("required" when empty); e-mail and phone errors exactly when non-blank and malformed; message error exactly when fewer than 8 characters |
| CommandeForm.ValidateAccepts | src/components/CommandeForm.tsx:62-63 | the form is accepted exactly when every field satisfies its rule |
| CommandeForm.BlankContactAccepted | src/components/CommandeForm.tsx:53-57 | a blank e-mail and phone produce no error |
| CommandeForm.BuildMessageLines | src/components/CommandeForm.tsx:73-93 | the pushes build the specified message lines |
| CommandeForm.PushItemLines | src/components/CommandeForm.tsx:85-87 | the `forEach` appends one line per cart item, in order |
| CommandeForm.ContactLinesSpec | src/components/CommandeForm.tsx:78-80 | the contact lines hold the trimmed name, and "Non renseigné" for a blank e-mail or phone |
| CommandeForm.CartMessage | src/components/CommandeForm.tsx:83-88 | with cart items the message has the cart heading, one line per item, then the total line, then the message |
| CommandeForm.CartMessageItem | src/components/CommandeForm.tsx:86 | each item line is "- name xquantity : price × quantity" |
| CommandeForm.CartMessageHasNoArticle | src/components/CommandeForm.tsx:83-91 | with cart items no line starts with "Article" |
| CommandeForm.ArticleMessage | src/components/CommandeForm.tsx:89-93 | without cart items there is one "Article : …" line, "Non précisé" when blank |
| ProductsRoute.HandleGet | src/app/api/admin/products/route.ts:6-12 | a non-admin gets 401; an admin gets the product list |
| ProductsRoute.TrimmedField | src/app/api/admin/products/route.ts:41-46 | `String(v).trim()` is an uncaught error exactly when `String` throws on `v`, and otherwise the trimmed string |
| ProductsRoute.ColorOf | src/app/api/admin/products/route.ts:48 | a missing or null colour is absent; a colour `String` throws on is an uncaught error; otherwise it is its trimmed string, absent exactly when blank |
| ProductsRoute.SizesOf | src/app/api/admin/products/route.ts:49 | an array with an element `String` throws on is an uncaught error; otherwise sizes are set exactly when given as an array, one string per element |
| ProductsRoute.CheckBody | src/app/api/admin/products/route.ts:18-49 | a null body throws; a falsy required field or non-number price gives 400; a universe other than "mode"/"tout" gives 400; then the body is an uncaught error exactly when `String` throws on a text field, the colour or an element of an array of sizes; otherwise the string fields are trimmed and the price kept without a sign check |
| ProductsRoute.HandlePost | src/app/api/admin/products/route.ts:14-57 | a non-admin gets 401 whatever the body, and nothing is written; a refused body, including one whose fields `String` throws on, gives its error without a write; an input whose image trims to nothing makes the add throw, giving 500 with no write; otherwise the response carries the stored product, which is the checked input (trimmed name, category, universe, description, colour, sizes, price) with the fresh id, the least free slug and the images normalised from the trimmed image with `image == images[0]`, and it is appended |
| ProductsRoute.ToStringNameUncaught | src/app/api/admin/products/route.ts:40-49 | a complete body whose name is `{"toString": 1}` is an uncaught error, so nothing is written |
| ProductsRoute.UnparsableBodyRefused | src/app/api/admin/products/route.ts:18 | an unparsable body reads as `{}` and is refused with 400 |
| PourquoiNous.CountMappedCategories | src/app/pourquoi-nous/page.tsx:110-118 | the counting loop yields, for each mapped label in first-seen order, its number of products |
| PourquoiNous.CountsSumToProducts | src/app/pourquoi-nous/page.tsx:112-118 | every product is counted once: the counts add up to the number of products |
| PourquoiNous.CountsAreLabels | src/app/pourquoi-nous/page.tsx:113-116 | every counted key is a taxonomy label that some product maps to |
| PourquoiNous.TopCategoriesShape | src/app/pourquoi-nous/page.tsx:120-122 | at most 6 entries, exactly min(6, n), non-increasing by count, all taken from the counts |
| PourquoiNous.OmittedNotLarger | src/app/pourquoi-nous/page.tsx:120-122 | a category left out counts no more than any shown one |
| ModePage.Hyphenate | src/app/mode/page.tsx:17 | the result has no whitespace and is no longer than the input |
| ModePage.SlugSeparator | src/app/mode/page.tsx:17 | each whitespace run between words becomes exactly one "-" |
| ModePage.SlugShape | src/app/mode/page.tsx:16-18 | a slug has no whitespace and is already lower-cased and free of accents |
| ModePage.SlugIdempotent | src/app/mode/page.tsx:16-18 | the slug of a slug is itself |
| ModePage.CategoriesMembers | src/app/mode/page.tsx:22 | a category is listed exactly when it is non-empty and some product has it |
| ModePage.CategoriesShape | src/app/mode/page.tsx:22 | the category list is distinct, sorted and without the empty name |
| ModePage.Groups | src/app/mode/page.tsx:25-28 | there is one group per listed category |
| ModePage.GroupContents | src/app/mode/page.tsx:25-28 | each group follows the category list, is non-empty, and holds exactly the products of its category in their original order |
| ModePage.ProductSection | src/app/mode/page.tsx:22-28 | a product with a category is in exactly one group, its category's; a product without one is in none |
| ModePage.ProductCountCoversAll | src/app/mode/page.tsx:23 | the product count is the grouped products plus those without a category |
| ModeClothingSelector.AvailableMembers | src/components/ModeClothingSelector.tsx:16-22 | the offered sub-categories are the used ones, a subsequence of the constant list |
| ModeClothingSelector.FilteredProductsSpec | src/components/ModeClothingSelector.tsx:26-32 | "all" gives the list unchanged; "other" gives exactly the products without a sub-category; any other choice gives those with that sub-category; always in the original order |
| ModeClothingSelector.OfferedOptionsAreNotEmpty | src/components/ModeClothingSelector.tsx:16-32 | an offered sub-category selects some product, and "other" is offered exactly when it selects some product |
| ModeClothingSelector.EveryProductReachable | src/components/ModeClothingSelector.tsx:16-32 | every product is shown by "other" or by its own offered sub-category |
| ProductGallery.GalleryIsUniqueUrls | src/components/ProductGallery.tsx:12-22 | the gallery is the same list as the shared image de-duplication builds |
| ProductGallery.GalleryShape | src/components/ProductGallery.tsx:12-22 | every picture is a trimmed non-empty URL, and none appears twice |
| ProductGallery.GalleryMembers | src/components/ProductGallery.tsx:16-18 | a URL is shown exactly when it is the trimmed form of some string image |
| ProductGallery.GalleryOrder | src/components/ProductGallery.tsx:15-20 | pictures keep the order of their first occurrence |
| ProductGallery.ActiveImageFallback | src/components/ProductGallery.tsx:24 | the large picture is the selected one when in range, else the first, else "" |
| ProductGallery.InitialImage | src/components/ProductGallery.tsx:23-24 | the initial index 0 shows the first picture, and "" only for an empty gallery |

## Left out

- SQL branches of the repository and registry, and `src/lib/db.ts`: foreign Postgres calls. Only the JSON-file branches are modelled; a file is a field of the class, a write replaces it, file writes never fail (so the 500 that a failed `writeFile` would give through the route's catch is not modelled), and an unreadable file reads as an empty list.
- JSON text formatting and parsing: files and local storage hold parsed JSON values.
- `normalizeProductImages`: its defining file is not part of this model. `Products.NormalizeProductImages` defines it as the de-duplication of the legacy image followed by the image list.
- `MODE_CLOTHING_SUBCATEGORIES`: its definition is not part of this model. It is a constant whose values are left open.
- Unicode: lower-casing and the removal of accents are modelled on Latin-1 letters and combining marks. `localeCompare(…, "fr")` and the default string sort are modelled as code-point order, a total order. The UTF-16 length is modelled; UTF-16 sort order is not.
- `Cart.StoredItem`: a restored line is rebuilt as a fixed record, so any other own keys of a stored line, which `{ ...item, quantity }` keeps and saves back, are dropped; nothing in the cart reads them.
- `Cart.ClampQuantity`: JavaScript numbers are exact reals plus NaN and the infinities. Floating-point rounding in the subtotal and integers beyond 2^53 are not modelled.
- Json.StringToNumber: numbers are exact reals, so rounding to the nearest double is not modelled. For example, "1e400" is finite here, while JavaScript gives Infinity.
- ProductOptions.ColorToSwatch: an inherited swatch is represented by the name of the `Object.prototype` member it reads, not by that function or object.
- ProductOptions.SwatchTrimmed: stated for string swatches only, because an inherited swatch is not a string.
- ProductOptions.SwatchIdempotent: stated for string swatches only. An inherited swatch is not a string, and `colorToSwatch` of it fails on `.trim()`.
- `ProductOptions.Hue`: the hash loop is modelled with 32-bit wrap-around on UTF-16 code units, but only the hue bound is proved about its value.
- `generateId`, `isAdmin`, `formatPrice` and JavaScript number-to-string conversion are parameters of the operations that use them, because they depend on the clock, randomness, cookies and `Intl`.
- `ProductsRoute.CheckBody`: the uncaught `TypeError` for a `null` body, and the one `String` raises on an object with its own "toString", are modelled as a distinct `Uncaught` response.
- `AdminBoutique.ToPayload`: `parseInt` returns a double, so digit strings beyond 2^53 round in the source ("9007199254740993" gives 9007199254740992); the model reads them exactly.
- Concurrent requests and lost updates between file writes: the model is sequential.
- Local storage hydration timing, `encodeURIComponent` and the WhatsApp URL are left out because they are browser I/O.
- The admin page's duplicate-form helper and the gallery's index setter are left out because they are UI state.
- The mode-subcategory registry routes: their functions are not part of this model.
- Admin authentication (`src/lib/auth-admin.ts`): HMAC, base64url and clock. Authorisation is a boolean parameter.
- Cart lines keyed by colour or size: the cart provider keys items by product id only.
- Upload route, seed script, sitemap, login/logout/category HTTP routes and purely presentational components: I/O or rendering only.
