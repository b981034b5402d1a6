/** The product page gallery: the usable image URLs, each once, and the
    image shown large. */
module ProductGallery {
  import opened Seqs
  import opened Text
  import opened Json
  import opened ProductOptions

  /** `typeof image === "string" ? image.trim() : ""`. */
  function TrimmedOrEmpty(v: Value): string
  {
    if v.Str? then Trim(v.s) else ""
  }

  /** `images.map(…)`, before the empty strings are dropped. */
  function Candidates(images: seq<Value>): (r: seq<string>)
    ensures |r| == |images|
  {
    seq(|images|, i requires 0 <= i < |images| => TrimmedOrEmpty(images[i]))
  }

  /** `Array.from(new Set(images.map(…).filter(Boolean)))`. */
  function Gallery(images: seq<Value>): seq<string>
  {
    Dedupe(Filter(NonEmpty, Candidates(images)))
  }

  /** Mapping then dropping the empty strings is the same as keeping the
      URLs `toImageUrl` accepts. */
  lemma {:induction false} CandidatesAreImageUrls(images: seq<Value>)
    ensures Filter(NonEmpty, Candidates(images)) == ImageUrls(images)
    decreases |images|
  {
    if images != [] {
      var init := images[..|images| - 1];
      var last := images[|images| - 1];
      assert images == init + [last];
      assert Candidates(images) == Candidates(init) + [TrimmedOrEmpty(last)];
      CandidatesAreImageUrls(init);
      FilterSnoc(NonEmpty, Candidates(init), TrimmedOrEmpty(last));
      FilterMapSnoc(ToImageUrl, init, last);
    }
  }

  /** The gallery is exactly the list `normalizeProductImages` builds from
      the same values: the two de-duplications agree. */
  lemma GalleryIsUniqueUrls(images: seq<Value>)
    ensures Gallery(images) == UniqueUrls(images)
  {
    CandidatesAreImageUrls(images);
  }

  /** Every picture is a trimmed, non-empty URL, and none appears twice. */
  lemma GalleryShape(images: seq<Value>)
    ensures var g := Gallery(images);
            Distinct(g) && forall i :: 0 <= i < |g| ==> g[i] != [] && IsTrimmed(g[i])
  {
    GalleryIsUniqueUrls(images);
  }

  /** A URL is in the gallery exactly when it is the trimmed form of some
      string among the images. */
  lemma GalleryMembers(images: seq<Value>, u: string)
    ensures u in Gallery(images) <==>
            u != [] && exists j :: 0 <= j < |images| && images[j].Str? && u == Trim(images[j].s)
  {
    GalleryIsUniqueUrls(images);
    UniqueUrlsMembers(images, u);
  }

  /** The pictures come in the order of their first occurrence. */
  lemma GalleryOrder(images: seq<Value>)
    ensures var g := Gallery(images);
            var urls := Filter(NonEmpty, Candidates(images));
            forall i, j :: 0 <= i < j < |g| ==> FirstIndex(urls, g[i]) < FirstIndex(urls, g[j])
  {
    assert Gallery(images) == Dedupe(Filter(NonEmpty, Candidates(images)));
    DedupeOrder(Filter(NonEmpty, Candidates(images)));
  }

  /** `gallery[activeIndex] || gallery[0] || ""`: an index out of range reads
      `undefined`, which is falsy like the empty string. */
  function ActiveImage(gallery: seq<string>, activeIndex: int): string
  {
    var at := if 0 <= activeIndex < |gallery| then gallery[activeIndex] else "";
    if at != "" then at
    else if gallery != [] && gallery[0] != "" then gallery[0]
    else ""
  }

  /** The picture shown is the selected one when the index is in range, the
      first one otherwise, and nothing only when there are no pictures. */
  lemma ActiveImageFallback(images: seq<Value>, activeIndex: int)
    ensures var g := Gallery(images);
            ActiveImage(g, activeIndex) ==
              if 0 <= activeIndex < |g| then g[activeIndex] else if g != [] then g[0] else ""
  {
    GalleryShape(images);
  }

  /** The index starts at 0: the first picture is shown. */
  lemma InitialImage(images: seq<Value>)
    ensures var g := Gallery(images);
            ActiveImage(g, 0) == (if g == [] then "" else g[0])
            && (ActiveImage(g, 0) == "" <==> g == [])
  {
    GalleryShape(images);
  }
}
