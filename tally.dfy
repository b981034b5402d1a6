/** Counting products under labels: a labelling `tagOf` sends each product to
    one label, and a tally lists each label once, in the order it was first
    met, with the number of products under it. The loop that builds a tally in
    a JavaScript `Map` keeps the predicate `Tallied`. */
module Tally {
  import opened Seqs
  import opened Products

  /** The labels of the products, in product order. */
  function Tags(tagOf: Product -> string, products: seq<Product>): (r: seq<string>)
    ensures |r| == |products|
  {
    if products == [] then [] else Tags(tagOf, products[..|products| - 1]) + [tagOf(products[|products| - 1])]
  }

  /** The products counted under `tag`. */
  function Under(tagOf: Product -> string, tag: string): Product -> bool
  {
    (p: Product) => tagOf(p) == tag
  }

  lemma UnderMeans(tagOf: Product -> string, tag: string, p: Product)
    ensures Under(tagOf, tag)(p) <==> tagOf(p) == tag
  {
  }

  /** `[...counts.entries()]`: each label in the order it was first met,
      with the number of products counted under it. */
  function Tallies(tagOf: Product -> string, products: seq<Product>): (r: seq<(string, nat)>)
    ensures |r| == |Dedupe(Tags(tagOf, products))|
  {
    var labels := Dedupe(Tags(tagOf, products));
    seq(|labels|, i requires 0 <= i < |labels| => (labels[i], Count(Under(tagOf, labels[i]), products)))
  }

  /** The state of a counting loop after `products`: `keys` is the insertion
      order of the `Map`, `counts` its contents. */
  ghost predicate Tallied(tagOf: Product -> string, products: seq<Product>, keys: seq<string>, counts: map<string, nat>)
  {
    keys == Dedupe(Tags(tagOf, products)) && SameLabels(counts, keys) && Exact(tagOf, products, counts)
  }

  /** The `Map` holds exactly the keys listed. */
  ghost predicate SameLabels(counts: map<string, nat>, keys: seq<string>)
  {
    forall l :: l in counts <==> l in keys
  }

  /** Every count in the `Map` is the number of products under its label. */
  ghost predicate Exact(tagOf: Product -> string, products: seq<Product>, counts: map<string, nat>)
  {
    forall l :: l in counts ==> counts[l] == Count(Under(tagOf, l), products)
  }

  /** A turn of the counting loop on a label already in the `Map`: its count
      goes up by one and the key order stays. */
  lemma TallyKnown(tagOf: Product -> string, products: seq<Product>, p: Product, keys: seq<string>, counts: map<string, nat>)
    requires Tallied(tagOf, products, keys, counts)
    requires tagOf(p) in counts
    ensures Tallied(tagOf, products + [p], keys, counts[tagOf(p) := counts[tagOf(p)] + 1])
  {
    var c := tagOf(p);
    KeysStep(tagOf, products, p, keys);
    SameLabelsBump(counts, keys, c, counts[c] + 1);
    CountStep(tagOf, products, p, counts);
  }

  /** A turn of the counting loop on a label met for the first time: it is
      appended to the key order with a count of one. */
  lemma TallyNew(tagOf: Product -> string, products: seq<Product>, p: Product, keys: seq<string>, counts: map<string, nat>)
    requires Tallied(tagOf, products, keys, counts)
    requires tagOf(p) !in counts
    ensures Tallied(tagOf, products + [p], keys + [tagOf(p)], counts[tagOf(p) := 1])
  {
    var c := tagOf(p);
    KeysStep(tagOf, products, p, keys);
    SameLabelsAdd(counts, keys, c);
    CountStep(tagOf, products, p, counts);
  }

  /** The key order after one more product: its label is appended when new. */
  lemma KeysStep(tagOf: Product -> string, products: seq<Product>, p: Product, keys: seq<string>)
    requires keys == Dedupe(Tags(tagOf, products))
    ensures Dedupe(Tags(tagOf, products + [p])) == if tagOf(p) in keys then keys else keys + [tagOf(p)]
  {
    TagsSnoc(tagOf, products, p);
    DedupeSnoc(Tags(tagOf, products), tagOf(p));
  }

  lemma SameLabelsBump(counts: map<string, nat>, keys: seq<string>, c: string, n: nat)
    requires SameLabels(counts, keys) && c in counts
    ensures SameLabels(counts[c := n], keys)
  {
  }

  lemma SameLabelsAdd(counts: map<string, nat>, keys: seq<string>, c: string)
    requires SameLabels(counts, keys)
    ensures SameLabels(counts[c := 1], keys + [c])
  {
  }

  lemma TagsSnoc(tagOf: Product -> string, products: seq<Product>, p: Product)
    ensures Tags(tagOf, products + [p]) == Tags(tagOf, products) + [tagOf(p)]
  {
    assert (products + [p])[..|products|] == products;
  }

  /** The counts after one more product: only its label's count moves. */
  lemma CountStep(tagOf: Product -> string, products: seq<Product>, p: Product, counts: map<string, nat>)
    requires tagOf(p) !in counts ==> tagOf(p) !in Tags(tagOf, products)
    requires Exact(tagOf, products, counts)
    ensures var c := tagOf(p);
            Exact(tagOf, products + [p], if c in counts then counts[c := counts[c] + 1] else counts[c := 1])
  {
    var category := tagOf(p);
    var next := if category in counts then counts[category := counts[category] + 1] else counts[category := 1];
    forall l | l in next ensures next[l] == Count(Under(tagOf, l), products + [p]) {
      CountSnoc(Under(tagOf, l), products, p);
      if l == category {
        assert Under(tagOf, l)(p);
        if category !in counts {
          CountZeroFor(tagOf, products, l);
        }
      } else {
        assert !Under(tagOf, l)(p);
        assert next[l] == counts[l];
      }
    }
  }

  /** A label the map has not met yet has counted no product. */
  lemma CountZeroFor(tagOf: Product -> string, products: seq<Product>, l: string)
    requires l !in Tags(tagOf, products)
    ensures Count(Under(tagOf, l), products) == 0
  {
    forall i | 0 <= i < |products| ensures !Under(tagOf, l)(products[i]) {
      TagsAt(tagOf, products, i);
      assert Tags(tagOf, products)[i] in Tags(tagOf, products);
    }
    CountZero(Under(tagOf, l), products);
  }

  /** The sum of the counts of `labels`. */
  function SumCounts(tagOf: Product -> string, labels: seq<string>, products: seq<Product>): nat
  {
    if labels == [] then 0 else Count(Under(tagOf, labels[0]), products) + SumCounts(tagOf, labels[1..], products)
  }

  /** One more label adds the count under it. */
  lemma {:induction false} SumCountsAppendLabel(tagOf: Product -> string, labels: seq<string>, x: string, products: seq<Product>)
    ensures SumCounts(tagOf, labels + [x], products) == SumCounts(tagOf, labels, products) + Count(Under(tagOf, x), products)
  {
    if labels == [] {
      assert labels + [x] == [x] && [x][1..] == [];
    } else {
      assert (labels + [x])[1..] == labels[1..] + [x];
      SumCountsAppendLabel(tagOf, labels[1..], x, products);
    }
  }

  /** How many of `labels` equal `m`. */
  function Occurrences(labels: seq<string>, m: string): nat
  {
    if labels == [] then 0 else (if labels[0] == m then 1 else 0) + Occurrences(labels[1..], m)
  }

  lemma {:induction false} OccurrencesDistinct(labels: seq<string>, m: string)
    requires Distinct(labels) && m in labels
    ensures Occurrences(labels, m) == 1
  {
    if labels[0] == m {
      OccurrencesAbsent(labels[1..], m);
    } else {
      OccurrencesDistinct(labels[1..], m);
    }
  }

  lemma {:induction false} OccurrencesAbsent(labels: seq<string>, m: string)
    requires m !in labels
    ensures Occurrences(labels, m) == 0
  {
    if labels != [] {
      OccurrencesAbsent(labels[1..], m);
    }
  }

  lemma {:induction false} SumCountsSnoc(tagOf: Product -> string, labels: seq<string>, products: seq<Product>, p: Product)
    ensures SumCounts(tagOf, labels, products + [p]) == SumCounts(tagOf, labels, products) + Occurrences(labels, tagOf(p))
  {
    if labels != [] {
      CountSnoc(Under(tagOf, labels[0]), products, p);
      SumCountsSnoc(tagOf, labels[1..], products, p);
    }
  }

  /** Counting under distinct labels that cover every product counts each
      product once. */
  lemma {:induction false} SumCountsCover(tagOf: Product -> string, labels: seq<string>, products: seq<Product>)
    requires Distinct(labels)
    requires forall i :: 0 <= i < |products| ==> tagOf(products[i]) in labels
    ensures SumCounts(tagOf, labels, products) == |products|
  {
    if products == [] {
      SumCountsEmpty(tagOf, labels);
    } else {
      var init := products[..|products| - 1];
      var last := products[|products| - 1];
      SumCountsCover(tagOf, labels, init);
      LastSplit(products);
      SumCountsSnoc(tagOf, labels, init, last);
      OccurrencesDistinct(labels, tagOf(last));
    }
  }

  lemma {:induction false} SumCountsEmpty(tagOf: Product -> string, labels: seq<string>)
    ensures SumCounts(tagOf, labels, []) == 0
  {
    if labels != [] {
      SumCountsEmpty(tagOf, labels[1..]);
    }
  }

  lemma {:induction false} TagsAt(tagOf: Product -> string, products: seq<Product>, i: nat)
    requires i < |products|
    ensures Tags(tagOf, products)[i] == tagOf(products[i])
  {
    if i < |products| - 1 {
      TagsAt(tagOf, products[..|products| - 1], i);
    }
  }

  function Total(entries: seq<(string, nat)>): nat
  {
    if entries == [] then 0 else entries[0].1 + Total(entries[1..])
  }

  lemma {:induction false} TotalIsSumCounts(tagOf: Product -> string, labels: seq<string>, products: seq<Product>)
    ensures Total(seq(|labels|, i requires 0 <= i < |labels| => (labels[i], Count(Under(tagOf, labels[i]), products))))
            == SumCounts(tagOf, labels, products)
  {
    var e := seq(|labels|, i requires 0 <= i < |labels| => (labels[i], Count(Under(tagOf, labels[i]), products)));
    if labels != [] {
      TotalIsSumCounts(tagOf, labels[1..], products);
      assert e[1..] == seq(|labels[1..]|, i requires 0 <= i < |labels[1..]| =>
                             (labels[1..][i], Count(Under(tagOf, labels[1..][i]), products)));
    }
  }

  /** Every product is counted exactly once: the counts add up to the number
      of products. */
  lemma TalliesSumToProducts(tagOf: Product -> string, products: seq<Product>)
    ensures Total(Tallies(tagOf, products)) == |products|
  {
    var labels := Dedupe(Tags(tagOf, products));
    forall i | 0 <= i < |products| ensures tagOf(products[i]) in labels {
      TagsAt(tagOf, products, i);
      assert Tags(tagOf, products)[i] in Tags(tagOf, products);
    }
    SumCountsCover(tagOf, labels, products);
    TotalIsSumCounts(tagOf, labels, products);
  }

  /** Every counted label is the label of some product. */
  lemma {:induction false} TalliedLabelMet(tagOf: Product -> string, products: seq<Product>, k: nat)
    requires k < |Tallies(tagOf, products)|
    ensures exists i :: 0 <= i < |products| && tagOf(products[i]) == Tallies(tagOf, products)[k].0
  {
    var labels := Dedupe(Tags(tagOf, products));
    var tag := labels[k];
    assert tag in Tags(tagOf, products);
    var i :| 0 <= i < |products| && Tags(tagOf, products)[i] == tag;
    TagsAt(tagOf, products, i);
  }
}
