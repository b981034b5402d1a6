/** Sequence operations the storefront spells with `filter`, `new Set(...)` and
    `Array.from(new Set(...))`: filtering, and de-duplication that keeps the
    first occurrence of each value in its original order. */
module Seqs {
  import opened Wrappers

  predicate Distinct<T(==,!new)>(s: seq<T>)
  {
    forall i, j :: 0 <= i < j < |s| ==> s[i] != s[j]
  }

  /** `Array.prototype.filter`. */
  function Filter<T(!new)>(f: T -> bool, s: seq<T>): (r: seq<T>)
    ensures |r| <= |s|
    ensures forall x :: x in r <==> x in s && f(x)
  {
    if s == [] then [] else (if f(s[0]) then [s[0]] else []) + Filter(f, s[1..])
  }

  /** `a` can be had from `b` by deleting elements: it keeps their order. */
  predicate IsSubsequence<T(==)>(a: seq<T>, b: seq<T>)
    decreases |b|
  {
    a == [] || (b != [] && if a[0] == b[0] then IsSubsequence(a[1..], b[1..]) else IsSubsequence(a, b[1..]))
  }

  lemma {:induction false} SubsequenceOfItself<T>(s: seq<T>)
    ensures IsSubsequence(s, s)
  {
    if s != [] {
      SubsequenceOfItself(s[1..]);
    }
  }

  /** Filtering keeps the survivors in their original order. */
  lemma {:induction false} FilterSubsequence<T(!new)>(f: T -> bool, s: seq<T>)
    ensures IsSubsequence(Filter(f, s), s)
  {
    if s != [] {
      FilterSubsequence(f, s[1..]);
      var r := Filter(f, s);
      if f(s[0]) {
        assert r[0] == s[0] && r[1..] == Filter(f, s[1..]);
      } else {
        assert r == Filter(f, s[1..]);
      }
    }
  }

  lemma {:induction false} FilterConcat<T(!new)>(f: T -> bool, a: seq<T>, b: seq<T>)
    ensures Filter(f, a + b) == Filter(f, a) + Filter(f, b)
  {
    if a == [] {
      assert a + b == b;
    } else {
      assert (a + b)[0] == a[0] && (a + b)[1..] == a[1..] + b;
      FilterConcat(f, a[1..], b);
    }
  }

  /** Filtering with a test every element passes changes nothing. */
  lemma {:induction false} FilterAll<T(!new)>(f: T -> bool, s: seq<T>)
    requires forall i :: 0 <= i < |s| ==> f(s[i])
    ensures Filter(f, s) == s
  {
    if s != [] {
      FilterAll(f, s[1..]);
    }
  }

  /** Filtering keeps distinct values distinct. */
  lemma {:induction false} FilterDistinct<T(!new)>(f: T -> bool, s: seq<T>)
    requires Distinct(s)
    ensures Distinct(Filter(f, s))
  {
    if s != [] {
      FilterDistinct(f, s[1..]);
      assert s[0] !in s[1..];
    }
  }

  /** Index of the first occurrence of `x`. */
  function FirstIndex<T(==,!new)>(s: seq<T>, x: T): (i: nat)
    requires x in s
    ensures i < |s| && s[i] == x && x !in s[..i]
  {
    if s[0] == x then 0 else 1 + FirstIndex(s[1..], x)
  }

  lemma {:induction false} FirstIndexPrefix<T(!new)>(s: seq<T>, m: nat, x: T)
    requires m <= |s| && x in s[..m]
    ensures FirstIndex(s, x) == FirstIndex(s[..m], x)
  {
    if s[0] != x {
      assert s[1..][..m - 1] == s[..m][1..];
      FirstIndexPrefix(s[1..], m - 1, x);
    }
  }

  /** `[...new Set(s)]`: each value once, at the place of its first occurrence. */
  function Dedupe<T(==,!new)>(s: seq<T>): (r: seq<T>)
    ensures Distinct(r)
    ensures forall x :: x in r <==> x in s
    ensures |r| <= |s|
  {
    if s == [] then []
    else
      var d := Dedupe(s[..|s| - 1]);
      var x := s[|s| - 1];
      assert forall i :: 0 <= i < |s| - 1 ==> s[i] in s[..|s| - 1] by {
        forall i | 0 <= i < |s| - 1 ensures s[i] in s[..|s| - 1] { assert s[..|s| - 1][i] == s[i]; }
      }
      if x in d then d else d + [x]
  }

  /** Appending one value to the input appends it to the output unless it was already there. */
  lemma DedupeSnoc<T(!new)>(s: seq<T>, e: T)
    ensures Dedupe(s + [e]) == if e in Dedupe(s) then Dedupe(s) else Dedupe(s) + [e]
  {
    var l := s + [e];
    assert l[..|l| - 1] == s;
  }

  /** De-duplication lists values in the order of their first occurrences. */
  lemma {:induction false} DedupeOrder<T(!new)>(s: seq<T>)
    ensures var r := Dedupe(s);
            forall i, j :: 0 <= i < j < |r| ==> FirstIndex(s, r[i]) < FirstIndex(s, r[j])
  {
    if s != [] {
      var p := s[..|s| - 1];
      var x := s[|s| - 1];
      var d := Dedupe(p);
      assert s == p + [x];
      DedupeSnoc(p, x);
      DedupeOrder(p);
      forall k | 0 <= k < |d| ensures FirstIndex(s, d[k]) == FirstIndex(p, d[k]) < |p| {
        FirstIndexPrefix(s, |s| - 1, d[k]);
      }
      var r := Dedupe(s);
      forall i, j | 0 <= i < j < |r| ensures FirstIndex(s, r[i]) < FirstIndex(s, r[j]) {
        assert r[i] == d[i];
        if j < |d| {
          assert r[j] == d[j];
          assert FirstIndex(p, d[i]) < FirstIndex(p, d[j]);
        } else {
          assert r[j] == x && x !in p;
          assert FirstIndex(s, x) == |s| - 1;
        }
      }
    }
  }

  /** A sequence without repeats is its own de-duplication. */
  lemma {:induction false} DedupeDistinct<T(!new)>(s: seq<T>)
    requires Distinct(s)
    ensures Dedupe(s) == s
  {
    if s != [] {
      var p := s[..|s| - 1];
      DedupeDistinct(p);
      assert s[|s| - 1] !in p;
      assert p + [s[|s| - 1]] == s;
    }
  }

  lemma AppendSnoc<T>(a: seq<T>, b: seq<T>, e: T)
    ensures a + (b + [e]) == (a + b) + [e]
  { }

  /** De-duplicating a prefix first does not change the final result. */
  lemma {:induction false} DedupeAppend<T(!new)>(x: seq<T>, y: seq<T>)
    ensures Dedupe(Dedupe(x) + y) == Dedupe(x + y)
  {
    if y == [] {
      assert Dedupe(x) + y == Dedupe(x) && x + y == x;
      DedupeDistinct(Dedupe(x));
    } else {
      var y' := y[..|y| - 1];
      var e := y[|y| - 1];
      assert y == y' + [e];
      calc {
        Dedupe(Dedupe(x) + y);
        { AppendSnoc(Dedupe(x), y', e); }
        Dedupe((Dedupe(x) + y') + [e]);
        { DedupeSnoc(Dedupe(x) + y', e); DedupeAppend(x, y'); }
        Dedupe((x + y') + [e]);
        { DedupeSnoc(x + y', e); AppendSnoc(x, y', e); }
        Dedupe(x + y);
      }
    }
  }

  /** Filtering keeps every property all the input elements have. */
  lemma FilterKeeps<T(!new)>(f: T -> bool, s: seq<T>, p: T -> bool)
    requires forall i :: 0 <= i < |s| ==> p(s[i])
    ensures forall i :: 0 <= i < |Filter(f, s)| ==> p(Filter(f, s)[i])
  {
    var r := Filter(f, s);
    forall i | 0 <= i < |r| ensures p(r[i]) {
      assert r[i] in s;
    }
  }

  /** De-duplication keeps every property all the input elements have. */
  lemma DedupeKeeps<T(!new)>(s: seq<T>, p: T -> bool)
    requires forall i :: 0 <= i < |s| ==> p(s[i])
    ensures forall i :: 0 <= i < |Dedupe(s)| ==> p(Dedupe(s)[i])
  {
    var r := Dedupe(s);
    forall i | 0 <= i < |r| ensures p(r[i]) {
      assert r[i] in s;
    }
  }

  /** `values.map(f).filter(…)` where `f` rejects with None: the accepted
      results, in input order. */
  function FilterMap<A, B>(f: A -> Option<B>, s: seq<A>): (r: seq<B>)
    ensures |r| <= |s|
  {
    if s == [] then [] else FilterMap(f, s[..|s| - 1]) + OptionToSeq(f(s[|s| - 1]))
  }

  function OptionToSeq<B>(o: Option<B>): (r: seq<B>)
    ensures |r| <= 1
  {
    match o
    case Some(b) => [b]
    case None => []
  }

  lemma FilterMapSnoc<A, B>(f: A -> Option<B>, s: seq<A>, a: A)
    ensures FilterMap(f, s + [a]) == FilterMap(f, s) + OptionToSeq(f(a))
  {
    assert (s + [a])[..|s|] == s;
  }

  /** An output is listed exactly when some input is accepted with it. */
  lemma {:induction false} FilterMapMembers<A, B(!new)>(f: A -> Option<B>, s: seq<A>, b: B)
    ensures b in FilterMap(f, s) <==> exists j :: 0 <= j < |s| && f(s[j]) == Some(b)
  {
    if s != [] {
      var init := s[..|s| - 1];
      var last := s[|s| - 1];
      FilterMapMembers(f, init, b);
      assert FilterMap(f, s) == FilterMap(f, init) + OptionToSeq(f(last));
      if exists j :: 0 <= j < |s| && f(s[j]) == Some(b) {
        var j :| 0 <= j < |s| && f(s[j]) == Some(b);
        if j < |init| {
          assert init[j] == s[j];
        }
      }
      if b in FilterMap(f, s) && b !in FilterMap(f, init) {
        assert f(s[|s| - 1]) == Some(b);
      }
    }
  }

  /** Every output has the property `f` promises of its results. */
  lemma {:induction false} FilterMapKeeps<A, B>(f: A -> Option<B>, s: seq<A>, p: B -> bool)
    requires forall j :: 0 <= j < |s| && f(s[j]).Some? ==> p(f(s[j]).value)
    ensures forall i :: 0 <= i < |FilterMap(f, s)| ==> p(FilterMap(f, s)[i])
  {
    if s != [] {
      var init := s[..|s| - 1];
      FilterMapKeeps(f, init, p);
      assert forall j :: 0 <= j < |init| ==> init[j] == s[j];
    }
  }

  /** `new Set(s)`: the values of a sequence. */
  function Elements<T>(s: seq<T>): set<T>
  {
    if s == [] then {} else Elements(s[..|s| - 1]) + {s[|s| - 1]}
  }

  lemma ElementsSnoc<T>(s: seq<T>, x: T)
    ensures Elements(s + [x]) == Elements(s) + {x}
  {
    assert (s + [x])[..|s|] == s;
  }

  lemma {:induction false} ElementsMembers<T>(s: seq<T>, x: T)
    ensures x in Elements(s) <==> x in s
  {
    if s != [] {
      ElementsMembers(s[..|s| - 1], x);
      assert s == s[..|s| - 1] + [s[|s| - 1]];
    }
  }

  /** De-duplicating a suffix first does not change the final result. */
  lemma {:induction false} DedupeAppendRight<T(!new)>(x: seq<T>, y: seq<T>)
    ensures Dedupe(x + Dedupe(y)) == Dedupe(x + y)
  {
    if y == [] {
      assert x + Dedupe(y) == x + y;
    } else {
      var y', e := y[..|y| - 1], y[|y| - 1];
      assert y == y' + [e];
      assert x + y == (x + y') + [e];
      DedupeAppendRight(x, y');
      DedupeAppendRightStep(x, y', e);
    }
  }

  lemma {:induction false} DedupeAppendRightStep<T(!new)>(x: seq<T>, y: seq<T>, e: T)
    requires Dedupe(x + Dedupe(y)) == Dedupe(x + y)
    ensures Dedupe(x + Dedupe(y + [e])) == Dedupe((x + y) + [e])
  {
    DedupeSnoc(y, e);
    DedupeSnoc(x + y, e);
    if e in Dedupe(y) {
      assert e in x + y;
    } else {
      AppendSnoc(x, Dedupe(y), e);
      DedupeSnoc(x + Dedupe(y), e);
      assert e in Dedupe(x + Dedupe(y)) <==> e in x + Dedupe(y);
    }
  }

  /** Only the empty sequence de-duplicates to nothing. */
  lemma DedupeEmpty<T(!new)>(s: seq<T>)
    ensures Dedupe(s) == [] <==> s == []
  {
    if s != [] {
      assert s[0] in Dedupe(s);
    }
  }

  /** The first value kept by de-duplication is the first input. */
  lemma {:induction false} DedupeHead<T(!new)>(s: seq<T>)
    requires s != []
    ensures Dedupe(s) != [] && Dedupe(s)[0] == s[0]
  {
    if |s| > 1 {
      var p := s[..|s| - 1];
      DedupeHead(p);
      assert p[0] == s[0];
    }
  }

  /** A value given twice in a row at the front is de-duplicated as if given once. */
  lemma DedupeRepeatHead<T(!new)>(x: T, s: seq<T>)
    ensures Dedupe([x] + ([x] + s)) == Dedupe([x] + s)
  {
    assert Dedupe([x]) == [x] by {
      assert [x][..0] == [];
    }
    assert Dedupe([x, x]) == [x] by {
      assert [x, x][..1] == [x];
    }
    DedupeAppend([x, x], s);
    DedupeAppend([x], s);
    assert [x] + ([x] + s) == [x, x] + s;
  }

  /** `FilterMap` over a concatenation. */
  lemma {:induction false} FilterMapConcat<A, B>(f: A -> Option<B>, a: seq<A>, b: seq<A>)
    ensures FilterMap(f, a + b) == FilterMap(f, a) + FilterMap(f, b)
  {
    if b == [] {
      assert a + b == a;
    } else {
      var init := b[..|b| - 1];
      var last := b[|b| - 1];
      var tail := OptionToSeq(f(last));
      assert b == init + [last];
      assert a + b == (a + init) + [last];
      calc {
        FilterMap(f, a + b);
        { FilterMapSnoc(f, a + init, last); }
        FilterMap(f, a + init) + tail;
        { FilterMapConcat(f, a, init); }
        FilterMap(f, a) + FilterMap(f, init) + tail;
        { FilterMapSnoc(f, init, last); }
        FilterMap(f, a) + FilterMap(f, b);
      }
    }
  }

  /** A filter that keeps as many values as it was given drops none. */
  lemma {:induction false} FilterKeepsAll<T(!new)>(f: T -> bool, s: seq<T>)
    requires |Filter(f, s)| == |s|
    ensures forall i :: 0 <= i < |s| ==> f(s[i])
  {
    if s != [] {
      assert |Filter(f, s[1..])| <= |s| - 1;
      FilterKeepsAll(f, s[1..]);
      assert forall i :: 1 <= i < |s| ==> s[i] == s[1..][i - 1];
    }
  }

  /** How many values pass a test, counted one at a time. */
  function Count<T>(f: T -> bool, s: seq<T>): (n: nat)
    ensures n <= |s|
  {
    if s == [] then 0 else Count(f, s[..|s| - 1]) + (if f(s[|s| - 1]) then 1 else 0)
  }

  lemma CountSnoc<T>(f: T -> bool, s: seq<T>, x: T)
    ensures Count(f, s + [x]) == Count(f, s) + (if f(x) then 1 else 0)
  {
    assert (s + [x])[..|s|] == s;
  }

  /** The length of a filtered sequence is the number of values passing the test. */
  lemma {:induction false} FilterCount<T(!new)>(f: T -> bool, s: seq<T>)
    ensures |Filter(f, s)| == Count(f, s)
  {
    if s != [] {
      var init := s[..|s| - 1];
      var last := s[|s| - 1];
      FilterCount(f, init);
      assert s == init + [last];
      FilterConcat(f, init, [last]);
      assert Filter(f, [last]) == (if f(last) then [last] else []) + Filter(f, []);
    }
  }

  /** With no value passing the test the count is zero, and conversely. */
  lemma {:induction false} CountZero<T>(f: T -> bool, s: seq<T>)
    ensures Count(f, s) == 0 <==> forall i :: 0 <= i < |s| ==> !f(s[i])
  {
    if s != [] {
      var init := s[..|s| - 1];
      CountZero(f, init);
      assert forall i :: 0 <= i < |init| ==> init[i] == s[i];
    }
  }

  /** `findIndex`: the index of the first value passing the test. */
  function FirstWhere<T>(f: T -> bool, s: seq<T>): (r: Option<nat>)
    ensures r.Some? ==> r.value < |s| && f(s[r.value]) && forall j :: 0 <= j < r.value ==> !f(s[j])
    ensures r.None? ==> forall j :: 0 <= j < |s| ==> !f(s[j])
  {
    if s == [] then None
    else if f(s[0]) then Some(0)
    else
      match FirstWhere(f, s[1..])
      case None => None
      case Some(i) => Some(i + 1)
  }

  /** An element inserted where the filter drops it changes nothing; one it
      keeps, inserted last, comes last. */
  lemma {:induction false} FilterInsert<T(!new)>(f: T -> bool, s: seq<T>, p: nat, x: T)
    requires p <= |s| && (f(x) ==> p == |s|)
    ensures Filter(f, s[..p] + [x] + s[p..]) == Filter(f, s) + (if f(x) then [x] else [])
  {
    if f(x) {
      FilterKeptLast(f, s, x);
    } else {
      FilterDropped(f, s, p, x);
    }
  }

  lemma {:induction false} FilterKeptLast<T(!new)>(f: T -> bool, s: seq<T>, x: T)
    requires f(x)
    ensures Filter(f, s[..|s|] + [x] + s[|s|..]) == Filter(f, s) + [x]
  {
    assert s[..|s|] + [x] + s[|s|..] == s + [x];
    FilterSnoc(f, s, x);
  }

  lemma {:induction false} FilterDropped<T(!new)>(f: T -> bool, s: seq<T>, p: nat, x: T)
    requires p <= |s| && !f(x)
    ensures Filter(f, s[..p] + [x] + s[p..]) == Filter(f, s) + []
  {
    var a, b := s[..p], s[p..];
    calc {
      Filter(f, a + [x] + b);
      { FilterConcat(f, a + [x], b); }
      Filter(f, a + [x]) + Filter(f, b);
      { FilterSnoc(f, a, x); }
      Filter(f, a) + Filter(f, b);
      { FilterConcat(f, a, b); assert a + b == s; }
      Filter(f, s);
    }
  }

  /** Inserting a new element anywhere adds it to the elements and keeps a
      sequence free of repeats. */
  lemma InsertDistinct<T(!new)>(s: seq<T>, p: nat, x: T)
    requires p <= |s| && x !in s
    ensures multiset(s[..p] + [x] + s[p..]) == multiset(s) + multiset{x}
    ensures Distinct(s) ==> Distinct(s[..p] + [x] + s[p..])
  {
    assert s == s[..p] + s[p..];
    assert multiset(s[..p] + [x] + s[p..]) == multiset(s + [x]);
    if Distinct(s) {
      assert Distinct(s + [x]);
      PermutationDistinct(s + [x], s[..p] + [x] + s[p..]);
    }
  }

  /** Slicing a suffix again is slicing the whole sequence further on. */
  lemma SliceOfSuffix<T>(s: seq<T>, k: nat, n: nat)
    requires k + n <= |s|
    ensures s[k..][..n] == s[k..k + n] && s[k..][n..] == s[k + n..]
  { }

  /** A sequence is its three slices at `a` and `b`, joined. */
  lemma SplitInThree<T>(s: seq<T>, a: nat, b: nat)
    requires a <= b <= |s|
    ensures s == s[..a] + s[a..b] + s[b..]
  {
  }

  /** Two joins of three parts that agree, where no part of the first is
      longer than its partner, have equal middles. */
  lemma SameMiddle<T>(x: seq<T>, y: seq<T>, z: seq<T>, p: seq<T>, m: seq<T>, q: seq<T>)
    requires x + y + z == p + m + q
    requires |x| <= |p| && |y| <= |m| && |z| <= |q|
    ensures y == m
  {
    assert y == (x + y + z)[|x|..|x| + |y|];
    assert m == (p + m + q)[|p|..|p| + |m|];
  }

  /** A non-empty sequence is its front followed by its last element. */
  lemma LastSplit<T>(s: seq<T>)
    requires s != []
    ensures s == s[..|s| - 1] + [s[|s| - 1]]
  {
  }

  /** Taking one more element appends it. */
  lemma TakeSnoc<T>(s: seq<T>, i: nat)
    requires i < |s|
    ensures s[..i + 1] == s[..i] + [s[i]]
  {
  }

  /** Filtering one more element. */
  lemma FilterSnoc<T(!new)>(f: T -> bool, s: seq<T>, x: T)
    ensures Filter(f, s + [x]) == Filter(f, s) + (if f(x) then [x] else [])
  {
    FilterConcat(f, s, [x]);
    assert Filter(f, [x]) == (if f(x) then [x] else []) + Filter(f, []);
  }

  /** Filtering one more element in front. */
  lemma FilterCons<T(!new)>(f: T -> bool, x: T, s: seq<T>)
    ensures Filter(f, [x] + s) == (if f(x) then [x] else []) + Filter(f, s)
  {
    assert ([x] + s)[1..] == s;
  }

  /** Filtering out exactly the element at `k` removes it and keeps the rest. */
  lemma {:induction false} FilterOnlyAt<T(!new)>(f: T -> bool, s: seq<T>, k: nat)
    requires k < |s| && !f(s[k])
    requires forall i :: 0 <= i < |s| && i != k ==> f(s[i])
    ensures Filter(f, s) == s[..k] + s[k + 1..]
  {
    var t := s[1..];
    forall i | 0 <= i < |t| && i != k - 1 ensures f(t[i]) {
      assert t[i] == s[i + 1];
    }
    if k == 0 {
      FilterAll(f, t);
      assert s[..k] + s[k + 1..] == t;
    } else {
      FilterOnlyAt(f, t, k - 1);
      assert f(s[0]);
      assert Filter(f, s) == [s[0]] + Filter(f, t);
      DropAtCons(s, k);
    }
  }

  lemma DropAtCons<T>(s: seq<T>, k: nat)
    requires 0 < k < |s|
    ensures s[..k] + s[k + 1..] == [s[0]] + (s[1..][..k - 1] + s[1..][k..])
  {
    assert s[..k] == [s[0]] + s[1..][..k - 1];
  }

  /** Indexing into the middle part of a three-part concatenation. */
  lemma ConcatMiddle<T>(a: seq<T>, b: seq<T>, c: seq<T>, i: nat)
    requires i < |b|
    ensures |a| + i < |a + b + c| && (a + b + c)[|a| + i] == b[i]
  {
  }

  /** A non-empty sequence is its first element followed by the rest. */
  lemma HeadSplit<T>(s: seq<T>)
    requires s != []
    ensures s == [s[0]] + s[1..]
  {
  }

  /** `filter` after a `map` whose callback keeps every value is the identity. */
  lemma {:induction false} FilterMapIdentity<T>(f: T -> Option<T>, s: seq<T>)
    requires forall i :: 0 <= i < |s| ==> f(s[i]) == Some(s[i])
    ensures FilterMap(f, s) == s
  {
    if s != [] {
      LastSplit(s);
      FilterMapIdentity(f, s[..|s| - 1]);
    }
  }

  /** A value at two positions occurs at least twice. */
  lemma RepeatedMultiplicity<T>(s: seq<T>, i: nat, j: nat)
    requires i < j < |s| && s[i] == s[j]
    ensures multiset(s)[s[i]] >= 2
  {
    assert s == s[..j] + s[j..];
    assert s[i] in s[..j] && s[j] in s[j..];
    assert multiset(s) == multiset(s[..j]) + multiset(s[j..]);
  }

  lemma {:induction false} DistinctMultiplicity<T(!new)>(s: seq<T>, x: T)
    requires Distinct(s)
    ensures multiset(s)[x] <= 1
  {
    if s != [] {
      assert s == [s[0]] + s[1..];
      DistinctMultiplicity(s[1..], x);
      assert s[0] !in s[1..];
    }
  }

  /** Re-arranging distinct values keeps them distinct. */
  lemma PermutationDistinct<T(!new)>(a: seq<T>, b: seq<T>)
    requires Distinct(a) && multiset(a) == multiset(b)
    ensures Distinct(b)
  {
    forall i, j | 0 <= i < j < |b| ensures b[i] != b[j] {
      if b[i] == b[j] {
        RepeatedMultiplicity(b, i, j);
        DistinctMultiplicity(a, b[i]);
      }
    }
  }
}
