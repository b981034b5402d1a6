/** `Array.prototype.sort` with a comparator, as a stable insertion sort, and the
    string order used where the storefront calls `localeCompare(…, "fr")` or the
    default `sort()`. */
module Sorting {
  import opened Seqs

  /** `le(a, b)` is "the comparator does not put `a` after `b`": total and
      transitive, as every comparator the storefront passes to `sort` is. */
  ghost predicate TotalPreorder<T(!new)>(le: (T, T) -> bool)
  {
    && (forall a, b :: le(a, b) || le(b, a))
    && (forall a, b, c :: le(a, b) && le(b, c) ==> le(a, c))
  }

  predicate SortedBy<T>(s: seq<T>, le: (T, T) -> bool)
  {
    forall i, j :: 0 <= i < j < |s| ==> le(s[i], s[j])
  }

  /** Inserts `x` before the first element it does not come after, so that
      elements the comparator ties keep their original order. */
  function Insert<T>(x: T, s: seq<T>, le: (T, T) -> bool): (r: seq<T>)
    ensures multiset(r) == multiset(s) + multiset{x}
  {
    if s == [] || le(x, s[0]) then [x] + s
    else
      assert s == [s[0]] + s[1..];
      [s[0]] + Insert(x, s[1..], le)
  }

  /** A stable sort: `s[0]` is inserted into the sorted rest ahead of its equals. */
  function InsertionSort<T>(s: seq<T>, le: (T, T) -> bool): (r: seq<T>)
    ensures multiset(r) == multiset(s)
  {
    if s == [] then [] else
      assert s == [s[0]] + s[1..];
      Insert(s[0], InsertionSort(s[1..], le), le)
  }

  lemma {:induction false} InsertSorted<T(!new)>(x: T, s: seq<T>, le: (T, T) -> bool)
    requires TotalPreorder(le) && SortedBy(s, le)
    ensures SortedBy(Insert(x, s, le), le)
  {
    if s != [] && !le(x, s[0]) {
      var t := Insert(x, s[1..], le);
      InsertSorted(x, s[1..], le);
      assert le(s[0], x);
      forall k | 0 <= k < |t| ensures le(s[0], t[k]) {
        assert t[k] in multiset(s[1..]) + multiset{x};
        if t[k] != x {
          assert t[k] in s[1..];
        }
      }
      var r := [s[0]] + t;
      forall i, j | 0 <= i < j < |r| ensures le(r[i], r[j]) {
        if i == 0 {
          assert r[j] == t[j - 1];
        } else {
          assert r[i] == t[i - 1] && r[j] == t[j - 1];
        }
      }
    }
  }

  /** The sort returns a permutation of its input, ordered by the comparator. */
  lemma {:induction false} InsertionSortSorted<T(!new)>(s: seq<T>, le: (T, T) -> bool)
    requires TotalPreorder(le)
    ensures SortedBy(InsertionSort(s, le), le)
  {
    if s != [] {
      InsertionSortSorted(s[1..], le);
      InsertSorted(s[0], InsertionSort(s[1..], le), le);
    }
  }

  /** Sorting what is already in order changes nothing. */
  lemma {:induction false} InsertionSortFixed<T>(s: seq<T>, le: (T, T) -> bool)
    requires SortedBy(s, le)
    ensures InsertionSort(s, le) == s
  {
    if s != [] {
      assert SortedBy(s[1..], le);
      InsertionSortFixed(s[1..], le);
      assert s[1..] == [] || le(s[0], s[1..][0]);
      assert s == [s[0]] + s[1..];
    }
  }

  /** The elements the comparator ties with `y`. */
  function TiedWith<T>(y: T, le: (T, T) -> bool): T -> bool
  {
    (x: T) => le(x, y) && le(y, x)
  }

  /** Inserting `x` puts it before every element it ties with. */
  lemma {:induction false} FilterInsertTied<T(!new)>(x: T, s: seq<T>, le: (T, T) -> bool, y: T)
    requires TotalPreorder(le)
    ensures Filter(TiedWith(y, le), Insert(x, s, le))
            == (if TiedWith(y, le)(x) then [x] else []) + Filter(TiedWith(y, le), s)
  {
    var tied := TiedWith(y, le);
    if s == [] || le(x, s[0]) {
      FilterCons(tied, x, s);
    } else {
      var t := Insert(x, s[1..], le);
      FilterInsertTied(x, s[1..], le, y);
      FilterCons(tied, s[0], t);
      FilterCons(tied, s[0], s[1..]);
      assert s == [s[0]] + s[1..];
      var h := s[0];
      assert le(x, y) && le(y, h) ==> le(x, h);
      assert !(tied(x) && tied(h));
    }
  }

  /** The sort is stable: the elements tied with any `y` come out in the
      order they went in. */
  lemma {:induction false} InsertionSortStable<T(!new)>(s: seq<T>, le: (T, T) -> bool, y: T)
    requires TotalPreorder(le)
    ensures Filter(TiedWith(y, le), InsertionSort(s, le)) == Filter(TiedWith(y, le), s)
  {
    if s != [] {
      InsertionSortStable(s[1..], le, y);
      FilterInsertTied(s[0], InsertionSort(s[1..], le), le, y);
    }
  }

  /** Filtering keeps a sorted sequence sorted. */
  lemma {:induction false} FilterSorted<T(!new)>(f: T -> bool, s: seq<T>, le: (T, T) -> bool)
    requires SortedBy(s, le)
    ensures SortedBy(Filter(f, s), le)
  {
    if s != [] {
      assert SortedBy(s[1..], le);
      FilterSorted(f, s[1..], le);
      var t := Filter(f, s[1..]);
      if f(s[0]) {
        forall k | 0 <= k < |t| ensures le(s[0], t[k]) {
          assert t[k] in s[1..];
        }
        var r := [s[0]] + t;
        forall i, j | 0 <= i < j < |r| ensures le(r[i], r[j]) {
          if i == 0 {
            assert r[j] == t[j - 1];
          } else {
            assert r[i] == t[i - 1] && r[j] == t[j - 1];
          }
        }
      } else {
        assert Filter(f, s) == t;
      }
    }
  }

  lemma PermutationLength<T>(a: seq<T>, b: seq<T>)
    requires multiset(a) == multiset(b)
    ensures |a| == |b|
  {
    assert |multiset(a)| == |a| && |multiset(b)| == |b|;
  }

  // ---------------------------------------------------------------------------
  // String order
  // ---------------------------------------------------------------------------

  /** Lexicographic order on code points. */
  predicate StrLe(a: string, b: string)
  {
    a == [] || (b != [] && (a[0] < b[0] || (a[0] == b[0] && StrLe(a[1..], b[1..]))))
  }

  lemma {:induction false} StrLeTotal(a: string, b: string)
    ensures StrLe(a, b) || StrLe(b, a)
  {
    if a != [] && b != [] && a[0] == b[0] {
      StrLeTotal(a[1..], b[1..]);
    }
  }

  lemma {:induction false} StrLeTransitive(a: string, b: string, c: string)
    requires StrLe(a, b) && StrLe(b, c)
    ensures StrLe(a, c)
  {
    if a != [] && b != [] && c != [] && a[0] == b[0] == c[0] {
      StrLeTransitive(a[1..], b[1..], c[1..]);
    }
  }

  lemma {:induction false} StrLeAntisymmetric(a: string, b: string)
    requires StrLe(a, b) && StrLe(b, a)
    ensures a == b
  {
    if a != [] && b != [] {
      StrLeAntisymmetric(a[1..], b[1..]);
      assert a == [a[0]] + a[1..] && b == [b[0]] + b[1..];
    }
  }

  lemma StrLeIsTotalPreorder()
    ensures TotalPreorder(StrLe)
  {
    forall a, b ensures StrLe(a, b) || StrLe(b, a) {
      StrLeTotal(a, b);
    }
    forall a, b, c | StrLe(a, b) && StrLe(b, c) ensures StrLe(a, c) {
      StrLeTransitive(a, b, c);
    }
  }

  /** A sorted sequence of distinct strings is strictly increasing. */
  lemma SortedDistinctStrictly(s: seq<string>, i: nat, j: nat)
    requires SortedBy(s, StrLe) && i < j < |s| && s[i] != s[j]
    ensures !StrLe(s[j], s[i])
  {
    if StrLe(s[j], s[i]) {
      StrLeAntisymmetric(s[i], s[j]);
    }
  }
}
