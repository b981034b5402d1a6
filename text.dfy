/** String primitives the storefront relies on: JavaScript's whitespace set and
    `trim`, the lower-case / NFD / diacritic-stripping fold applied before every
    category or colour comparison, substring search, decimal digits, `parseInt`,
    UTF-16 length, and splitting on a separator class. */
module Text {
  import opened Wrappers
  import opened Seqs

  // ---------------------------------------------------------------------------
  // Whitespace and trim
  // ---------------------------------------------------------------------------

  /** JavaScript's WhiteSpace and LineTerminator characters: what
      `String.prototype.trim` removes and what `\s` matches in a regular expression. */
  predicate IsSpace(c: char)
  {
    || c == ' ' || ('\t' <= c <= '\r') || c == '\U{A0}' || c == '\U{1680}'
    || ('\U{2000}' <= c <= '\U{200A}') || c == '\U{2028}' || c == '\U{2029}'
    || c == '\U{202F}' || c == '\U{205F}' || c == '\U{3000}' || c == '\U{FEFF}'
  }

  predicate AllSpace(s: string)
  {
    forall i :: 0 <= i < |s| ==> IsSpace(s[i])
  }

  predicate NoSpace(s: string)
  {
    forall i :: 0 <= i < |s| ==> !IsSpace(s[i])
  }

  /** What `trim` leaves: no whitespace at either end. */
  predicate IsTrimmed(s: string)
  {
    s == [] || (!IsSpace(s[0]) && !IsSpace(s[|s| - 1]))
  }

  function TrimStart(s: string): (r: string)
    ensures |r| <= |s|
  {
    if s != [] && IsSpace(s[0]) then TrimStart(s[1..]) else s
  }

  function TrimEnd(s: string): (r: string)
    ensures |r| <= |s|
  {
    if s != [] && IsSpace(s[|s| - 1]) then TrimEnd(s[..|s| - 1]) else s
  }

  /** `trimStart` drops the leading whitespace and keeps the rest as it is. */
  lemma {:induction false} TrimStartSlice(s: string)
    ensures var r := TrimStart(s);
            && r == s[|s| - |r|..] && AllSpace(s[..|s| - |r|])
            && (r == [] || !IsSpace(r[0]))
  {
    if s != [] && IsSpace(s[0]) {
      TrimStartSlice(s[1..]);
      var r := TrimStart(s);
      assert s[1..][|s| - 1 - |r|..] == s[|s| - |r|..];
      assert s[..|s| - |r|] == [s[0]] + s[1..][..|s| - 1 - |r|];
    } else {
      assert s[..0] == [];
    }
  }

  /** `trimEnd` drops the trailing whitespace and keeps the rest as it is. */
  lemma {:induction false} TrimEndSlice(s: string)
    ensures var r := TrimEnd(s);
            && r == s[..|r|] && AllSpace(s[|r|..])
            && (r == [] || !IsSpace(r[|r| - 1]))
  {
    if s != [] && IsSpace(s[|s| - 1]) {
      var p := s[..|s| - 1];
      TrimEndSlice(p);
      var r := TrimEnd(s);
      assert p[..|r|] == s[..|r|];
      assert s[|r|..] == p[|r|..] + [s[|s| - 1]];
    } else {
      assert s[|s|..] == [];
    }
  }

  /** Number of whitespace characters `trim` removes from the front. */
  function Lead(s: string): nat
  {
    |s| - |TrimStart(s)|
  }

  /** `String.prototype.trim`: the input with the whitespace at both ends removed
      and nothing else changed. */
  function Trim(s: string): (r: string)
    ensures IsTrimmed(r) && |r| <= |s|
  {
    TrimEndsTrimmed(s);
    TrimEnd(TrimStart(s))
  }

  lemma TrimEndsTrimmed(s: string)
    ensures IsTrimmed(TrimEnd(TrimStart(s)))
  {
    var t := TrimStart(s);
    var r := TrimEnd(t);
    TrimStartSlice(s);
    TrimEndSlice(t);
    if r != [] {
      assert r[0] == t[0];
    }
  }

  /** What `trim` returns is the input with whitespace removed at both ends and
      nothing else changed. */
  lemma TrimIsSlice(s: string)
    ensures var r := Trim(s);
            && Lead(s) + |r| <= |s| && r == s[Lead(s)..Lead(s) + |r|]
            && AllSpace(s[..Lead(s)]) && AllSpace(s[Lead(s) + |r|..])
  {
    var t := TrimStart(s);
    var r := TrimEnd(t);
    var k := Lead(s);
    TrimStartSlice(s);
    TrimEndSlice(t);
    assert t == s[k..];
    SliceOfSuffix(s, k, |r|);
  }

  /** `trim` returns the empty string only for blank input. */
  lemma TrimBlank(s: string)
    ensures Trim(s) == [] <==> AllSpace(s)
  {
    var t := TrimStart(s);
    TrimStartSlice(s);
    TrimEndSlice(t);
    if TrimEnd(t) == [] {
      assert t == [];
      assert s[..|s|] == s;
    }
    if AllSpace(s) {
      AllSpaceTrimStart(s);
    }
  }

  lemma {:induction false} AllSpaceTrimStart(s: string)
    requires AllSpace(s)
    ensures TrimStart(s) == []
  {
    if s != [] {
      AllSpaceTrimStart(s[1..]);
    }
  }

  lemma TrimTrimmed(s: string)
    requires IsTrimmed(s)
    ensures Trim(s) == s
  {
  }

  lemma TrimIdempotent(s: string)
    ensures Trim(Trim(s)) == Trim(s)
  {
    TrimTrimmed(Trim(s));
  }

  lemma {:induction false} TrimStartPadded(w: string, t: string)
    requires AllSpace(w)
    ensures TrimStart(w + t) == TrimStart(t)
  {
    if w != [] {
      assert (w + t)[0] == w[0] && (w + t)[1..] == w[1..] + t;
      TrimStartPadded(w[1..], t);
    } else {
      assert w + t == t;
    }
  }

  lemma {:induction false} TrimEndPadded(t: string, w: string)
    requires AllSpace(w)
    ensures TrimEnd(t + w) == TrimEnd(t)
  {
    if w != [] {
      assert (t + w)[|t + w| - 1] == w[|w| - 1];
      assert (t + w)[..|t + w| - 1] == t + w[..|w| - 1];
      TrimEndPadded(t, w[..|w| - 1]);
    } else {
      assert t + w == t;
    }
  }

  lemma {:induction false} TrimStartAppend(t: string, w: string)
    ensures TrimStart(t) != [] ==> TrimStart(t + w) == TrimStart(t) + w
    ensures TrimStart(t) == [] ==> TrimStart(t + w) == TrimStart(w)
  {
    if t != [] {
      assert (t + w)[1..] == t[1..] + w;
      TrimStartAppend(t[1..], w);
    } else {
      assert t + w == w;
    }
  }

  /** Whitespace around a value never changes what `trim` returns. */
  lemma TrimPadding(w1: string, t: string, w2: string)
    requires AllSpace(w1) && AllSpace(w2)
    ensures Trim(w1 + t + w2) == Trim(t)
  {
    assert w1 + t + w2 == w1 + (t + w2);
    TrimStartPadded(w1, t + w2);
    TrimStartAppend(t, w2);
    if TrimStart(t) != [] {
      TrimEndPadded(TrimStart(t), w2);
    } else {
      TrimStartPadded(w2, []);
      assert w2 + [] == w2;
    }
  }

  // ---------------------------------------------------------------------------
  // Case and diacritic folding: toLowerCase().normalize("NFD").replace(/\p{Diacritic}/gu, "")
  // ---------------------------------------------------------------------------

  /** `toLowerCase` on ASCII and on the Latin-1 capitals. */
  function LowerChar(c: char): char
  {
    if 'A' <= c <= 'Z' || ('\U{C0}' <= c <= '\U{DE}' && c != '\U{D7}') then
      (c as int + 32) as char
    else
      c
  }

  /** `toLowerCase` on a whole string, character by character. */
  function Lower(s: string): (r: string)
    ensures |r| == |s|
  {
    seq(|s|, i requires 0 <= i < |s| => LowerChar(s[i]))
  }

  /** Characters with the Unicode Diacritic property in the Latin-1 and
      combining-mark blocks; the fold deletes them. */
  predicate IsDiacritic(c: char)
  {
    || c == '^' || c == '`' || c == '\U{A8}' || c == '\U{AF}' || c == '\U{B4}'
    || ('\U{B7}' <= c <= '\U{B8}') || ('\U{2B0}' <= c <= '\U{34E}')
    || ('\U{350}' <= c <= '\U{357}') || ('\U{35D}' <= c <= '\U{362}')
  }

  /** The base letter that NFD leaves once the combining accent is stripped,
      for the lower-case accented Latin-1 letters. */
  function BaseLetter(c: char): char
  {
    if '\U{E0}' <= c <= '\U{E5}' then 'a'
    else if c == '\U{E7}' then 'c'
    else if '\U{E8}' <= c <= '\U{EB}' then 'e'
    else if '\U{EC}' <= c <= '\U{EF}' then 'i'
    else if c == '\U{F1}' then 'n'
    else if '\U{F2}' <= c <= '\U{F6}' then 'o'
    else if '\U{F9}' <= c <= '\U{FC}' then 'u'
    else if c == '\U{FD}' || c == '\U{FF}' then 'y'
    else c
  }

  function FoldChar(c: char): (r: string)
    ensures |r| <= 1
  {
    var l := LowerChar(c);
    if IsDiacritic(l) then [] else [BaseLetter(l)]
  }

  /** Lower-cases, decomposes and drops diacritics, character by character. */
  function Fold(s: string): (r: string)
    ensures |r| <= |s|
  {
    if s == [] then [] else FoldChar(s[0]) + Fold(s[1..])
  }

  lemma {:induction false} FoldConcat(a: string, b: string)
    ensures Fold(a + b) == Fold(a) + Fold(b)
  {
    if a != [] {
      assert (a + b)[1..] == a[1..] + b;
      FoldConcat(a[1..], b);
    } else {
      assert a + b == b;
    }
  }

  /** Whitespace passes through the fold unchanged. */
  lemma {:induction false} FoldSpace(w: string)
    requires AllSpace(w)
    ensures Fold(w) == w
  {
    if w != [] {
      SpaceFoldsToItself(w[0]);
      FoldSpace(w[1..]);
      assert w == [w[0]] + w[1..];
    }
  }

  lemma SpaceFoldsToItself(c: char)
    requires IsSpace(c)
    ensures FoldChar(c) == [c]
  { }

  /** The fold of a string whose every character folds to exactly one
      character `c[i]` is `c`. */
  lemma {:induction false} FoldCharwise(s: string, c: string)
    requires |s| == |c| && forall i :: 0 <= i < |s| ==> FoldChar(s[i]) == [c[i]]
    ensures Fold(s) == c
  {
    if s != [] {
      FoldCharwise(s[1..], c[1..]);
      assert c == [c[0]] + c[1..];
    }
  }

  /** The normalisation applied before category and colour comparisons:
      fold, then trim. */
  function Normalize(s: string): (r: string)
    ensures IsTrimmed(r) && |r| <= |s|
  {
    Trim(Fold(s))
  }

  /** Whitespace around the raw text does not change its normal form. */
  lemma NormalizePadding(w1: string, s: string, w2: string)
    requires AllSpace(w1) && AllSpace(w2)
    ensures Normalize(w1 + s + w2) == Normalize(s)
  {
    FoldConcat(w1 + s, w2);
    FoldConcat(w1, s);
    FoldSpace(w1);
    FoldSpace(w2);
    TrimPadding(w1, Fold(s), w2);
  }

  /** The normal form of such a string, when `c` has no whitespace at its
      ends, is `c` itself. */
  lemma NormalizeCharwise(s: string, c: string)
    requires |s| == |c| && forall i :: 0 <= i < |s| ==> FoldChar(s[i]) == [c[i]]
    requires IsTrimmed(c)
    ensures Normalize(s) == c
  {
    FoldCharwise(s, c);
    TrimTrimmed(c);
  }

  /** A folded character folds to itself. */
  lemma FoldCharFixed(c: char)
    ensures Fold(FoldChar(c)) == FoldChar(c)
  {
    var r := FoldChar(c);
    if r != [] {
      assert Fold(r) == FoldChar(r[0]) + Fold(r[1..]);
    }
  }

  lemma {:induction false} FoldIdempotent(s: string)
    ensures Fold(Fold(s)) == Fold(s)
  {
    if s != [] {
      FoldConcat(FoldChar(s[0]), Fold(s[1..]));
      FoldCharFixed(s[0]);
      FoldIdempotent(s[1..]);
    }
  }

  /** Every slice of a string the fold leaves alone is left alone too. */
  lemma FoldFixedSlice(t: string, a: nat, b: nat)
    requires a <= b <= |t| && Fold(t) == t
    ensures Fold(t[a..b]) == t[a..b]
  {
    var p, m, q := t[..a], t[a..b], t[b..];
    SplitInThree(t, a, b);
    FoldConcat(p + m, q);
    FoldConcat(p, m);
    SameMiddle(Fold(p), Fold(m), Fold(q), p, m, q);
  }

  /** Normalising twice is normalising once, so comparing normal forms is an
      equivalence on raw names. */
  lemma NormalizeIdempotent(s: string)
    ensures Normalize(Normalize(s)) == Normalize(s)
  {
    var t := Fold(s);
    FoldIdempotent(s);
    TrimFolded(t);
    TrimTrimmed(Trim(t));
  }

  /** Trimming a folded string leaves it folded. */
  lemma TrimFolded(t: string)
    requires Fold(t) == t
    ensures Fold(Trim(t)) == Trim(t)
  {
    var r := Trim(t);
    TrimIsSlice(t);
    var a := Lead(t);
    FoldFixedSlice(t, a, a + |r|);
  }

  // ---------------------------------------------------------------------------
  // Substring search: String.prototype.includes
  // ---------------------------------------------------------------------------

  predicate StartsWith(s: string, p: string)
  {
    |p| <= |s| && s[..|p|] == p
  }

  /** `p` occurs in `s` starting at index `i`. */
  predicate OccursAt(s: string, p: string, i: nat)
  {
    i + |p| <= |s| && s[i..i + |p|] == p
  }

  /** `s.includes(p)`: `p` occurs in `s` at some position. */
  predicate Contains(s: string, p: string)
  {
    exists i: nat | i <= |s| :: OccursAt(s, p, i)
  }

  /** `s` cannot contain `p` when one of the characters of `p` is missing from `s`. */
  lemma NotContainsChar(s: string, p: string, k: nat)
    requires k < |p| && p[k] !in s
    ensures !Contains(s, p)
  {
    forall i: nat | i + |p| <= |s| ensures !OccursAt(s, p, i) {
      assert s[i..i + |p|][k] == s[i + k];
    }
  }

  lemma ContainsInCore(t: string, p: string, l: nat, h: nat)
    requires l <= h <= |t| && AllSpace(t[..l]) && AllSpace(t[h..])
    requires Contains(t, p) && p != [] && !IsSpace(p[0]) && !IsSpace(p[|p| - 1])
    ensures Contains(t[l..h], p)
  {
    var i: nat :| i <= |t| && OccursAt(t, p, i);
    assert i + |p| <= |t| && t[i..i + |p|] == p;
    var e := i + |p| - 1;
    assert t[i..i + |p|][0] == t[i] && t[i..i + |p|][|p| - 1] == t[e];
    forall j | 0 <= j < l ensures t[j] != p[0] {
      assert t[..l][j] == t[j];
    }
    forall j | h <= j < |t| ensures t[j] != p[|p| - 1] {
      assert t[h..][j - h] == t[j];
    }
    assert l <= i && e < h;
    var k := i - l;
    assert t[l..h][k..k + |p|] == t[i..i + |p|];
    assert OccursAt(t[l..h], p, k);
  }

  /** A word with no whitespace at its ends survives `trim`. */
  lemma ContainsSurvivesTrim(t: string, p: string)
    requires Contains(t, p) && p != [] && !IsSpace(p[0]) && !IsSpace(p[|p| - 1])
    ensures Contains(Trim(t), p)
  {
    var r := Trim(t);
    TrimIsSlice(t);
    ContainsInCore(t, p, Lead(t), Lead(t) + |r|);
  }

  /** A word written anywhere in the raw text is found in its normal form. */
  lemma NormalizeContainsInfix(a: string, w: string, b: string)
    requires Fold(w) != [] && !IsSpace(Fold(w)[0]) && !IsSpace(Fold(w)[|Fold(w)| - 1])
    ensures Contains(Normalize(a + w + b), Fold(w))
  {
    FoldConcat(a + w, b);
    FoldConcat(a, w);
    var f := Fold(a) + Fold(w) + Fold(b);
    assert OccursAt(f, Fold(w), |Fold(a)|);
    ContainsSurvivesTrim(f, Fold(w));
  }

  // ---------------------------------------------------------------------------
  // Decimal digits
  // ---------------------------------------------------------------------------

  predicate IsDigit(c: char)
  {
    '0' <= c <= '9'
  }

  predicate AllDigits(s: string)
  {
    forall i :: 0 <= i < |s| ==> IsDigit(s[i])
  }

  function DigitChar(d: nat): (c: char)
    requires d < 10
    ensures IsDigit(c)
  {
    ('0' as int + d) as char
  }

  function DigitValue(c: char): nat
    requires IsDigit(c)
  {
    c as int - '0' as int
  }

  /** Decimal rendering of a natural number, as in a template literal. */
  function NatToString(n: nat): (r: string)
    ensures r != [] && AllDigits(r)
  {
    if n < 10 then [DigitChar(n)] else NatToString(n / 10) + [DigitChar(n % 10)]
  }

  function IntToString(i: int): string
  {
    if i < 0 then "-" + NatToString(-i) else NatToString(i)
  }

  /** Value of a string of decimal digits. */
  function DigitsValue(s: string): nat
    requires AllDigits(s)
  {
    if s == [] then 0 else DigitsValue(s[..|s| - 1]) * 10 + DigitValue(s[|s| - 1])
  }

  lemma {:induction false} DigitsRoundTrip(n: nat)
    ensures DigitsValue(NatToString(n)) == n
  {
    if n >= 10 {
      DigitsRoundTrip(n / 10);
      var s := NatToString(n);
      assert s[..|s| - 1] == NatToString(n / 10);
    }
  }

  lemma NatToStringInjective(m: nat, n: nat)
    requires NatToString(m) == NatToString(n)
    ensures m == n
  {
    DigitsRoundTrip(m);
    DigitsRoundTrip(n);
  }

  /** Length of the longest prefix of `s` made of digits. */
  function DigitPrefixLength(s: string): (k: nat)
    ensures k <= |s| && AllDigits(s[..k])
    ensures k < |s| ==> !IsDigit(s[k])
  {
    if s == [] || !IsDigit(s[0]) then 0
    else
      var k := 1 + DigitPrefixLength(s[1..]);
      assert s[..k] == [s[0]] + s[1..][..k - 1];
      k
  }

  /** `parseInt(s, 10)`: leading whitespace skipped, one optional sign, then
      the longest run of digits; no digit at all gives NaN (here None). */
  function ParseInt(s: string): (r: Option<int>)
  {
    var t := TrimStart(s);
    var negative := t != [] && t[0] == '-';
    var u := if t != [] && (t[0] == '-' || t[0] == '+') then t[1..] else t;
    var k := DigitPrefixLength(u);
    if k == 0 then None
    else
      var v: int := DigitsValue(u[..k]);
      Some(if negative then -v else v)
  }

  /** `parseInt` reads back what `String(n)` wrote, whatever follows it. */
  lemma {:induction false} DigitPrefixOfDigits(d: string, rest: string)
    requires AllDigits(d) && (rest == [] || !IsDigit(rest[0]))
    ensures DigitPrefixLength(d + rest) == |d|
  {
    if d == [] {
      assert d + rest == rest;
    } else {
      assert (d + rest)[0] == d[0] && (d + rest)[1..] == d[1..] + rest;
      DigitPrefixOfDigits(d[1..], rest);
    }
  }

  lemma ParseIntOfNatToString(n: nat, rest: string)
    requires rest == [] || !IsDigit(rest[0])
    ensures ParseInt(NatToString(n) + rest) == Some(n)
  {
    var d := NatToString(n);
    var s := d + rest;
    assert s[0] == d[0];
    assert TrimStart(s) == s;
    DigitPrefixOfDigits(d, rest);
    assert s[..|d|] == d;
    DigitsRoundTrip(n);
  }

  // ---------------------------------------------------------------------------
  // Lengths, joining and splitting
  // ---------------------------------------------------------------------------

  /** JavaScript's `length`: UTF-16 code units, two for characters outside the BMP. */
  function Utf16Length(s: string): (n: nat)
    ensures |s| <= n <= 2 * |s|
  {
    if s == [] then 0 else (if s[0] as int > 0xFFFF then 2 else 1) + Utf16Length(s[1..])
  }

  /** `Array.prototype.join(sep)`. */
  function Join(xs: seq<string>, sep: string): string
  {
    if xs == [] then "" else if |xs| == 1 then xs[0] else xs[0] + sep + Join(xs[1..], sep)
  }

  predicate FreeOf(s: string, isSep: char -> bool)
  {
    forall i :: 0 <= i < |s| ==> !isSep(s[i])
  }

  /** Maximal runs of non-separator characters, left to right, with `cur` the
      run collected so far. */
  function TokensFrom(s: string, isSep: char -> bool, cur: string): seq<string>
    decreases |s|
  {
    if s == [] then (if cur == [] then [] else [cur])
    else if isSep(s[0]) then (if cur == [] then [] else [cur]) + TokensFrom(s[1..], isSep, [])
    else TokensFrom(s[1..], isSep, cur + [s[0]])
  }

  /** `s.split(/[seps]+/).filter(Boolean)`: the non-empty pieces between separators. */
  function Tokens(s: string, isSep: char -> bool): (r: seq<string>)
    ensures forall i :: 0 <= i < |r| ==> r[i] != [] && FreeOf(r[i], isSep)
  {
    TokensFromShape(s, isSep, []);
    TokensFrom(s, isSep, [])
  }

  lemma {:induction false} TokensFromShape(s: string, isSep: char -> bool, cur: string)
    requires FreeOf(cur, isSep)
    ensures forall i :: 0 <= i < |TokensFrom(s, isSep, cur)| ==>
              TokensFrom(s, isSep, cur)[i] != [] && FreeOf(TokensFrom(s, isSep, cur)[i], isSep)
    decreases |s|
  {
    if s != [] {
      if isSep(s[0]) {
        TokensFromShape(s[1..], isSep, []);
        var head: seq<string> := if cur == [] then [] else [cur];
        var tail := TokensFrom(s[1..], isSep, []);
        assert TokensFrom(s, isSep, cur) == head + tail;
        forall i | 0 <= i < |head + tail|
          ensures (head + tail)[i] != [] && FreeOf((head + tail)[i], isSep)
        {
          if i >= |head| { assert (head + tail)[i] == tail[i - |head|]; }
          else { assert (head + tail)[i] == cur; }
        }
      } else {
        assert FreeOf(cur + [s[0]], isSep) by {
          forall i | 0 <= i < |cur + [s[0]]| ensures !isSep((cur + [s[0]])[i]) {
            if i < |cur| { assert (cur + [s[0]])[i] == cur[i]; }
          }
        }
        TokensFromShape(s[1..], isSep, cur + [s[0]]);
      }
    }
  }

  lemma {:induction false} TokensFromWord(x: string, rest: string, isSep: char -> bool, cur: string)
    requires FreeOf(x, isSep)
    ensures TokensFrom(x + rest, isSep, cur) == TokensFrom(rest, isSep, cur + x)
    decreases |x|
  {
    if x == [] {
      assert x + rest == rest && cur + x == cur;
    } else {
      assert (x + rest)[0] == x[0] && (x + rest)[1..] == x[1..] + rest;
      TokensFromWord(x[1..], rest, isSep, cur + [x[0]]);
      assert cur + [x[0]] + x[1..] == cur + x;
    }
  }

  lemma {:induction false} TokensFromSeparators(w: string, rest: string, isSep: char -> bool)
    requires forall i :: 0 <= i < |w| ==> isSep(w[i])
    ensures TokensFrom(w + rest, isSep, []) == TokensFrom(rest, isSep, [])
    decreases |w|
  {
    if w == [] {
      assert w + rest == rest;
    } else {
      assert (w + rest)[0] == w[0] && (w + rest)[1..] == w[1..] + rest;
      TokensFromSeparators(w[1..], rest, isSep);
    }
  }

  /** Splitting undoes joining when the joiner is made of separators and the
      pieces are non-empty and separator-free. */
  lemma {:induction false} TokensJoin(xs: seq<string>, sep: string, isSep: char -> bool)
    requires sep != [] && forall i :: 0 <= i < |sep| ==> isSep(sep[i])
    requires forall k :: 0 <= k < |xs| ==> xs[k] != [] && FreeOf(xs[k], isSep)
    ensures Tokens(Join(xs, sep), isSep) == xs
  {
    if xs == [] {
    } else if |xs| == 1 {
      TokensFromWord(xs[0], [], isSep, []);
      assert xs[0] + [] == xs[0] && [] + xs[0] == xs[0];
    } else {
      var rest := Join(xs[1..], sep);
      assert Join(xs, sep) == xs[0] + (sep + rest);
      TokensFromWord(xs[0], sep + rest, isSep, []);
      assert [] + xs[0] == xs[0];
      assert (sep + rest)[0] == sep[0] && (sep + rest)[1..] == sep[1..] + rest;
      TokensFromSeparators(sep[1..], rest, isSep);
      TokensJoin(xs[1..], sep, isSep);
      assert xs == [xs[0]] + xs[1..];
    }
  }
}
