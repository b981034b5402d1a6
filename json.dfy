/** The JavaScript values the storefront reads from `JSON.parse` (request bodies,
    the cart in local storage, the data files), with the coercions it applies to
    them: truthiness, property lookup, `Number(…)` and `String(…)`. */
module Json {
  import opened Wrappers
  import Text

  /** A parsed JSON value. An object lists its own properties in enumeration
      order, one entry per key (for a repeated key `JSON.parse` keeps the first
      position and the last value). */
  datatype Value =
    | Null
    | Bool(b: bool)
    | Num(n: real)
    | Str(s: string)
    | Arr(items: seq<Value>)
    | Obj(entries: seq<(string, Value)>)

  /** The properties every plain object inherits from `Object.prototype`
      (section 20.1.3 of ECMA-262, with `__proto__` and the legacy accessor
      methods of its Annex B): reading one of these names from an object
      without an own property of that name gives a function, or
      `Object.prototype` itself for `__proto__`, never undefined. */
  const ObjectPrototypeNames: set<string> := {
    "constructor", "hasOwnProperty", "isPrototypeOf", "propertyIsEnumerable",
    "toLocaleString", "toString", "valueOf", "__proto__",
    "__defineGetter__", "__defineSetter__", "__lookupGetter__", "__lookupSetter__"
  }

  /** An array index (section 6.1.7 of ECMA-262): the canonical decimal form
      of an integer below 2^32 - 1. */
  predicate IsArrayIndex(k: string)
  {
    k != [] && Text.AllDigits(k) && Text.NatToString(Text.DigitsValue(k)) == k
    && Text.DigitsValue(k) < 0xFFFF_FFFF
  }

  function IndexValue(k: string): nat
    requires IsArrayIndex(k)
  {
    Text.DigitsValue(k)
  }

  /** The order in which an ordinary object lists its own keys (section
      10.1.11.1 of ECMA-262, OrdinaryOwnPropertyKeys): array indices first, in
      ascending numeric order, then the other keys (in creation order). */
  predicate EnumerationOrdered(keys: seq<string>)
  {
    forall i, j :: 0 <= i < j < |keys| && IsArrayIndex(keys[j]) ==>
      IsArrayIndex(keys[i]) && IndexValue(keys[i]) < IndexValue(keys[j])
  }

  /** A key that is not an array index: such keys enumerate in creation order. */
  predicate IsStringKey(k: string)
  {
    !IsArrayIndex(k)
  }

  /** Two array indices with the same value are the same key. */
  lemma IndexValueInjective(a: string, b: string)
    requires IsArrayIndex(a) && IsArrayIndex(b) && IndexValue(a) == IndexValue(b)
    ensures a == b
  {
  }

  /** A new array index inserted after the indices not above it, and before
      the first key that is a larger index or no index, keeps the order. */
  lemma InsertIndexOrdered(ks: seq<string>, p: nat, k: string)
    requires p <= |ks| && IsArrayIndex(k) && k !in ks && EnumerationOrdered(ks)
    requires forall i :: 0 <= i < p ==> IsArrayIndex(ks[i]) && IndexValue(ks[i]) <= IndexValue(k)
    requires p < |ks| ==> !IsArrayIndex(ks[p]) || IndexValue(k) < IndexValue(ks[p])
    ensures EnumerationOrdered(ks[..p] + [k] + ks[p..])
  {
    var r := ks[..p] + [k] + ks[p..];
    forall i, j | 0 <= i < j < |r| && IsArrayIndex(r[j])
      ensures IsArrayIndex(r[i]) && IndexValue(r[i]) < IndexValue(r[j])
    {
      InsertIndexPair(ks, p, k, i, j);
    }
  }

  lemma InsertIndexPair(ks: seq<string>, p: nat, k: string, i: nat, j: nat)
    requires p <= |ks| && IsArrayIndex(k) && k !in ks && EnumerationOrdered(ks)
    requires forall i :: 0 <= i < p ==> IsArrayIndex(ks[i]) && IndexValue(ks[i]) <= IndexValue(k)
    requires p < |ks| ==> !IsArrayIndex(ks[p]) || IndexValue(k) < IndexValue(ks[p])
    requires i < j < |ks| + 1 && IsArrayIndex((ks[..p] + [k] + ks[p..])[j])
    ensures var r := ks[..p] + [k] + ks[p..];
            IsArrayIndex(r[i]) && IndexValue(r[i]) < IndexValue(r[j])
  {
    var r := ks[..p] + [k] + ks[p..];
    if j < p {
      assert r[i] == ks[i] && r[j] == ks[j];
    } else if j == p {
      assert r[i] == ks[i] && r[j] == k && ks[i] != k;
    } else if i < p {
      assert r[i] == ks[i] && r[j] == ks[j - 1];
    } else if i == p {
      assert r[i] == k && r[j] == ks[j - 1];
      assert IsArrayIndex(ks[p]);
    } else {
      assert r[i] == ks[i - 1] && r[j] == ks[j - 1];
    }
  }

  /** A key that is no array index can go last. */
  lemma AppendStringKeyOrdered(ks: seq<string>, k: string)
    requires EnumerationOrdered(ks) && !IsArrayIndex(k)
    ensures EnumerationOrdered(ks + [k])
  {
  }

  /** A JavaScript number after coercion, where NaN and the infinities exist. */
  datatype Number = Finite(r: real) | NaN | PosInf | NegInf

  /** JavaScript truthiness; a parsed value is never NaN or undefined. */
  predicate Truthy(v: Value)
  {
    match v
    case Null => false
    case Bool(b) => b
    case Num(n) => n != 0.0
    case Str(s) => s != ""
    case Arr(_) => true
    case Obj(_) => true
  }

  /** `v[key]`: the value of the entry with that key, or undefined (None)
      when there is none or `v` is not an object. */
  function Get(v: Value, key: string): Option<Value>
  {
    if !v.Obj? then None else Lookup(v.entries, key)
  }

  function Lookup(entries: seq<(string, Value)>, key: string): Option<Value>
  {
    if entries == [] then None
    else if entries[0].0 == key then Some(entries[0].1)
    else Lookup(entries[1..], key)
  }

  /** The lookup finds the first entry with the key. */
  lemma {:induction false} LookupAt(entries: seq<(string, Value)>, k: nat, key: string)
    requires k < |entries| && entries[k].0 == key
    requires forall j :: 0 <= j < k ==> entries[j].0 != key
    ensures Lookup(entries, key) == Some(entries[k].1)
  {
    if k > 0 {
      LookupAt(entries[1..], k - 1, key);
    }
  }

  /** Without an entry for the key the lookup finds nothing. */
  lemma {:induction false} LookupMissing(entries: seq<(string, Value)>, key: string)
    requires forall j :: 0 <= j < |entries| ==> entries[j].0 != key
    ensures Lookup(entries, key) == None
  {
    if entries != [] {
      LookupMissing(entries[1..], key);
    }
  }

  // ---------------------------------------------------------------------------
  // Number(…)
  // ---------------------------------------------------------------------------

  function Pow10(k: nat): (p: nat)
    ensures p >= 1
  {
    if k == 0 then 1 else 10 * Pow10(k - 1)
  }

  /** `Number(s)` on a string, the StringToNumber of section 7.1.4.1.1 of
      ECMA-262: surrounding white space is ignored and blank is 0; a `0x`,
      `0o` or `0b` prefix (either case) takes an unsigned integer in base 16,
      8 or 2; otherwise an optional sign precedes `Infinity` or a decimal
      literal with an optional fraction and an optional exponent; anything
      else is NaN. Rounding to a double is not modelled. */
  function StringToNumber(s: string): (r: Number)
    ensures Text.Trim(s) == [] ==> r == Finite(0.0)
  {
    var t := Text.Trim(s);
    if t == [] then Finite(0.0)
    else if |t| >= 2 && t[0] == '0' && RadixOf(t[1]) != 0 then
      var digits := t[2..];
      if digits != [] && AllRadixDigits(digits, RadixOf(t[1]))
      then Finite(RadixDigitsValue(digits, RadixOf(t[1])) as real)
      else NaN
    else
      var negative := t[0] == '-';
      var u := if t[0] == '-' || t[0] == '+' then t[1..] else t;
      if u == "Infinity" then (if negative then NegInf else PosInf)
      else
        match UnsignedDecimal(u)
        case None => NaN
        case Some(v) => Finite(if negative then -v else v)
  }

  /** The base a non-decimal prefix letter selects, 0 for any other letter. */
  function RadixOf(c: char): (radix: nat)
    ensures radix in {0, 2, 8, 16}
  {
    if c == 'x' || c == 'X' then 16
    else if c == 'o' || c == 'O' then 8
    else if c == 'b' || c == 'B' then 2
    else 0
  }

  /** The value of a hexadecimal digit of either case, 16 for anything else. */
  function RadixDigit(c: char): (d: nat)
    ensures d <= 16
    ensures Text.IsDigit(c) ==> d == Text.DigitValue(c)
  {
    if Text.IsDigit(c) then Text.DigitValue(c)
    else if 'a' <= c <= 'f' then c as int - 'a' as int + 10
    else if 'A' <= c <= 'F' then c as int - 'A' as int + 10
    else 16
  }

  predicate AllRadixDigits(s: string, radix: nat)
  {
    forall i :: 0 <= i < |s| ==> RadixDigit(s[i]) < radix
  }

  /** Value of a string of digits in the given base, most significant first. */
  function RadixDigitsValue(s: string, radix: nat): nat
    requires AllRadixDigits(s, radix)
  {
    if s == [] then 0
    else RadixDigitsValue(s[..|s| - 1], radix) * radix + RadixDigit(s[|s| - 1])
  }

  /** An unsigned decimal literal: digits, then an optional `.` and digits,
      with a digit on at least one side of the point, then an optional
      exponent. */
  function UnsignedDecimal(u: string): (r: Option<real>)
    ensures r.Some? ==> r.value >= 0.0
  {
    var k := Text.DigitPrefixLength(u);
    var rest := u[k..];
    if rest != [] && rest[0] == '.' then Fraction(u[..k], rest[1..])
    else if k == 0 then None
    else Scaled(Text.DigitsValue(u[..k]) as real, rest)
  }

  /** The digits after the point, read after the whole part `whole`. */
  function Fraction(whole: string, frac: string): (r: Option<real>)
    requires Text.AllDigits(whole)
    ensures r.Some? ==> r.value >= 0.0
  {
    var m := Text.DigitPrefixLength(frac);
    if whole == [] && m == 0 then None
    else
      var fraction := (Text.DigitsValue(frac[..m]) as real) / (Pow10(m) as real);
      Scaled(Text.DigitsValue(whole) as real + fraction, frac[m..])
  }

  /** The mantissa scaled by the exponent part that follows it. */
  function Scaled(mantissa: real, after: string): (r: Option<real>)
    ensures mantissa >= 0.0 && r.Some? ==> r.value >= 0.0
  {
    match Exponent(after)
    case None => None
    case Some(e) => Some(Scale(mantissa, e))
  }

  /** The exponent part: nothing at all, or `e`/`E`, an optional sign and at
      least one digit. */
  function Exponent(after: string): Option<int>
  {
    if after == [] then Some(0)
    else if after[0] == 'e' || after[0] == 'E' then SignedDigits(after[1..])
    else None
  }

  function SignedDigits(x: string): Option<int>
  {
    var negative := x != [] && x[0] == '-';
    var digits := if x != [] && (x[0] == '-' || x[0] == '+') then x[1..] else x;
    if digits == [] || !Text.AllDigits(digits) then None
    else
      var v: int := Text.DigitsValue(digits);
      Some(if negative then -v else v)
  }

  /** `v` times ten to the power `e`. */
  function Scale(v: real, e: int): (r: real)
    ensures v >= 0.0 ==> r >= 0.0
  {
    if e >= 0 then v * (Pow10(e) as real) else v / (Pow10(-e) as real)
  }

  /** `Number(String(n))` gives `n` back for every natural number. */
  lemma {:induction false} NumberOfNatToString(n: nat)
    ensures StringToNumber(Text.NatToString(n)) == Finite(n as real)
  {
    var d := Text.NatToString(n);
    DecimalOfDigits(d, []);
    assert d + [] == d;
    Text.DigitsRoundTrip(n);
  }

  /** `Number` reads an exponent: `m` written with `e` and `x` is `m * 10^x`. */
  lemma {:induction false} NumberOfExponent(m: nat, x: nat)
    ensures StringToNumber(Text.NatToString(m) + "e" + Text.NatToString(x))
            == Finite((m * Pow10(x)) as real)
  {
    var d, rest := Text.NatToString(m), "e" + Text.NatToString(x);
    assert d + "e" + Text.NatToString(x) == d + rest;
    ExponentOfDigits(x, rest);
    DecimalOfDigits(d, rest);
    Text.DigitsRoundTrip(m);
    assert Scaled(m as real, rest) == Some(Scale(m as real, x));
    ScaleNat(m, x);
  }

  lemma ScaleNat(m: nat, x: nat)
    ensures Scale(m as real, x) == (m * Pow10(x)) as real
  {
  }

  lemma {:induction false} ExponentOfDigits(x: nat, rest: string)
    requires rest == "e" + Text.NatToString(x)
    ensures Exponent(rest) == Some(x as int)
    ensures rest[0] == 'e' && !Text.IsSpace(rest[|rest| - 1])
  {
    var ds := Text.NatToString(x);
    assert rest[1..] == ds && rest[|rest| - 1] == ds[|ds| - 1];
    Text.DigitsRoundTrip(x);
  }

  /** A trimmed string of digits followed by something that is no digit and
      no point is read as a decimal literal whose exponent part is the rest. */
  lemma {:induction false} DecimalOfDigits(d: string, rest: string)
    requires d != [] && Text.AllDigits(d)
    requires rest == [] || (!Text.IsDigit(rest[0]) && rest[0] != '.' && RadixOf(rest[0]) == 0)
    requires rest == [] || !Text.IsSpace(rest[|rest| - 1])
    ensures StringToNumber(d + rest)
            == match Scaled(Text.DigitsValue(d) as real, rest)
               case None => NaN
               case Some(v) => Finite(v)
  {
    var t := d + rest;
    assert t[0] == d[0] && t[|t| - 1] == (if rest == [] then d[|d| - 1] else rest[|rest| - 1]);
    Text.TrimTrimmed(t);
    assert |t| >= 2 ==> RadixOf(t[1]) == 0 by {
      if |t| >= 2 {
        assert t[1] == (if |d| >= 2 then d[1] else rest[0]);
      }
    }
    assert t != "Infinity";
    Text.DigitPrefixOfDigits(d, rest);
    assert t[..|d|] == d && t[|d|..] == rest;
  }

  /** `Number("1e1")` is 10: the exponent is read. */
  lemma {:induction false} NumberOfOneEOne(s: string)
    requires s == "1e1"
    ensures StringToNumber(s) == Finite(10.0)
  {
    assert Text.NatToString(1) == "1";
    assert s == Text.NatToString(1) + "e" + Text.NatToString(1);
    NumberOfExponent(1, 1);
    assert Pow10(1) == 10;
  }

  /** `Number("0x10")` is 16: the hexadecimal prefix is read. */
  lemma {:induction false} NumberOfHex(s: string)
    requires s == "0x10"
    ensures StringToNumber(s) == Finite(16.0)
  {
    Text.TrimTrimmed(s);
    assert s[2..] == "10";
    assert RadixDigitsValue("10", 16) == 16 by {
      assert "10"[..1] == "1";
    }
  }

  /** `Number("-0x10")` is NaN: a non-decimal integer takes no sign. */
  lemma {:induction false} NumberOfSignedHex(s: string)
    requires s == "-0x10"
    ensures StringToNumber(s) == NaN
  {
    Text.TrimTrimmed(s);
    var u := s[1..];
    assert u == "0x10";
    assert Text.DigitPrefixLength(u) == 1 by {
      assert u[1..] == "x10";
    }
    assert u[1..] == "x10";
  }

  // ---------------------------------------------------------------------------
  // String(…) and Number(…)
  // ---------------------------------------------------------------------------

  /** Whether `String(v)` and `Number(v)` throw a TypeError (OrdinaryToPrimitive,
      section 7.1.1.1 of ECMA-262). A parsed object with an own "toString"
      holds a JSON value there, which is not callable, and the inherited
      `valueOf` returns the object itself, so no primitive comes out; without
      one, the inherited `toString` answers "[object Object]". An array
      converts through `join`, so it throws exactly when one of its elements
      does. */
  predicate CoercionThrows(v: Value)
  {
    match v
    case Obj(entries) => Lookup(entries, "toString").Some?
    case Arr(items) => exists i :: 0 <= i < |items| && CoercionThrows(items[i])
    case _ => false
  }

  /** `Number(v)` on a parsed value, `None` when it throws: an array goes
      through its string form, a plain object's string form is never numeric. */
  function ToNumber(v: Value, showNumber: real -> string): (r: Option<Number>)
    ensures r.None? <==> CoercionThrows(v)
    ensures v.Num? ==> r == Some(Finite(v.n))
    ensures v.Str? ==> r == Some(StringToNumber(v.s))
  {
    match v
    case Null => Some(Finite(0.0))
    case Bool(b) => Some(Finite(if b then 1.0 else 0.0))
    case Num(n) => Some(Finite(n))
    case Str(s) => Some(StringToNumber(s))
    case Arr(items) =>
      (match JoinItems(items, showNumber)
       case None => None
       case Some(text) => Some(StringToNumber(text)))
    case Obj(entries) => if Lookup(entries, "toString").Some? then None else Some(NaN)
  }

  /** `String(v)`, `None` when it throws; `showNumber` is JavaScript's
      number-to-string conversion. */
  function ToStr(v: Value, showNumber: real -> string): (r: Option<string>)
    ensures r.None? <==> CoercionThrows(v)
    ensures v.Str? ==> r == Some(v.s)
    decreases v, 1
  {
    match v
    case Null => Some("null")
    case Bool(b) => Some(if b then "true" else "false")
    case Num(n) => Some(showNumber(n))
    case Str(s) => Some(s)
    case Arr(items) => JoinItems(items, showNumber)
    case Obj(entries) => if Lookup(entries, "toString").Some? then None else Some("[object Object]")
  }

  /** `items.join(",")`, where null elements print as the empty string;
      `None` when converting an element throws. */
  function JoinItems(items: seq<Value>, showNumber: real -> string): (r: Option<string>)
    ensures r.None? <==> exists i :: 0 <= i < |items| && CoercionThrows(items[i])
    decreases items, 0
  {
    if items == [] then Some("")
    else
      var first := if items[0].Null? then Some("") else ToStr(items[0], showNumber);
      var rest := if |items| == 1 then Some("") else JoinItems(items[1..], showNumber);
      assert forall i :: 1 <= i < |items| ==> items[i] == items[1..][i - 1];
      if first.None? || rest.None? then None
      else if |items| == 1 then first
      else Some(first.value + "," + rest.value)
  }

  /** A parsed object with its own "toString" key cannot be converted. */
  lemma OwnToStringThrows(v: Value, showNumber: real -> string)
    requires v == Obj([("toString", Num(1.0))])
    ensures ToStr(v, showNumber).None? && ToNumber(v, showNumber).None?
    ensures ToStr(Arr([Str("a"), v]), showNumber).None?
  {
    assert CoercionThrows(Arr([Str("a"), v])) by {
      assert [Str("a"), v][1] == v;
    }
  }

  /** Any other object converts to "[object Object]" and NaN. */
  lemma PlainObjectString(v: Value, showNumber: real -> string)
    requires v == Obj([("valueOf", Num(1.0))])
    ensures ToStr(v, showNumber) == Some("[object Object]")
    ensures ToNumber(v, showNumber) == Some(NaN)
  {
  }
}
