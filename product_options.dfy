/** Product options: the colour list typed by the administrator, the swatch
    shown for each colour name, the de-duplicated image URLs of a product and
    the colour → images map attached to it. */
module ProductOptions {
  import opened Wrappers
  import opened Text
  import opened Seqs
  import opened Json

  // ---------------------------------------------------------------------------
  // Colour lists
  // ---------------------------------------------------------------------------

  /** The separators of a colour list: `,` `;` `/` `|`. */
  predicate IsColorSeparator(c: char)
  {
    c == ',' || c == ';' || c == '/' || c == '|'
  }

  /** `items.map(item => item.trim())`. */
  function TrimAll(xs: seq<string>): (r: seq<string>)
    ensures |r| == |xs| && forall i :: 0 <= i < |xs| ==> r[i] == Trim(xs[i])
  {
    seq(|xs|, i requires 0 <= i < |xs| => Trim(xs[i]))
  }

  /** `.filter(Boolean)` on strings: the empty string is falsy. */
  predicate NonEmpty(s: string)
  {
    s != []
  }

  /** A colour name as the list parser returns it. */
  predicate IsColorName(x: string)
  {
    x != [] && IsTrimmed(x) && FreeOf(x, IsColorSeparator)
  }

  /** The pieces of `raw` between separator runs, trimmed, with the blank ones dropped. */
  function ColorPieces(raw: string): (r: seq<string>)
    ensures forall i :: 0 <= i < |r| ==> IsColorName(r[i])
  {
    var tokens := Tokens(raw, IsColorSeparator);
    var pieces := TrimAll(tokens);
    forall i | 0 <= i < |pieces| ensures IsColorName(pieces[i]) || pieces[i] == [] {
      TrimFreeOf(tokens[i], IsColorSeparator);
    }
    FilterKeeps(NonEmpty, pieces, (x: string) => IsColorName(x) || x == []);
    var r := Filter(NonEmpty, pieces);
    assert forall i :: 0 <= i < |r| ==> NonEmpty(r[i]) by {
      FilterKeeps(NonEmpty, pieces, (x: string) => NonEmpty(x) || !NonEmpty(x));
      forall i | 0 <= i < |r| ensures NonEmpty(r[i]) { assert r[i] in r; }
    }
    r
  }

  lemma TrimFreeOf(s: string, isSep: char -> bool)
    requires FreeOf(s, isSep)
    ensures FreeOf(Trim(s), isSep)
  {
    var t := Trim(s);
    TrimIsSlice(s);
    forall i | 0 <= i < |t| ensures !isSep(t[i]) {
      assert t[i] == s[Lead(s) + i];
    }
  }

  /** `parseColorList`: the distinct colour names of a list typed by the
      administrator, in the order they first appear; nothing for a missing or
      empty list. */
  function ParseColorList(raw: Option<string>): (r: seq<string>)
    ensures raw == None || raw == Some("") ==> r == []
    ensures Distinct(r)
    ensures forall i :: 0 <= i < |r| ==> IsColorName(r[i])
  {
    if raw.None? || raw.value == [] then []
    else
      DedupeKeeps(ColorPieces(raw.value), IsColorName);
      Dedupe(ColorPieces(raw.value))
  }

  /** The colours come out in the order of their first occurrence among the pieces. */
  lemma ParseColorListOrder(raw: string)
    requires raw != []
    ensures var r := ParseColorList(Some(raw));
            forall i, j :: 0 <= i < j < |r| ==>
              FirstIndex(ColorPieces(raw), r[i]) < FirstIndex(ColorPieces(raw), r[j])
  {
    assert ParseColorList(Some(raw)) == Dedupe(ColorPieces(raw));
    DedupeOrder(ColorPieces(raw));
  }

  /** Every trimmed, non-blank piece of the list is among the colours. */
  lemma ParseColorListComplete(raw: string, i: nat)
    requires i < |Tokens(raw, IsColorSeparator)| && Trim(Tokens(raw, IsColorSeparator)[i]) != []
    ensures Trim(Tokens(raw, IsColorSeparator)[i]) in ParseColorList(Some(raw))
  {
    var pieces := TrimAll(Tokens(raw, IsColorSeparator));
    assert NonEmpty(pieces[i]);
    assert pieces[i] in ColorPieces(raw);
  }

  /** Joining distinct colour names with "," and parsing the result gives them back. */
  lemma {:induction false} ParseColorListJoin(xs: seq<string>)
    requires Distinct(xs)
    requires forall k :: 0 <= k < |xs| ==> IsColorName(xs[k])
    ensures ParseColorList(Some(Join(xs, ","))) == xs
  {
    if xs != [] {
      var raw := Join(xs, ",");
      JoinNonEmpty(xs, ",");
      assert ParseColorList(Some(raw)) == Dedupe(ColorPieces(raw));
      TokensJoin(xs, ",", IsColorSeparator);
      assert ColorPieces(raw) == Filter(NonEmpty, TrimAll(xs));
      forall k | 0 <= k < |xs| ensures Trim(xs[k]) == xs[k] {
        TrimTrimmed(xs[k]);
      }
      assert TrimAll(xs) == xs;
      FilterAll(NonEmpty, xs);
      DedupeDistinct(xs);
    }
  }

  lemma {:induction false} JoinNonEmpty(xs: seq<string>, sep: string)
    requires xs != [] && xs[0] != []
    ensures Join(xs, sep) != []
  {
  }

  // ---------------------------------------------------------------------------
  // Swatches
  // ---------------------------------------------------------------------------

  /** The swatch of the known colour names, by their normal form, written
      as four groups so that facts about each group stay small. */
  const ColorMap: map<string, string> := NeutralColors + RedBlueColors + GreenYellowColors + WarmColors

  const NeutralColors: map<string, string> := map[
    "noir" := "#18181b", "blanc" := "#f8fafc", "gris" := "#6b7280",
    "argent" := "#cbd5e1", "anthracite" := "#374151"
  ]

  const RedBlueColors: map<string, string> := map[
    "rouge" := "#dc2626", "bordeau" := "#7f1d1d", "bordeaux" := "#7f1d1d",
    "bleu" := "#2563eb", "bleu marine" := "#1e3a8a", "marine" := "#1e3a8a",
    "bleu ciel" := "#0ea5e9"
  ]

  const GreenYellowColors: map<string, string> := map[
    "vert" := "#16a34a", "kaki" := "#4d7c0f", "olive" := "#4d7c0f",
    "jaune" := "#facc15", "orange" := "#f97316", "rose" := "#ec4899",
    "violet" := "#7c3aed"
  ]

  const WarmColors: map<string, string> := map[
    "beige" := "#d6b98b", "creme" := "#f5f5dc", "cremee" := "#f5f5dc",
    "marron" := "#7c2d12", "camel" := "#c07a42", "or" := "#f59e0b",
    "dore" := "#f59e0b", "cuivre" := "#b45309", "transparent" := "#ffffff"
  ]

  /** The swatch of a blank colour. */
  const BlankSwatch: string := "#d1d5db"

  predicate IsHexDigit(c: char)
  {
    '0' <= c <= '9' || 'a' <= c <= 'f' || 'A' <= c <= 'F'
  }

  /** `/^#([a-f0-9]{3}|[a-f0-9]{6})$/i`. */
  predicate IsHexColor(v: string)
  {
    (|v| == 4 || |v| == 7) && v[0] == '#' && forall i :: 1 <= i < |v| ==> IsHexDigit(v[i])
  }

  /** `c` is the lower-case ASCII letter `l` or its capital (the `i` flag). */
  predicate SameLetter(c: char, l: char)
    requires 'a' <= l <= 'z'
  {
    c == l || c as int == l as int - 32
  }

  /** `/^(rgb|hsl)a?\(/i`: the start of a CSS colour function. */
  predicate IsColorFunction(v: string)
  {
    && |v| >= 4
    && ((SameLetter(v[0], 'r') && SameLetter(v[1], 'g') && SameLetter(v[2], 'b'))
        || (SameLetter(v[0], 'h') && SameLetter(v[1], 's') && SameLetter(v[2], 'l')))
    && (v[3] == '(' || (|v| >= 5 && SameLetter(v[3], 'a') && v[4] == '('))
  }

  /** What a swatch always is: a hex colour or a CSS colour function. */
  predicate IsCssColor(v: string)
  {
    IsHexColor(v) || IsColorFunction(v)
  }

  /** JavaScript's ToInt32: the integer modulo 2^32, read as a signed 32-bit value. */
  function ToInt32(x: int): (r: int)
    ensures -0x8000_0000 <= r < 0x8000_0000
    ensures (x - r) % 0x1_0000_0000 == 0
  {
    var m := x % 0x1_0000_0000;
    if m >= 0x8000_0000 then m - 0x1_0000_0000 else m
  }

  /** The UTF-16 code units of a string: `charCodeAt(0)`, `charCodeAt(1)`, … */
  function Utf16Units(s: string): (r: seq<int>)
    ensures |r| == Utf16Length(s)
    ensures forall i :: 0 <= i < |r| ==> 0 <= r[i] < 0x1_0000
  {
    if s == [] then []
    else
      var c := s[0] as int;
      (if c < 0x1_0000 then [c] else [0xD800 + (c - 0x1_0000) / 0x400, 0xDC00 + (c - 0x1_0000) % 0x400])
      + Utf16Units(s[1..])
  }

  /** One step of the hash: `unit + ((hash << 5) - hash)`, where `<<` works on
      the 32-bit truncation of `hash` and wraps around. */
  function HashStep(hash: int, unit: int): int
  {
    unit + (ToInt32(ToInt32(hash) * 32) - hash)
  }

  /** The hash after folding the steps over `units` from the left. */
  function HashOf(units: seq<int>): int
  {
    if units == [] then 0 else HashStep(HashOf(units[..|units| - 1]), units[|units| - 1])
  }

  /** `Math.abs(hash) % 360`. */
  function Hue(value: string): (h: nat)
    ensures h < 360
  {
    var hash := HashOf(Utf16Units(value));
    (if hash < 0 then -hash else hash) % 360
  }

  function Hsl(hue: nat): (r: string)
    ensures IsColorFunction(r)
  {
    "hsl(" + NatToString(hue) + " 65% 50%)"
  }

  /** The swatch `colorFromHash` derives from an unknown colour name. */
  function HashColor(value: string): (r: string)
    ensures exists h :: 0 <= h < 360 && r == Hsl(h)
  {
    Hsl(Hue(value))
  }

  /** `colorFromHash`, with its loop over the code units. */
  method ColorFromHash(value: string) returns (r: string)
    ensures r == HashColor(value)
  {
    var units := Utf16Units(value);
    var hash := 0;
    var i := 0;
    while i < |units|
      invariant 0 <= i <= |units|
      invariant hash == HashOf(units[..i])
    {
      assert units[..i + 1][..i] == units[..i];
      hash := units[i] + ((ToInt32(ToInt32(hash) * 32)) - hash);
      i := i + 1;
    }
    assert units[..i] == units;
    var hue := (if hash < 0 then -hash else hash) % 360;
    r := "hsl(" + NatToString(hue) + " 65% 50%)";
  }

  /** What `colorToSwatch` returns. `COLOR_MAP` is a plain object, so a
      normalised name that `Object.prototype` defines finds the inherited
      member (`Object` for "constructor", `Object.prototype` for "__proto__"),
      which is truthy and comes back as it is: not a string. */
  datatype Swatch = Css(value: string) | Inherited(name: string)

  /** `colorToSwatch`: the CSS colour shown for a colour name. */
  function ColorToSwatch(color: string): (r: Swatch)
    ensures Trim(color) == [] ==> r == Css(BlankSwatch)
    ensures Trim(color) != [] && IsCssColor(Trim(color)) ==> r == Css(Trim(color))
  {
    var value := Trim(color);
    if value == [] then Css(BlankSwatch)
    else if IsHexColor(value) || IsColorFunction(value) then Css(value)
    else
      var key := Normalize(value);
      if key in ColorMap then Css(ColorMap[key])
      else if key in ObjectPrototypeNames then Inherited(key)
      else Css(HashColor(key))
  }

  /** No colour of the table is named after a member of `Object.prototype`. */
  lemma ColorMapOwnsNoPrototypeName(k: string)
    requires k in ObjectPrototypeNames
    ensures k !in ColorMap
  {
    NoNeutralPrototypeName(k);
    NoRedBluePrototypeName(k);
    NoGreenYellowPrototypeName(k);
    NoWarmPrototypeName(k);
  }

  lemma NoNeutralPrototypeName(k: string)
    requires k in ObjectPrototypeNames
    ensures k !in NeutralColors
  {
  }

  lemma NoRedBluePrototypeName(k: string)
    requires k in ObjectPrototypeNames
    ensures k !in RedBlueColors
  {
  }

  lemma NoGreenYellowPrototypeName(k: string)
    requires k in ObjectPrototypeNames
    ensures k !in GreenYellowColors
  {
  }

  lemma NoWarmPrototypeName(k: string)
    requires k in ObjectPrototypeNames
    ensures k !in WarmColors
  {
  }

  lemma ColorMapIsHex(k: string)
    requires k in ColorMap
    ensures IsHexColor(ColorMap[k])
  {
    if k in WarmColors {
      WarmColorsAreHex(k);
    } else if k in GreenYellowColors {
      GreenYellowColorsAreHex(k);
    } else if k in RedBlueColors {
      RedBlueColorsAreHex(k);
    } else {
      NeutralColorsAreHex(k);
    }
  }

  lemma NeutralColorsAreHex(k: string)
    requires k in NeutralColors
    ensures IsHexColor(NeutralColors[k])
  {
  }

  lemma RedBlueColorsAreHex(k: string)
    requires k in RedBlueColors
    ensures IsHexColor(RedBlueColors[k])
  {
  }

  lemma GreenYellowColorsAreHex(k: string)
    requires k in GreenYellowColors
    ensures IsHexColor(GreenYellowColors[k])
  {
  }

  lemma WarmColorsAreHex(k: string)
    requires k in WarmColors
    ensures IsHexColor(WarmColors[k])
  {
  }

  /** The swatch is a hex colour or a CSS colour function, except exactly
      when the name normalises to a member of `Object.prototype`. */
  lemma SwatchIsCss(color: string)
    ensures ColorToSwatch(color).Css? ==> IsCssColor(ColorToSwatch(color).value)
    ensures ColorToSwatch(color).Inherited? <==>
              Trim(color) != [] && !IsCssColor(Trim(color)) && Normalize(Trim(color)) in ObjectPrototypeNames
    ensures ColorToSwatch(color).Inherited? ==> ColorToSwatch(color).name == Normalize(Trim(color))
  {
    var value := Trim(color);
    var r := ColorToSwatch(color);
    if value == [] {
      BlankSwatchIsHex();
    } else if !IsCssColor(value) {
      var key := Normalize(value);
      if key in ObjectPrototypeNames {
        ColorMapOwnsNoPrototypeName(key);
        assert r == Inherited(key);
      } else if key in ColorMap {
        ColorMapIsHex(key);
      } else {
        assert r == Css(HashColor(key));
      }
    }
  }

  /** "Constructor" is no colour name: the lookup finds the `Object` function. */
  lemma ConstructorSwatch()
    ensures ColorToSwatch("Constructor") == Inherited("constructor")
  {
    var c := "Constructor";
    ConstructorNormalForm(c);
    ConstructorIsNoCssColor(c);
    TrimTrimmed(c);
    SwatchIsCss(c);
  }

  lemma ConstructorNormalForm(c: string)
    requires c == "Constructor"
    ensures IsTrimmed(c) && Normalize(c) == "constructor"
  {
    NormalizeCharwise(c, "constructor");
  }

  lemma ConstructorIsNoCssColor(c: string)
    requires c == "Constructor"
    ensures !IsCssColor(c)
  {
    assert c[0] == 'C' && |c| == 11;
  }

  lemma BlankSwatchIsHex()
    ensures IsHexColor(BlankSwatch)
  {
  }

  lemma HexColorTrimmed(v: string)
    requires IsHexColor(v)
    ensures IsTrimmed(v)
  {
    assert IsHexDigit(v[|v| - 1]);
  }

  lemma HslTrimmed(hue: nat)
    ensures IsTrimmed(Hsl(hue))
  {
    var r := Hsl(hue);
    assert r[0] == 'h' && r[|r| - 1] == ')';
  }

  /** A swatch string has no whitespace at its ends. */
  lemma SwatchTrimmed(color: string)
    ensures ColorToSwatch(color).Css? ==> IsTrimmed(ColorToSwatch(color).value)
  {
    var value := Trim(color);
    if value == [] {
      BlankSwatchTrimmed();
    } else if !IsCssColor(value) {
      var key := Normalize(value);
      if key in ColorMap {
        ColorMapIsHex(key);
        HexColorTrimmed(ColorMap[key]);
      } else if key !in ObjectPrototypeNames {
        assert ColorToSwatch(color) == Css(Hsl(Hue(key)));
        HslTrimmed(Hue(key));
      }
    }
  }

  lemma BlankSwatchTrimmed()
    ensures IsTrimmed(BlankSwatch)
  {
    var b := BlankSwatch;
    assert b[0] == '#' && b[|b| - 1] == 'b';
  }

  /** Resolving a swatch string again leaves it as it is. */
  lemma SwatchIdempotent(color: string)
    ensures ColorToSwatch(color).Css? ==>
              ColorToSwatch(ColorToSwatch(color).value) == ColorToSwatch(color)
  {
    var r := ColorToSwatch(color);
    if r.Css? {
      SwatchIsCss(color);
      SwatchTrimmed(color);
      TrimTrimmed(r.value);
    }
  }

  /** A known colour name resolves to its entry whatever its case, accents
      and surrounding whitespace. */
  lemma NamedSwatch(color: string)
    requires Trim(color) != [] && !IsCssColor(Trim(color)) && Normalize(Trim(color)) in ColorMap
    ensures ColorToSwatch(color) == Css(ColorMap[Normalize(Trim(color))])
    ensures IsHexColor(ColorToSwatch(color).value)
  {
    ColorMapIsHex(Normalize(Trim(color)));
  }

  // ---------------------------------------------------------------------------
  // Image URLs
  // ---------------------------------------------------------------------------

  /** `toImageUrl`: the trimmed string, or nothing for a blank string or a
      value that is not a string. */
  function ToImageUrl(v: Value): (r: Option<string>)
    ensures r.Some? <==> v.Str? && Trim(v.s) != []
    ensures r.Some? ==> r.value == Trim(v.s) && IsTrimmed(r.value)
  {
    if !v.Str? then None
    else
      var trimmed := Trim(v.s);
      if trimmed != [] then Some(trimmed) else None
  }

  /** A usable image URL: trimmed and not blank. */
  predicate IsUrl(u: string)
  {
    u != [] && IsTrimmed(u)
  }

  /** The URLs `toImageUrl` keeps, in input order, repeats included. */
  function ImageUrls(values: seq<Value>): seq<string>
  {
    FilterMap(ToImageUrl, values)
  }

  lemma ImageUrlsAreUrls(values: seq<Value>)
    ensures forall i :: 0 <= i < |ImageUrls(values)| ==> IsUrl(ImageUrls(values)[i])
  {
    FilterMapKeeps(ToImageUrl, values, IsUrl);
  }

  /** A URL is listed exactly when it is the trimmed form of some string input. */
  lemma ImageUrlsMembers(values: seq<Value>, u: string)
    ensures u in ImageUrls(values) <==>
            u != [] && exists j :: 0 <= j < |values| && values[j].Str? && u == Trim(values[j].s)
  {
    FilterMapMembers(ToImageUrl, values, u);
  }

  /** The specification of `uniqueImageUrls`: the distinct URLs, in the order
      of their first occurrence. */
  function UniqueUrls(values: seq<Value>): (r: seq<string>)
    ensures ValidUrls(r)
  {
    ImageUrlsAreUrls(values);
    DedupeKeeps(ImageUrls(values), IsUrl);
    Dedupe(ImageUrls(values))
  }

  /** Non-blank, trimmed and without repeats: what every image list holds. */
  predicate ValidUrls(xs: seq<string>)
  {
    Distinct(xs) && forall i :: 0 <= i < |xs| ==> IsUrl(xs[i])
  }

  /** A URL is kept exactly when it is the trimmed form of some string input. */
  lemma UniqueUrlsMembers(values: seq<Value>, u: string)
    ensures u in UniqueUrls(values) <==>
            u != [] && exists j :: 0 <= j < |values| && values[j].Str? && u == Trim(values[j].s)
  {
    assert UniqueUrls(values) == Dedupe(ImageUrls(values));
    ImageUrlsMembers(values, u);
  }

  /** The URLs come out in the order of their first occurrence. */
  lemma UniqueUrlsOrder(values: seq<Value>)
    ensures var r := UniqueUrls(values);
            forall i, j :: 0 <= i < j < |r| ==>
              FirstIndex(ImageUrls(values), r[i]) < FirstIndex(ImageUrls(values), r[j])
  {
    assert UniqueUrls(values) == Dedupe(ImageUrls(values));
    DedupeOrder(ImageUrls(values));
  }

  /** `uniqueImageUrls`, with its loop and its `seen` set. */
  method UniqueImageUrls(values: seq<Value>) returns (output: seq<string>)
    ensures output == UniqueUrls(values)
  {
    output := [];
    var seen: set<string> := {};
    var i := 0;
    while i < |values|
      invariant 0 <= i <= |values|
      invariant output == Dedupe(ImageUrls(values[..i]))
      invariant seen == Elements(output)
    {
      UniqueStep(values, i);
      var url := ToImageUrl(values[i]);
      if url.Some? {
        ElementsMembers(output, url.value);
        if url.value !in seen {
          ElementsSnoc(output, url.value);
          seen := seen + {url.value};
          output := output + [url.value];
        }
      }
      i := i + 1;
    }
    assert values[..i] == values;
    assert UniqueUrls(values) == Dedupe(ImageUrls(values));
  }

  /** One step of the loop of `uniqueImageUrls`. */
  lemma UniqueStep(values: seq<Value>, i: nat)
    requires i < |values|
    ensures var before := Dedupe(ImageUrls(values[..i]));
            var url := ToImageUrl(values[i]);
            Dedupe(ImageUrls(values[..i + 1]))
            == if url.Some? && url.value !in before then before + [url.value] else before
  {
    var before := ImageUrls(values[..i]);
    FilterMapSnoc(ToImageUrl, values[..i], values[i]);
    assert values[..i + 1] == values[..i] + [values[i]];
    var url := ToImageUrl(values[i]);
    if url.Some? {
      DedupeSnoc(before, url.value);
    } else {
      assert before + [] == before;
    }
  }

  /** The values of a list of strings. */
  function Strs(xs: seq<string>): (r: seq<Value>)
    ensures |r| == |xs| && forall i :: 0 <= i < |xs| ==> r[i] == Str(xs[i])
  {
    seq(|xs|, i requires 0 <= i < |xs| => Str(xs[i]))
  }

  /** Trimmed, non-blank strings pass `toImageUrl` unchanged. */
  lemma {:induction false} ImageUrlsOfStrs(xs: seq<string>)
    requires forall i :: 0 <= i < |xs| ==> IsUrl(xs[i])
    ensures ImageUrls(Strs(xs)) == xs
  {
    if xs != [] {
      var init := xs[..|xs| - 1];
      var last := xs[|xs| - 1];
      ImageUrlsOfStrs(init);
      assert Strs(xs) == Strs(init) + [Str(last)];
      FilterMapSnoc(ToImageUrl, Strs(init), Str(last));
      TrimTrimmed(last);
      assert OptionToSeq(ToImageUrl(Str(last))) == [last];
      assert init + [last] == xs;
    }
  }

  /** A list that is already valid is its own de-duplication. */
  lemma UniqueUrlsOfValid(xs: seq<string>)
    requires ValidUrls(xs)
    ensures UniqueUrls(Strs(xs)) == xs
  {
    ImageUrlsOfStrs(xs);
    DedupeDistinct(xs);
    assert UniqueUrls(Strs(xs)) == Dedupe(ImageUrls(Strs(xs)));
  }

  // ---------------------------------------------------------------------------
  // Colour → images map
  // ---------------------------------------------------------------------------

  /** A `ColorImagesMap` object: its entries in enumeration order. */
  type ColorImages = seq<(string, seq<string>)>

  function Keys(m: ColorImages): (r: seq<string>)
    ensures |r| == |m| && forall i :: 0 <= i < |m| ==> r[i] == m[i].0
  {
    seq(|m|, i requires 0 <= i < |m| => m[i].0)
  }

  /** `output[color] ?? []`: the images of the first entry with that key. */
  function Images(m: ColorImages, k: string): seq<string>
  {
    if m == [] then [] else if m[0].0 == k then m[0].1 else Images(m[1..], k)
  }

  /** Where `output[k] = v` creates a key `k` the object lacks: an array index
      goes after the smaller indices, any other key goes last. */
  function Slot(m: ColorImages, k: string): (p: nat)
    ensures p <= |m|
  {
    if IsArrayIndex(k) then IndexSlot(m, k) else |m|
  }

  /** The number of leading array indices not above the index `k`. */
  function IndexSlot(m: ColorImages, k: string): (p: nat)
    requires IsArrayIndex(k)
    ensures p <= |m|
    ensures forall i :: 0 <= i < p ==> IsArrayIndex(m[i].0) && IndexValue(m[i].0) <= IndexValue(k)
    ensures p < |m| ==> !IsArrayIndex(m[p].0) || IndexValue(k) < IndexValue(m[p].0)
  {
    if m == [] || !IsArrayIndex(m[0].0) || IndexValue(k) < IndexValue(m[0].0) then 0
    else 1 + IndexSlot(m[1..], k)
  }

  /** `output[color] = images`: an existing key keeps its place and takes the
      new value; a new key is created where the object enumerates it. */
  function Put(m: ColorImages, k: string, v: seq<string>): ColorImages
  {
    if k in Keys(m) then Replace(m, k, v)
    else
      var p := Slot(m, k);
      m[..p] + [(k, v)] + m[p..]
  }

  /** The first entry with the key `k` takes the value `v`. */
  function Replace(m: ColorImages, k: string, v: seq<string>): ColorImages
  {
    if m == [] then []
    else if m[0].0 == k then [(k, v)] + m[1..]
    else [m[0]] + Replace(m[1..], k, v)
  }

  lemma {:induction false} ReplaceShape(m: ColorImages, k: string, v: seq<string>, k': string)
    requires k in Keys(m)
    ensures Keys(Replace(m, k, v)) == Keys(m)
    ensures forall i :: 0 <= i < |m| ==> Replace(m, k, v)[i] == m[i] || Replace(m, k, v)[i] == (k, v)
    ensures Images(Replace(m, k, v), k') == if k' == k then v else Images(m, k')
  {
    var r := Replace(m, k, v);
    KeysCons(m[0], m[1..]);
    assert m == [m[0]] + m[1..];
    if m[0].0 != k {
      ReplaceShape(m[1..], k, v, k');
      KeysCons(m[0], Replace(m[1..], k, v));
    } else {
      KeysCons((k, v), m[1..]);
    }
  }

  lemma KeysCons(e: (string, seq<string>), m: ColorImages)
    ensures Keys([e] + m) == [e.0] + Keys(m)
  {
    assert forall i :: 0 < i <= |m| ==> ([e] + m)[i] == m[i - 1];
  }

  /** Inserting an entry with a new key changes the images of no other key. */
  lemma {:induction false} ImagesInsert(m: ColorImages, p: nat, e: (string, seq<string>), k': string)
    requires p <= |m| && e.0 !in Keys(m)
    ensures Images(m[..p] + [e] + m[p..], k') == if k' == e.0 then e.1 else Images(m, k')
  {
    var r := m[..p] + [e] + m[p..];
    if p == 0 {
      assert r == [e] + m && r[1..] == m;
    } else {
      assert m[0].0 in Keys(m);
      assert r[0] == m[0] && r[1..] == m[1..][..p - 1] + [e] + m[1..][p - 1..];
      assert Keys(m[1..]) == Keys(m)[1..];
      ImagesInsert(m[1..], p - 1, e, k');
    }
  }

  lemma KeysInsert(m: ColorImages, p: nat, e: (string, seq<string>))
    requires p <= |m|
    ensures Keys(m[..p] + [e] + m[p..]) == Keys(m)[..p] + [e.0] + Keys(m)[p..]
  {
  }

  lemma ImagesPut(m: ColorImages, k: string, v: seq<string>, k': string)
    ensures Images(Put(m, k, v), k') == if k' == k then v else Images(m, k')
  {
    if k in Keys(m) {
      ReplaceShape(m, k, v, k');
    } else {
      ImagesInsert(m, Slot(m, k), (k, v), k');
    }
  }

  /** After `output[k] = v` the keys are the old ones and `k`, no key
      repeats, the array indices still come first in ascending order, and the
      other keys keep their creation order, a new one last. */
  lemma PutKeys(m: ColorImages, k: string, v: seq<string>)
    ensures forall x :: x in Keys(Put(m, k, v)) <==> x in Keys(m) || x == k
    ensures Distinct(Keys(m)) ==> Distinct(Keys(Put(m, k, v)))
    ensures EnumerationOrdered(Keys(m)) ==> EnumerationOrdered(Keys(Put(m, k, v)))
    ensures Filter(IsStringKey, Keys(Put(m, k, v)))
            == Filter(IsStringKey, Keys(m)) + (if k in Keys(m) || IsArrayIndex(k) then [] else [k])
  {
    if k in Keys(m) {
      ReplaceShape(m, k, v, k);
      assert Filter(IsStringKey, Keys(m)) + [] == Filter(IsStringKey, Keys(m));
    } else {
      var p := Slot(m, k);
      KeysInsert(m, p, (k, v));
      InsertDistinct(Keys(m), p, k);
      InsertOrdered(m, k, v);
      FilterInsert(IsStringKey, Keys(m), p, k);
    }
  }

  /** A new key created at its slot keeps the enumeration order. */
  lemma InsertOrdered(m: ColorImages, k: string, v: seq<string>)
    requires k !in Keys(m)
    ensures EnumerationOrdered(Keys(m)) ==>
              EnumerationOrdered(Keys(m[..Slot(m, k)] + [(k, v)] + m[Slot(m, k)..]))
  {
    var p := Slot(m, k);
    var ks := Keys(m);
    KeysInsert(m, p, (k, v));
    if EnumerationOrdered(ks) {
      if IsArrayIndex(k) {
        InsertIndexOrdered(ks, p, k);
      } else {
        assert ks[..p] + [k] + ks[p..] == ks + [k];
        AppendStringKeyOrdered(ks, k);
      }
    }
  }

  lemma {:induction false} PutEntries(m: ColorImages, k: string, v: seq<string>, i: nat)
    requires i < |Put(m, k, v)|
    ensures Put(m, k, v)[i] == (k, v) || Put(m, k, v)[i] in m
  {
    if k in Keys(m) {
      ReplaceShape(m, k, v, k);
      assert Put(m, k, v)[i] == m[i] || Put(m, k, v)[i] == (k, v);
    } else {
      var p := Slot(m, k);
      var r := m[..p] + [(k, v)] + m[p..];
      if i < p {
        assert r[i] == m[i];
      } else if i > p {
        assert r[i] == m[i - 1];
      }
    }
  }

  /** An entry whose step throws: a name `Object.prototype` defines, with at
      least one image URL. */
  predicate Throws(e: (string, Value))
  {
    Trim(e.0) in ObjectPrototypeNames && e.1.Arr? && UniqueUrls(e.1.items) != []
  }

  /** One step of the loop of `normalizeColorImagesMap`, `None` when it
      throws: for a name that `Object.prototype` defines, `output[color] ??
      []` reads the inherited member (such a name never becomes an own key),
      and spreading a function or `Object.prototype` is a TypeError. */
  function MergeColor(output: ColorImages, rawColor: string, rawImages: Value): (r: Option<ColorImages>)
    ensures r.None? <==> Throws((rawColor, rawImages))
  {
    var color := Trim(rawColor);
    if color == [] || !rawImages.Arr? then Some(output)
    else
      var images := UniqueUrls(rawImages.items);
      if images == [] then Some(output)
      else if color in ObjectPrototypeNames then None
      else Some(Put(output, color, UniqueUrls(Strs(Images(output, color) + images))))
  }

  /** The map built from the entries in enumeration order, `None` when a step
      throws. */
  function ColorImagesFrom(entries: seq<(string, Value)>): Option<ColorImages>
  {
    if entries == [] then Some([])
    else
      var last := entries[|entries| - 1];
      match ColorImagesFrom(entries[..|entries| - 1])
      case None => None
      case Some(m) => MergeColor(m, last.0, last.1)
  }

  /** The specification of `normalizeColorImagesMap`: nothing for null, a
      non-object or an array; `None` when the loop throws. */
  function ColorImagesOf(input: Value): Option<ColorImages>
  {
    if input.Obj? then ColorImagesFrom(input.entries) else Some([])
  }

  /** `normalizeColorImagesMap`, with its loop over the entries. */
  method NormalizeColorImagesMap(input: Value) returns (r: Option<ColorImages>)
    ensures r == ColorImagesOf(input)
  {
    if !input.Obj? {
      return Some([]);
    }
    var entries := input.entries;
    var output: ColorImages := [];
    var i := 0;
    while i < |entries|
      invariant 0 <= i <= |entries|
      invariant ColorImagesFrom(entries[..i]) == Some(output)
    {
      ColorImagesFromStep(entries, i);
      var color := Trim(entries[i].0);
      var rawImages := entries[i].1;
      if color != [] && rawImages.Arr? {
        var images := UniqueImageUrls(rawImages.items);
        if images != [] {
          if color in ObjectPrototypeNames {
            ColorImagesThrows(entries);
            assert Throws(entries[i]);
            return None;
          }
          var existing := Images(output, color);
          var merged := UniqueImageUrls(Strs(existing + images));
          output := Put(output, color, merged);
        }
      }
      i := i + 1;
    }
    assert entries[..i] == entries;
    r := Some(output);
  }

  lemma ColorImagesFromStep(entries: seq<(string, Value)>, i: nat)
    requires i < |entries| && ColorImagesFrom(entries[..i]).Some?
    ensures ColorImagesFrom(entries[..i + 1])
            == MergeColor(ColorImagesFrom(entries[..i]).value, entries[i].0, entries[i].1)
  {
    assert entries[..i + 1][..i] == entries[..i];
  }

  /** The loop throws exactly when some entry has a name that
      `Object.prototype` defines and at least one image URL. */
  lemma {:induction false} ColorImagesThrows(entries: seq<(string, Value)>)
    ensures ColorImagesFrom(entries).None? <==> exists j :: 0 <= j < |entries| && Throws(entries[j])
  {
    if entries != [] {
      var init := entries[..|entries| - 1];
      var last := entries[|entries| - 1];
      assert entries == init + [last];
      ColorImagesThrows(init);
      ColorImagesSnoc(init, last);
      ThrowsSnoc(init, last);
    }
  }

  lemma ColorImagesSnoc(init: seq<(string, Value)>, last: (string, Value))
    ensures ColorImagesFrom(init + [last]).None? <==> ColorImagesFrom(init).None? || Throws(last)
  {
    assert (init + [last])[..|init|] == init;
  }

  lemma ThrowsSnoc(init: seq<(string, Value)>, last: (string, Value))
    ensures (exists j :: 0 <= j < |init + [last]| && Throws((init + [last])[j]))
            <==> (exists j :: 0 <= j < |init| && Throws(init[j])) || Throws(last)
  {
    var s := init + [last];
    if exists j :: 0 <= j < |s| && Throws(s[j]) {
      var j :| 0 <= j < |s| && Throws(s[j]);
      if j < |init| {
        assert s[j] == init[j];
      }
    }
    if exists j :: 0 <= j < |init| && Throws(init[j]) {
      var j :| 0 <= j < |init| && Throws(init[j]);
      assert s[j] == init[j];
    }
    assert s[|init|] == last;
  }

  /** What every normalised map satisfies: distinct trimmed, non-blank keys,
      none named after a member of `Object.prototype`, listed in enumeration
      order, each with a non-empty valid image list. */
  predicate WellFormed(m: ColorImages)
  {
    && Distinct(Keys(m))
    && EnumerationOrdered(Keys(m))
    && forall i :: 0 <= i < |m| ==>
         IsUrl(m[i].0) && m[i].0 !in ObjectPrototypeNames && m[i].1 != [] && ValidUrls(m[i].1)
  }

  /** The images of any key of a well-formed map are valid. */
  lemma {:induction false} ImagesValid(m: ColorImages, k: string)
    requires forall i :: 0 <= i < |m| ==> ValidUrls(m[i].1)
    ensures ValidUrls(Images(m, k))
  {
    if m != [] && m[0].0 != k {
      ImagesValid(m[1..], k);
    }
  }

  /** Merging two valid lists is de-duplicating their concatenation. */
  lemma MergedImages(existing: seq<string>, images: seq<string>)
    requires forall i :: 0 <= i < |existing| ==> IsUrl(existing[i])
    requires forall i :: 0 <= i < |images| ==> IsUrl(images[i])
    ensures UniqueUrls(Strs(existing + images)) == Dedupe(existing + images)
  {
    ImageUrlsOfStrs(existing + images);
    assert UniqueUrls(Strs(existing + images)) == Dedupe(ImageUrls(Strs(existing + images)));
  }

  lemma PutWellFormed(m: ColorImages, k: string, v: seq<string>)
    requires WellFormed(m) && IsUrl(k) && k !in ObjectPrototypeNames && v != [] && ValidUrls(v)
    ensures WellFormed(Put(m, k, v))
  {
    var r := Put(m, k, v);
    PutKeys(m, k, v);
    forall i | 0 <= i < |r|
      ensures IsUrl(r[i].0) && r[i].0 !in ObjectPrototypeNames && r[i].1 != [] && ValidUrls(r[i].1)
    {
      PutEntries(m, k, v, i);
    }
  }

  lemma MergeColorWellFormed(output: ColorImages, rawColor: string, rawImages: Value)
    requires WellFormed(output)
    ensures MergeColor(output, rawColor, rawImages).Some? ==>
              WellFormed(MergeColor(output, rawColor, rawImages).value)
  {
    var color := Trim(rawColor);
    if color != [] && rawImages.Arr? && UniqueUrls(rawImages.items) != [] && color !in ObjectPrototypeNames {
      var images := UniqueUrls(rawImages.items);
      var existing := Images(output, color);
      ImagesValid(output, color);
      MergedImages(existing, images);
      var v := UniqueUrls(Strs(existing + images));
      assert images[0] in existing + images;
      assert v != [];
      PutWellFormed(output, color, v);
      assert MergeColor(output, rawColor, rawImages) == Some(Put(output, color, v));
    }
  }

  /** Every key of a normalised map is trimmed and non-blank, no key repeats
      or names a member of `Object.prototype`, the keys are in enumeration
      order, and each maps to a non-empty list of distinct, trimmed, non-blank
      URLs. */
  lemma {:induction false} ColorImagesWellFormed(entries: seq<(string, Value)>)
    ensures ColorImagesFrom(entries).Some? ==> WellFormed(ColorImagesFrom(entries).value)
  {
    if entries != [] {
      var init := entries[..|entries| - 1];
      var last := entries[|entries| - 1];
      ColorImagesWellFormed(init);
      if ColorImagesFrom(init).Some? {
        MergeColorWellFormed(ColorImagesFrom(init).value, last.0, last.1);
      }
    }
  }

  /** The URLs one entry gives for the key `k`. */
  function Contribution(rawColor: string, rawImages: Value, k: string): seq<string>
  {
    if Trim(rawColor) == k && k != [] && rawImages.Arr? then ImageUrls(rawImages.items) else []
  }

  /** Every URL given for a key, over all entries whose trimmed name is that
      key, in enumeration order. */
  function ColorUrls(entries: seq<(string, Value)>, k: string): seq<string>
  {
    if entries == [] then []
    else
      var last := entries[|entries| - 1];
      ColorUrls(entries[..|entries| - 1], k) + Contribution(last.0, last.1, k)
  }

  /** What one step of the loop does to the images of a key, when it does
      not throw. */
  lemma MergeColorImages(m: ColorImages, rawColor: string, rawImages: Value, k: string)
    requires WellFormed(m)
    ensures MergeColor(m, rawColor, rawImages).Some? ==>
              Images(MergeColor(m, rawColor, rawImages).value, k)
              == Dedupe(Images(m, k) + Contribution(rawColor, rawImages, k))
  {
    var color := Trim(rawColor);
    var x := Contribution(rawColor, rawImages, k);
    ImagesValid(m, k);
    if color != [] && rawImages.Arr? && UniqueUrls(rawImages.items) != [] {
      if color !in ObjectPrototypeNames {
        var images := UniqueUrls(rawImages.items);
        var existing := Images(m, color);
        ImagesValid(m, color);
        MergedImages(existing, images);
        var v := UniqueUrls(Strs(existing + images));
        assert MergeColor(m, rawColor, rawImages) == Some(Put(m, color, v));
        ImagesPut(m, color, v, k);
        if color == k {
          MergeSameColor(existing, rawImages.items);
        } else {
          NothingAdded(Images(m, k), x);
        }
      }
    } else {
      assert MergeColor(m, rawColor, rawImages) == Some(m);
      if color == k && k != [] && rawImages.Arr? {
        assert Dedupe(ImageUrls(rawImages.items)) == UniqueUrls(rawImages.items);
        DedupeEmpty(ImageUrls(rawImages.items));
      }
      NothingAdded(Images(m, k), x);
    }
  }

  lemma NothingAdded(existing: seq<string>, x: seq<string>)
    requires Distinct(existing) && x == []
    ensures Dedupe(existing + x) == existing
  {
    assert existing + x == existing;
    DedupeDistinct(existing);
  }

  lemma MergeSameColor(existing: seq<string>, items: seq<Value>)
    requires ValidUrls(existing)
    ensures Dedupe(existing + UniqueUrls(items)) == Dedupe(existing + ImageUrls(items))
  {
    assert UniqueUrls(items) == Dedupe(ImageUrls(items));
    DedupeAppendRight(existing, ImageUrls(items));
  }

  /** When the loop does not throw, the images the normalised map holds for a
      key are the distinct URLs given for it across all entries whose trimmed
      name is that key. */
  lemma {:induction false} ColorImagesReference(entries: seq<(string, Value)>, k: string)
    ensures ColorImagesFrom(entries).Some? ==>
              Images(ColorImagesFrom(entries).value, k) == Dedupe(ColorUrls(entries, k))
  {
    if entries == [] {
      assert Dedupe(ColorUrls(entries, k)) == [];
    } else if ColorImagesFrom(entries).Some? {
      var init := entries[..|entries| - 1];
      var last := entries[|entries| - 1];
      var m := ColorImagesFrom(init).value;
      var c := ColorUrls(init, k);
      var x := Contribution(last.0, last.1, k);
      ColorImagesReference(init, k);
      ColorImagesWellFormed(init);
      assert ColorImagesFrom(entries) == MergeColor(m, last.0, last.1);
      MergeColorImages(m, last.0, last.1, k);
      assert ColorUrls(entries, k) == c + x;
      DedupeAppend(c, x);
    }
  }

  /** When the loop does not throw, a key is present exactly when some entry
      with that trimmed name gives at least one URL. */
  lemma ColorImagesKeys(entries: seq<(string, Value)>, k: string)
    ensures ColorImagesFrom(entries).Some? ==>
              (k in Keys(ColorImagesFrom(entries).value) <==> ColorUrls(entries, k) != [])
  {
    if ColorImagesFrom(entries).Some? {
      var m := ColorImagesFrom(entries).value;
      ColorImagesWellFormed(entries);
      ColorImagesReference(entries, k);
      DedupeEmpty(ColorUrls(entries, k));
      ImagesPresent(m, k);
    }
  }

  lemma {:induction false} ImagesPresent(m: ColorImages, k: string)
    requires forall i :: 0 <= i < |m| ==> m[i].1 != []
    ensures k in Keys(m) <==> Images(m, k) != []
  {
    if m != [] {
      assert Keys(m) == [m[0].0] + Keys(m[1..]);
      ImagesPresent(m[1..], k);
    }
  }

  // ---------------------------------------------------------------------------
  // Images of a colour
  // ---------------------------------------------------------------------------

  /** The de-duplicated images of the first key whose normal form is `target`. */
  function FirstMatch(m: ColorImages, target: string): seq<string>
  {
    if m == [] then []
    else if Normalize(m[0].0) == target then UniqueUrls(Strs(m[0].1))
    else FirstMatch(m[1..], target)
  }

  /** The specification of `getColorImages`: nothing when the map or the
      colour is missing or the colour is blank once normalised. */
  function ColorImagesFor(colorImages: Option<ColorImages>, color: Option<string>): (r: seq<string>)
  {
    if colorImages.None? || color.None? || color.value == [] then []
    else if Normalize(color.value) == [] then []
    else FirstMatch(colorImages.value, Normalize(color.value))
  }

  /** `getColorImages`, with its search loop. */
  method GetColorImages(colorImages: Option<ColorImages>, color: Option<string>) returns (r: seq<string>)
    ensures r == ColorImagesFor(colorImages, color)
  {
    if colorImages.None? || color.None? || color.value == [] {
      return [];
    }
    var target := Normalize(color.value);
    if target == [] {
      return [];
    }
    var m := colorImages.value;
    var i := 0;
    while i < |m|
      invariant 0 <= i <= |m|
      invariant FirstMatch(m, target) == FirstMatch(m[i..], target)
    {
      if Normalize(m[i].0) == target {
        r := UniqueImageUrls(Strs(m[i].1));
        return;
      }
      FirstMatchStep(m, target, i);
      i := i + 1;
    }
    r := [];
  }

  lemma FirstMatchStep(m: ColorImages, target: string, i: nat)
    requires i < |m| && Normalize(m[i].0) != target
    ensures FirstMatch(m[i..], target) == FirstMatch(m[i + 1..], target)
  {
    assert m[i..][1..] == m[i + 1..];
  }

  /** The result is the images of the first key that matches the colour,
      de-duplicated. */
  lemma {:induction false} FirstMatchFound(m: ColorImages, target: string, k: nat)
    requires k < |m| && Normalize(m[k].0) == target
    requires forall j :: 0 <= j < k ==> Normalize(m[j].0) != target
    ensures FirstMatch(m, target) == UniqueUrls(Strs(m[k].1))
  {
    if k > 0 {
      var rest := m[1..];
      assert Normalize(m[0].0) != target;
      assert FirstMatch(m, target) == FirstMatch(rest, target);
      assert rest[k - 1] == m[k];
      forall j | 0 <= j < k - 1
        ensures Normalize(rest[j].0) != target
      {
        assert rest[j] == m[j + 1];
      }
      FirstMatchFound(rest, target, k - 1);
    }
  }

  /** With no matching key the result is empty. */
  lemma {:induction false} FirstMatchMissing(m: ColorImages, target: string)
    requires forall j :: 0 <= j < |m| ==> Normalize(m[j].0) != target
    ensures FirstMatch(m, target) == []
  {
    if m != [] {
      FirstMatchMissing(m[1..], target);
    }
  }

  /** In a normalised map, the images stored under a key are found again by
      any spelling of that key that normalises the same way, provided no
      earlier key does. */
  lemma StoredImagesFound(m: ColorImages, k: nat, color: string)
    requires WellFormed(m) && k < |m|
    requires Normalize(color) != [] && Normalize(m[k].0) == Normalize(color)
    requires forall j :: 0 <= j < k ==> Normalize(m[j].0) != Normalize(color)
    ensures ColorImagesFor(Some(m), Some(color)) == m[k].1
  {
    FirstMatchFound(m, Normalize(color), k);
    UniqueUrlsOfValid(m[k].1);
  }
}
