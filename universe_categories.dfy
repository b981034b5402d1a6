/** The category taxonomy: two closed label lists and the two mappers that put a
    free-text category into one of them by ordered substring rules over its
    normalised form (lower case, diacritics stripped, trimmed). The first rule
    that matches wins; no match falls into a default bucket. */
module UniverseCategories {
  import opened Text

  /** Labels for the "tout" universe, in declaration order. */
  const UniverseCategoryLabels: seq<string> :=
    ["Electronique", "Electromenager", "Accessoires maison", "Accessoires & divers"]

  /** Labels for the "mode" universe, in declaration order. */
  const ModeCategoryLabels: seq<string> :=
    ["Vêtements", "Chaussures", "Maroquinerie", "Accessoires", "Mode femme"]

  /** The clothing sub-categories of "Vêtements". Their values are not part of
      this model; every property here holds whatever they are. */
  const ModeClothingSubcategories: seq<string>

  /** `mapUniverseCategory`: the first rule whose keyword occurs in the
      normal form decides the label. */
  function MapUniverseCategory(raw: string): (r: string)
  {
    ClassifyUniverse(Normalize(raw))
  }

  function ClassifyUniverse(c: string): (r: string)
  {
    if Contains(c, "electromenager") || Contains(c, "electro menager") then "Electromenager"
    else if Contains(c, "luminaire") || Contains(c, "electronique") then "Electronique"
    else if Contains(c, "decoration") || Contains(c, "cuisine") || Contains(c, "accessoire maison") then
      "Accessoires maison"
    else "Accessoires & divers"
  }

  /** `mapModeCategory`, on the same normal form. */
  function MapModeCategory(raw: string): (r: string)
  {
    ClassifyMode(Normalize(raw))
  }

  function ClassifyMode(c: string): (r: string)
  {
    if Contains(c, "vetement") then "Vêtements"
    else if Contains(c, "chaussure") then "Chaussures"
    else if Contains(c, "maroquinerie") then "Maroquinerie"
    else if Contains(c, "mode femme") || Contains(c, "modd femme") then "Mode femme"
    else "Accessoires"
  }

  /** The universe mapper always answers one of the four universe labels. */
  lemma MapUniverseCategoryIsALabel(raw: string)
    ensures MapUniverseCategory(raw) in UniverseCategoryLabels
  {
    ClassifyUniverseIsALabel(Normalize(raw));
  }

  lemma ClassifyUniverseIsALabel(c: string)
    ensures ClassifyUniverse(c) in UniverseCategoryLabels
  {
  }

  /** The mode mapper always answers one of the five mode labels. */
  lemma MapModeCategoryIsALabel(raw: string)
    ensures MapModeCategory(raw) in ModeCategoryLabels
  {
    ClassifyModeIsALabel(Normalize(raw));
  }

  lemma ClassifyModeIsALabel(c: string)
    ensures ClassifyMode(c) in ModeCategoryLabels
  {
  }

  /** Surrounding whitespace never changes the bucket. */
  lemma MappersIgnorePadding(w1: string, raw: string, w2: string)
    requires AllSpace(w1) && AllSpace(w2)
    ensures MapUniverseCategory(w1 + raw + w2) == MapUniverseCategory(raw)
    ensures MapModeCategory(w1 + raw + w2) == MapModeCategory(raw)
  {
    NormalizePadding(w1, raw, w2);
  }

  /** A word that folds to "electromenager" or "electro menager", written
      anywhere in the text, wins over every later rule, even when the text also
      says "électronique". */
  lemma ElectromenagerWins(a: string, w: string, b: string)
    requires Fold(w) == "electromenager" || Fold(w) == "electro menager"
    ensures MapUniverseCategory(a + w + b) == "Electromenager"
  {
    if Fold(w) == "electromenager" {
      assert !IsSpace(Fold(w)[0]) && !IsSpace(Fold(w)[|Fold(w)| - 1]);
      NormalizeContainsInfix(a, w, b);
    } else {
      assert !IsSpace(Fold(w)[0]) && !IsSpace(Fold(w)[|Fold(w)| - 1]);
      NormalizeContainsInfix(a, w, b);
    }
    FirstUniverseRule(a + w + b);
  }

  lemma FirstUniverseRule(raw: string)
    requires Contains(Normalize(raw), "electromenager") || Contains(Normalize(raw), "electro menager")
    ensures MapUniverseCategory(raw) == "Electromenager"
  {
  }

  /** A word that folds to "vetement", written anywhere in the text, sends it
      to "Vêtements" whatever else it says. */
  lemma VetementWins(a: string, w: string, b: string)
    requires Fold(w) == "vetement"
    ensures MapModeCategory(a + w + b) == "Vêtements"
  {
    NormalizeContainsInfix(a, w, b);
    FirstModeRule(a + w + b);
  }

  lemma FirstModeRule(raw: string)
    requires Contains(Normalize(raw), "vetement")
    ensures MapModeCategory(raw) == "Vêtements"
  {
  }

  const UniverseKeywords: seq<string> :=
    ["electromenager", "electro menager", "luminaire", "electronique", "decoration", "cuisine",
     "accessoire maison"]

  const ModeKeywords: seq<string> :=
    ["vetement", "chaussure", "maroquinerie", "mode femme", "modd femme"]

  /** The default buckets are reached exactly when no keyword of the mapper
      occurs in the normal form. */
  lemma DefaultUniverseBucket(raw: string)
    ensures MapUniverseCategory(raw) == "Accessoires & divers" <==>
              forall k | 0 <= k < |UniverseKeywords| :: !Contains(Normalize(raw), UniverseKeywords[k])
  {
    ClassifyUniverseDefault(Normalize(raw));
  }

  lemma ClassifyUniverseDefault(c: string)
    ensures ClassifyUniverse(c) == "Accessoires & divers" <==>
              forall k | 0 <= k < |UniverseKeywords| :: !Contains(c, UniverseKeywords[k])
  {
    var kws := UniverseKeywords;
    assert kws[0] == "electromenager" && kws[1] == "electro menager" && kws[2] == "luminaire";
    assert kws[3] == "electronique" && kws[4] == "decoration" && kws[5] == "cuisine";
    assert kws[6] == "accessoire maison";
  }

  lemma DefaultModeBucket(raw: string)
    ensures MapModeCategory(raw) == "Accessoires" <==>
              forall k | 0 <= k < |ModeKeywords| :: !Contains(Normalize(raw), ModeKeywords[k])
  {
    ClassifyModeDefault(Normalize(raw));
  }

  lemma ClassifyModeDefault(c: string)
    ensures ClassifyMode(c) == "Accessoires" <==>
              forall k | 0 <= k < |ModeKeywords| :: !Contains(c, ModeKeywords[k])
  {
    var kws := ModeKeywords;
    assert kws[0] == "vetement" && kws[1] == "chaussure" && kws[2] == "maroquinerie";
    assert kws[3] == "mode femme" && kws[4] == "modd femme";
  }

  /** Every mode label maps to itself. */
  lemma ModeLabelsAreFixpoints(l: string)
    requires l in ModeCategoryLabels
    ensures MapModeCategory(l) == l
  {
    if l == "Vêtements" {
      VetementsNormalForm(l);
      VetementsRule(Normalize(l));
    } else if l == "Chaussures" {
      ChaussuresNormalForm(l);
      ChaussuresRule(Normalize(l));
    } else if l == "Maroquinerie" {
      MaroquinerieNormalForm(l);
      MaroquinerieRule(Normalize(l));
    } else if l == "Accessoires" {
      AccessoiresNormalForm(l);
      AccessoiresRule(Normalize(l));
    } else {
      ModeFemmeNormalForm(l);
      ModeFemmeRule(Normalize(l));
    }
  }

  lemma VetementsNormalForm(l: string)
    requires l == "Vêtements"
    ensures Normalize(l) == "vetements"
  {
    NormalizeCharwise(l, "vetements");
  }

  lemma VetementsRule(c: string)
    requires c == "vetements"
    ensures ClassifyMode(c) == "Vêtements"
  {
    assert OccursAt(c, "vetement", 0);
  }

  lemma ChaussuresNormalForm(l: string)
    requires l == "Chaussures"
    ensures Normalize(l) == "chaussures"
  {
    NormalizeCharwise(l, "chaussures");
  }

  lemma ChaussuresRule(c: string)
    requires c == "chaussures"
    ensures ClassifyMode(c) == "Chaussures"
  {
    NotContainsChar(c, "vetement", 0);
    assert OccursAt(c, "chaussure", 0);
  }

  lemma MaroquinerieNormalForm(l: string)
    requires l == "Maroquinerie"
    ensures Normalize(l) == "maroquinerie"
  {
    NormalizeCharwise(l, "maroquinerie");
  }

  lemma MaroquinerieRule(c: string)
    requires c == "maroquinerie"
    ensures ClassifyMode(c) == "Maroquinerie"
  {
    NotContainsChar(c, "vetement", 0);
    NotContainsChar(c, "chaussure", 0);
    assert OccursAt(c, "maroquinerie", 0);
  }

  lemma AccessoiresNormalForm(l: string)
    requires l == "Accessoires"
    ensures Normalize(l) == "accessoires"
  {
    NormalizeCharwise(l, "accessoires");
  }

  lemma AccessoiresRule(c: string)
    requires c == "accessoires"
    ensures ClassifyMode(c) == "Accessoires"
  {
    NotContainsChar(c, "vetement", 0);
    NotContainsChar(c, "chaussure", 1);
    NotContainsChar(c, "maroquinerie", 0);
    NotContainsChar(c, "mode femme", 0);
    NotContainsChar(c, "modd femme", 0);
  }

  lemma ModeFemmeNormalForm(l: string)
    requires l == "Mode femme"
    ensures Normalize(l) == "mode femme"
  {
    NormalizeCharwise(l, "mode femme");
  }

  lemma ModeFemmeRule(c: string)
    requires c == "mode femme"
    ensures ClassifyMode(c) == "Mode femme"
  {
    NotContainsChar(c, "vetement", 0);
    NotContainsChar(c, "chaussure", 0);
    NotContainsChar(c, "maroquinerie", 2);
    assert OccursAt(c, "mode femme", 0);
  }

  /** The universe mapper is not a fixpoint on its own labels: "Accessoires
      maison" lacks the singular "accessoire maison" and falls to the default. */
  lemma AccessoiresMaisonIsNotAFixpoint(l: string)
    requires l == "Accessoires maison"
    ensures MapUniverseCategory(l) == "Accessoires & divers"
  {
    NormalizeCharwise(l, "accessoires maison");
    NoUniverseKeyword(Normalize(l));
  }

  lemma NoUniverseKeyword(c: string)
    requires c == "accessoires maison"
    ensures ClassifyUniverse(c) == "Accessoires & divers"
  {
    NoElectroKeyword(c);
    NoHomeKeyword(c);
  }

  lemma NoElectroKeyword(c: string)
    requires c == "accessoires maison"
    ensures !Contains(c, "electromenager") && !Contains(c, "electro menager")
    ensures !Contains(c, "luminaire") && !Contains(c, "electronique")
  {
    NotContainsChar(c, "electromenager", 1);
    NotContainsChar(c, "electro menager", 1);
    NotContainsChar(c, "luminaire", 0);
    NotContainsChar(c, "electronique", 1);
  }

  /** The plural "accessoires" breaks the phrase "accessoire maison". */
  lemma NoHomeKeyword(c: string)
    requires c == "accessoires maison"
    ensures !Contains(c, "decoration") && !Contains(c, "cuisine") && !Contains(c, "accessoire maison")
  {
    NotContainsChar(c, "decoration", 0);
    NotContainsChar(c, "cuisine", 1);
    var p := "accessoire maison";
    forall i: nat | i + |p| <= |c| ensures !OccursAt(c, p, i) {
      assert c[i..i + |p|][10] == c[i + 10];
      assert c[i..i + |p|][0] == c[i];
    }
  }

  /** A word that folds to the misspelling "modd femme", written anywhere in
      a text that holds none of the three earlier keywords, is read as
      "Mode femme". */
  lemma ModdFemmeTypo(a: string, w: string, b: string)
    requires Fold(w) == "modd femme"
    requires var c := Normalize(a + w + b);
             !Contains(c, "vetement") && !Contains(c, "chaussure") && !Contains(c, "maroquinerie")
    ensures MapModeCategory(a + w + b) == "Mode femme"
  {
    assert !IsSpace(Fold(w)[0]) && !IsSpace(Fold(w)[|Fold(w)| - 1]);
    NormalizeContainsInfix(a, w, b);
  }

  /** Case and accents never change the bucket: a text and its lower-cased,
      accent-stripped form map alike under both mappers. */
  lemma MappersIgnoreCaseAndAccents(raw: string)
    ensures MapUniverseCategory(Fold(raw)) == MapUniverseCategory(raw)
    ensures MapModeCategory(Fold(raw)) == MapModeCategory(raw)
  {
    FoldIdempotent(raw);
  }
}
