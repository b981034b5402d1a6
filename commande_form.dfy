/** The order form: the WhatsApp number the order is sent to, the validation of
    the contact fields, and the lines of the order message. */
module CommandeForm {
  import opened Wrappers
  import opened Text
  import opened Seqs
  import opened Cart

  // ---------------------------------------------------------------------------
  // The WhatsApp number
  // ---------------------------------------------------------------------------

  const DefaultWhatsAppNumber: string := "221773249642"

  /** `.replace(/\D+/g, "")`: every character that is not a decimal digit removed. */
  function DigitsOnly(s: string): (r: string)
    ensures AllDigits(r)
  {
    var r := Filter(IsDigit, s);
    assert forall i :: 0 <= i < |r| ==> IsDigit(r[i]) by {
      forall i | 0 <= i < |r| ensures IsDigit(r[i]) { assert r[i] in r; }
    }
    r
  }

  /** `WHATSAPP_NUMBER`: the configured number, or the default one when it is
      unset or empty, reduced to its digits. */
  function WhatsAppNumber(configured: Option<string>): (r: string)
    ensures AllDigits(r)
    ensures configured.None? || configured.value == [] ==> r == DefaultWhatsAppNumber
  {
    DefaultNumberKept();
    var raw := if configured.Some? && configured.value != [] then configured.value else DefaultWhatsAppNumber;
    DigitsOnly(raw)
  }

  lemma DefaultNumberKept()
    ensures DigitsOnly(DefaultWhatsAppNumber) == DefaultWhatsAppNumber
  {
    var d := DefaultWhatsAppNumber;
    assert forall i :: 0 <= i < |d| ==> IsDigit(d[i]);
    DigitsOnlyFixed(d);
  }

  /** Stripping leaves a string of digits as it is, and only such a string. */
  lemma DigitsOnlyFixed(s: string)
    ensures DigitsOnly(s) == s <==> AllDigits(s)
  {
    if AllDigits(s) {
      FilterAll(IsDigit, s);
    }
  }

  /** Stripping twice is stripping once. */
  lemma DigitsOnlyIdempotent(s: string)
    ensures DigitsOnly(DigitsOnly(s)) == DigitsOnly(s)
  {
    DigitsOnlyFixed(DigitsOnly(s));
  }

  // ---------------------------------------------------------------------------
  // The two regular expressions
  // ---------------------------------------------------------------------------

  /** `[^\s@]+`. */
  predicate EmailPart(s: string)
  {
    s != [] && forall i :: 0 <= i < |s| ==> !IsSpace(s[i]) && s[i] != '@'
  }

  /** The match of `^[^\s@]+@[^\s@]+\.[^\s@]+$` that puts the "@" at `k` and the
      "." at `j`. */
  predicate EmailSplit(s: string, k: nat, j: nat)
  {
    && k < j < |s| && s[k] == '@' && s[j] == '.'
    && EmailPart(s[..k]) && EmailPart(s[k + 1..j]) && EmailPart(s[j + 1..])
  }

  /** `emailRegex.test(s)`. */
  predicate IsEmail(s: string)
  {
    exists k: nat, j: nat | k < j < |s| :: EmailSplit(s, k, j)
  }

  /** What the expression accepts: no whitespace, exactly one "@", something
      before it, and after it a "." with something on each side. */
  lemma EmailMeaning(s: string)
    ensures IsEmail(s) <==>
              && NoSpace(s) && multiset(s)['@'] == 1
              && exists k: nat, j: nat | 0 < k && k + 1 < j && j + 1 < |s| :: s[k] == '@' && s[j] == '.'
  {
    if IsEmail(s) {
      var k: nat, j: nat :| k < j < |s| && EmailSplit(s, k, j);
      EmailSplitMeaning(s, k, j);
    }
    if && NoSpace(s) && multiset(s)['@'] == 1
       && exists k: nat, j: nat | 0 < k && k + 1 < j && j + 1 < |s| :: s[k] == '@' && s[j] == '.' {
      var k: nat, j: nat :| 0 < k && k + 1 < j && j + 1 < |s| && s[k] == '@' && s[j] == '.';
      SingleAt(s, k);
      assert EmailSplit(s, k, j) by {
        var a, b, c := s[..k], s[k + 1..j], s[j + 1..];
        assert forall i :: 0 <= i < |a| ==> a[i] == s[i];
        assert forall i :: 0 <= i < |b| ==> b[i] == s[k + 1 + i];
        assert forall i :: 0 <= i < |c| ==> c[i] == s[j + 1 + i];
      }
    }
  }

  lemma EmailSplitMeaning(s: string, k: nat, j: nat)
    requires EmailSplit(s, k, j)
    ensures NoSpace(s) && multiset(s)['@'] == 1 && 0 < k && k + 1 < j && j + 1 < |s|
  {
    var a, b, c := s[..k], s[k + 1..j], s[j + 1..];
    assert s == a + ['@'] + b + ['.'] + c;
    forall i | 0 <= i < |s| ensures !IsSpace(s[i]) {
      if i < k {
        assert s[i] == a[i];
      } else if k < i < j {
        assert s[i] == b[i - k - 1];
      } else if j < i {
        assert s[i] == c[i - j - 1];
      }
    }
    assert '@' !in multiset(a) && '@' !in multiset(b) && '@' !in multiset(c) by {
      assert '@' !in a && '@' !in b && '@' !in c;
    }
    assert multiset(s) == multiset(a) + multiset{'@'} + multiset(b) + multiset{'.'} + multiset(c);
  }

  /** With exactly one "@", the one at `k` is the only one. */
  lemma SingleAt(s: string, k: nat)
    requires k < |s| && s[k] == '@' && multiset(s)['@'] == 1
    ensures forall i :: 0 <= i < |s| && i != k ==> s[i] != '@'
  {
    forall i | 0 <= i < |s| && i != k ensures s[i] != '@' {
      if s[i] == '@' {
        RepeatedMultiplicity(s, if i < k then i else k, if i < k then k else i);
      }
    }
  }

  /** `[\d\s+.-]`. */
  predicate IsPhoneChar(c: char)
  {
    IsDigit(c) || IsSpace(c) || c == '+' || c == '.' || c == '-'
  }

  /** `phoneRegex.test(s)`: 8 to 20 characters of the class. Every character
      of the class is a single UTF-16 unit, so the count is the length. */
  predicate IsPhone(s: string)
  {
    8 <= |s| <= 20 && forall i :: 0 <= i < |s| ==> IsPhoneChar(s[i])
  }

  // ---------------------------------------------------------------------------
  // validate
  // ---------------------------------------------------------------------------

  /** The fields of the order form, as typed. */
  datatype OrderForm = OrderForm(nom: string, email: string, telephone: string, article: string, message: string)

  /** `FormErrors`: the message recorded for each field, if any. */
  datatype FormErrors = FormErrors(
    nom: Option<string>, email: Option<string>, telephone: Option<string>, message: Option<string>)

  const NameRequired: string := "Le nom est requis."
  const NameTooShort: string := "Au moins 2 caractères."
  const InvalidEmail: string := "Email invalide."
  const InvalidPhone: string := "Numéro invalide."
  const MessageRequired: string := "Le message est requis."
  const MessageTooShort: string := "Minimum 8 caractères."

  /** `validate`: the errors it records. */
  function Validate(f: OrderForm): (r: FormErrors)
    ensures r.nom.Some? <==> Utf16Length(Trim(f.nom)) < 2
    ensures r.nom.Some? ==> r.nom.value == (if Trim(f.nom) == [] then NameRequired else NameTooShort)
    ensures r.email.Some? <==> Trim(f.email) != [] && !IsEmail(Trim(f.email))
    ensures r.telephone.Some? <==> Trim(f.telephone) != [] && !IsPhone(Trim(f.telephone))
    ensures r.message.Some? <==> Utf16Length(Trim(f.message)) < 8
    ensures r.message.Some? ==> r.message.value == (if Trim(f.message) == [] then MessageRequired else MessageTooShort)
  {
    var nom := Trim(f.nom);
    var email := Trim(f.email);
    var telephone := Trim(f.telephone);
    var message := Trim(f.message);
    FormErrors(
      if nom == [] then Some(NameRequired) else if Utf16Length(nom) < 2 then Some(NameTooShort) else None,
      if email != [] && !IsEmail(email) then Some(InvalidEmail) else None,
      if telephone != [] && !IsPhone(telephone) then Some(InvalidPhone) else None,
      if message == [] then Some(MessageRequired) else if Utf16Length(message) < 8 then Some(MessageTooShort) else None)
  }

  /** `Object.keys(next).length === 0`. */
  predicate NoErrors(e: FormErrors)
  {
    e.nom.None? && e.email.None? && e.telephone.None? && e.message.None?
  }

  /** The form is accepted exactly when the name has two units, the message
      eight, and the email and phone are blank or well formed. */
  lemma ValidateAccepts(f: OrderForm)
    ensures NoErrors(Validate(f)) <==>
              && Utf16Length(Trim(f.nom)) >= 2 && Utf16Length(Trim(f.message)) >= 8
              && (Trim(f.email) == [] || IsEmail(Trim(f.email)))
              && (Trim(f.telephone) == [] || IsPhone(Trim(f.telephone)))
  {
  }

  /** An empty email and an empty phone are not errors. */
  lemma BlankContactAccepted(f: OrderForm)
    requires AllSpace(f.email) && AllSpace(f.telephone)
    ensures Validate(f).email.None? && Validate(f).telephone.None?
  {
    TrimBlank(f.email);
    TrimBlank(f.telephone);
  }

  // ---------------------------------------------------------------------------
  // The order message
  // ---------------------------------------------------------------------------

  const NotGiven: string := "Non renseigné"
  const NotSpecified: string := "Non précisé"

  /** `value.trim() || fallback`. */
  function OrElse(value: string, fallback: string): string
  {
    if Trim(value) == [] then fallback else Trim(value)
  }

  /** The greeting and the contact lines. */
  function ContactLines(f: OrderForm): seq<string>
  {
    [ "Bonjour Luxury Market,", "", "Je souhaite passer une commande.", "",
      "Nom : " + Trim(f.nom),
      "Email : " + OrElse(f.email, NotGiven),
      "Téléphone : " + OrElse(f.telephone, NotGiven) ]
  }

  /** The line of one cart line; `formatPrice` stands for the French number
      format followed by " F". */
  function ItemLine(c: CartItem, formatPrice: real -> string): string
  {
    "- " + c.name + " x" + IntToString(c.quantity) + " : " + formatPrice(LineTotal(c))
  }

  /** One line per cart line, in cart order. */
  function ItemLines(items: seq<CartItem>, formatPrice: real -> string): (r: seq<string>)
    ensures |r| == |items|
  {
    if items == [] then [] else ItemLines(items[..|items| - 1], formatPrice) + [ItemLine(items[|items| - 1], formatPrice)]
  }

  function ArticleLine(article: string): string
  {
    "Article : " + OrElse(article, NotSpecified)
  }

  function TotalLine(items: seq<CartItem>, formatPrice: real -> string): string
  {
    "Total panier : " + formatPrice(Subtotal(items))
  }

  /** The cart part: a blank line, the heading, one line per cart line and
      the total. */
  function CartSection(items: seq<CartItem>, formatPrice: real -> string): seq<string>
  {
    ["", "Panier :"] + ItemLines(items, formatPrice) + [TotalLine(items, formatPrice)]
  }

  function MessageTail(f: OrderForm): seq<string>
  {
    ["", "Message :", Trim(f.message)]
  }

  /** The message lines of `handleSubmit`: the cart section when the cart is
      loaded and not empty, otherwise the article line, then the message. */
  function MessageLines(f: OrderForm, items: seq<CartItem>, hydrated: bool, formatPrice: real -> string): seq<string>
  {
    ContactLines(f)
    + (if hydrated && |items| > 0 then CartSection(items, formatPrice) else [ArticleLine(f.article)])
    + MessageTail(f)
  }

  /** `handleSubmit`'s construction of the lines: the fixed head pushed, then
      the cart heading, one line per cart item inside `forEach` and the total,
      or else the article line, then the tail. */
  method BuildMessageLines(f: OrderForm, items: seq<CartItem>, hydrated: bool, formatPrice: real -> string)
    returns (lines: seq<string>)
    ensures lines == MessageLines(f, items, hydrated, formatPrice)
  {
    lines := ContactLines(f);
    ghost var head := lines;
    if hydrated && |items| > 0 {
      lines := PushItemLines(lines + ["", "Panier :"], items, formatPrice);
      lines := lines + [TotalLine(items, formatPrice)];
      CartSectionPushed(head, items, formatPrice);
    } else {
      lines := lines + [ArticleLine(f.article)];
    }
    lines := lines + MessageTail(f);
  }

  /** Pushing the heading, the item lines and the total after `head` gives
      `head` followed by the cart section. */
  lemma CartSectionPushed(head: seq<string>, items: seq<CartItem>, formatPrice: real -> string)
    ensures head + ["", "Panier :"] + ItemLines(items, formatPrice) + [TotalLine(items, formatPrice)]
            == head + CartSection(items, formatPrice)
  {
  }

  /** `items.forEach(item => lines.push(...))`. */
  method PushItemLines(start: seq<string>, items: seq<CartItem>, formatPrice: real -> string)
    returns (lines: seq<string>)
    ensures lines == start + ItemLines(items, formatPrice)
  {
    lines := start;
    var i := 0;
    while i < |items|
      invariant 0 <= i <= |items|
      invariant lines == start + ItemLines(items[..i], formatPrice)
    {
      assert items[..i + 1][..i] == items[..i];
      lines := lines + [ItemLine(items[i], formatPrice)];
      i := i + 1;
    }
    assert items[..i] == items;
  }

  lemma {:induction false} ItemLinesAt(items: seq<CartItem>, formatPrice: real -> string, k: nat)
    requires k < |items|
    ensures ItemLines(items, formatPrice)[k] == ItemLine(items[k], formatPrice)
  {
    if k < |items| - 1 {
      ItemLinesAt(items[..|items| - 1], formatPrice, k);
    }
  }

  /** An email or phone left blank reads "Non renseigné"; a given one reads
      trimmed. */
  lemma ContactLinesSpec(f: OrderForm, items: seq<CartItem>, hydrated: bool, formatPrice: real -> string)
    ensures var lines := MessageLines(f, items, hydrated, formatPrice);
            && lines[4] == "Nom : " + Trim(f.nom)
            && (AllSpace(f.email) ==> lines[5] == "Email : " + NotGiven)
            && (!AllSpace(f.email) ==> lines[5] == "Email : " + Trim(f.email))
            && (AllSpace(f.telephone) ==> lines[6] == "Téléphone : " + NotGiven)
            && (!AllSpace(f.telephone) ==> lines[6] == "Téléphone : " + Trim(f.telephone))
            && lines[|lines| - 1] == Trim(f.message)
  {
    TrimBlank(f.email);
    TrimBlank(f.telephone);
  }

  /** With a loaded, non-empty cart the message has the cart heading, one
      line per cart line and the total between the contact lines and the
      message. */
  lemma CartMessage(f: OrderForm, items: seq<CartItem>, hydrated: bool, formatPrice: real -> string)
    requires hydrated && |items| > 0
    ensures var lines := MessageLines(f, items, hydrated, formatPrice);
            && |lines| == |items| + 13
            && lines[8] == "Panier :"
            && lines[9 + |items|] == TotalLine(items, formatPrice)
  {
    var lines := MessageLines(f, items, hydrated, formatPrice);
    assert lines == ContactLines(f) + CartSection(items, formatPrice) + MessageTail(f);
  }

  /** The `k`-th line of the cart appears as the `k`-th item line, so the
      items are listed in cart order. */
  lemma CartMessageItem(f: OrderForm, items: seq<CartItem>, hydrated: bool, formatPrice: real -> string, k: nat)
    requires hydrated && k < |items|
    ensures var lines := MessageLines(f, items, hydrated, formatPrice);
            9 + k < |lines| && lines[9 + k] == ItemLine(items[k], formatPrice)
  {
    var section := CartSection(items, formatPrice);
    ItemLinesAt(items, formatPrice, k);
    ConcatMiddle(["", "Panier :"], ItemLines(items, formatPrice), [TotalLine(items, formatPrice)], k);
    ConcatMiddle(ContactLines(f), section, MessageTail(f), 2 + k);
  }

  /** Only an article line and the typed message can start with "A". */
  predicate NotArticleHead(line: string)
  {
    line == [] || line[0] != 'A'
  }

  lemma ContactLinesHeads(f: OrderForm)
    ensures forall i :: 0 <= i < 7 ==> NotArticleHead(ContactLines(f)[i])
  {
    var c := ContactLines(f);
    assert c[4][0] == 'N' && c[5][0] == 'E' && c[6][0] == 'T';
  }

  lemma CartSectionHeads(items: seq<CartItem>, formatPrice: real -> string)
    ensures forall i :: 0 <= i < |items| + 3 ==> NotArticleHead(CartSection(items, formatPrice)[i])
  {
    var section := CartSection(items, formatPrice);
    forall i | 0 <= i < |items| + 3 ensures NotArticleHead(section[i]) {
      if 2 <= i < |items| + 2 {
        ItemLinesAt(items, formatPrice, i - 2);
        assert section[i][0] == '-';
      } else if i == |items| + 2 {
        assert section[i][0] == 'T';
      }
    }
  }

  /** With a loaded, non-empty cart no line before the typed message is an
      article line. */
  lemma CartMessageHasNoArticle(f: OrderForm, items: seq<CartItem>, hydrated: bool, formatPrice: real -> string, article: string)
    requires hydrated && |items| > 0
    ensures var lines := MessageLines(f, items, hydrated, formatPrice);
            forall i :: 0 <= i < |lines| - 1 ==> lines[i] != ArticleLine(article)
  {
    var lines := MessageLines(f, items, hydrated, formatPrice);
    var section := CartSection(items, formatPrice);
    ContactLinesHeads(f);
    CartSectionHeads(items, formatPrice);
    assert lines == ContactLines(f) + section + MessageTail(f);
    assert ArticleLine(article)[0] == 'A';
    forall i | 0 <= i < |lines| - 1 ensures NotArticleHead(lines[i]) {
      if i < 7 {
        assert lines[i] == ContactLines(f)[i];
      } else if i < 7 + |section| {
        assert lines[i] == section[i - 7];
      } else {
        assert lines[i] == MessageTail(f)[i - 7 - |section|];
      }
    }
  }

  /** Without a cart the message has a single article line, "Non précisé"
      when no article was given. */
  lemma ArticleMessage(f: OrderForm, items: seq<CartItem>, hydrated: bool, formatPrice: real -> string)
    requires !hydrated || items == []
    ensures var lines := MessageLines(f, items, hydrated, formatPrice);
            && |lines| == 11
            && lines[7] == "Article : " + (if AllSpace(f.article) then NotSpecified else Trim(f.article))
  {
    TrimBlank(f.article);
  }
}
