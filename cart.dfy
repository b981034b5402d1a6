/** The shopping cart: a list of lines keyed by product id, restored from
    local storage, changed by add, update, remove and clear, and summarised by
    its item count and subtotal. */
module Cart {
  import opened Wrappers
  import opened Seqs
  import opened Json
  import opened Products

  /** What a caller hands to `addItem`: the product fields a line keeps. */
  datatype CartProduct = CartProduct(
    id: string, slug: string, name: string, price: real, image: string,
    universe: Universe, category: string)

  datatype CartItem = CartItem(
    id: string, slug: string, name: string, price: real, image: string,
    universe: Universe, category: string, quantity: int)

  function ItemOf(p: CartProduct, quantity: int): CartItem
  {
    CartItem(p.id, p.slug, p.name, p.price, p.image, p.universe, p.category, quantity)
  }

  // ---------------------------------------------------------------------------
  // clampQuantity
  // ---------------------------------------------------------------------------

  /** `clampQuantity`: a non-finite number counts as 1, anything else is
      rounded down and raised to at least 1. */
  function ClampQuantity(q: Number): (r: int)
    ensures r >= 1
    ensures q.Finite? ==> r >= q.r.Floor && (q.r >= 1.0 ==> r == q.r.Floor)
    ensures q.Finite? && q.r < 1.0 ==> r == 1
    ensures !q.Finite? ==> r == 1
  {
    if !q.Finite? then 1 else if q.r.Floor < 1 then 1 else q.r.Floor
  }

  /** On whole numbers the clamp is `max(1, q)`. */
  lemma ClampWhole(n: int)
    ensures ClampQuantity(Finite(n as real)) == if n < 1 then 1 else n
  {
  }

  /** A quantity the clamp produced passes through it unchanged. */
  lemma ClampIdempotent(q: Number)
    ensures ClampQuantity(Finite(ClampQuantity(q) as real)) == ClampQuantity(q)
  {
    ClampWhole(ClampQuantity(q));
  }

  // ---------------------------------------------------------------------------
  // parseStoredCart
  // ---------------------------------------------------------------------------

  function StringField(v: Value, key: string): Option<string>
  {
    match Get(v, key)
    case Some(Str(s)) => Some(s)
    case _ => None
  }

  function UniverseField(v: Value): Option<Universe>
  {
    match Get(v, "universe")
    case Some(Str(s)) => if s == "mode" then Some(Mode) else if s == "tout" then Some(Tout) else None
    case _ => None
  }

  /** The `filter` test of `parseStoredCart`: an object with string id, slug,
      name, image and category, a number price, a known universe and some
      quantity. */
  predicate StoredEntryKept(v: Value)
  {
    && v.Obj? && StringField(v, "id").Some? && StringField(v, "slug").Some?
    && StringField(v, "name").Some? && Get(v, "price").Some? && Get(v, "price").value.Num?
    && StringField(v, "image").Some? && UniverseField(v).Some?
    && StringField(v, "category").Some? && Get(v, "quantity").Some?
  }

  /** A kept entry whose `Number(item.quantity)` throws. */
  predicate QuantityThrows(v: Value)
  {
    StoredEntryKept(v) && CoercionThrows(Get(v, "quantity").value)
  }

  /** The `map` of `parseStoredCart` for one stored entry: the kept fields,
      with the quantity clamped; `None` for an entry the filter drops or whose
      quantity cannot be converted. */
  function StoredItem(showNumber: real -> string): Value -> Option<CartItem>
  {
    (v: Value) =>
      if !StoredEntryKept(v) then None
      else
        match ToNumber(Get(v, "quantity").value, showNumber)
        case None => None
        case Some(q) =>
          Some(CartItem(StringField(v, "id").value, StringField(v, "slug").value,
                        StringField(v, "name").value, Get(v, "price").value.n,
                        StringField(v, "image").value, UniverseField(v).value,
                        StringField(v, "category").value, ClampQuantity(q)))
  }

  /** `parseStoredCart` after `JSON.parse`: `None` stands for a missing or
      empty entry and for text that does not parse. The filter and the map
      run inside the `try`, so a kept entry whose quantity cannot be
      converted empties the whole cart. */
  function ParseStoredCart(stored: Option<Value>, showNumber: real -> string): (r: seq<CartItem>)
    ensures stored.None? || !stored.value.Arr? ==> r == []
    ensures stored.Some? && stored.value.Arr?
            && (exists i :: 0 <= i < |stored.value.items| && QuantityThrows(stored.value.items[i]))
            ==> r == []
    ensures forall i :: 0 <= i < |r| ==> r[i].quantity >= 1
  {
    match stored
    case Some(Arr(entries)) =>
      if exists i :: 0 <= i < |entries| && QuantityThrows(entries[i]) then []
      else
        FilterMapKeeps(StoredItem(showNumber), entries, (c: CartItem) => c.quantity >= 1);
        FilterMap(StoredItem(showNumber), entries)
    case _ => []
  }

  /** One stored line whose quantity cannot be converted, such as
      `{"toString": 1}`, restores the empty cart, whatever the other lines
      hold. */
  lemma UnconvertibleQuantityEmptiesCart(showNumber: real -> string, before: seq<Value>, after: seq<Value>,
                                         c: CartItem, q: Value)
    requires CoercionThrows(q)
    ensures ParseStoredCart(Some(Arr(before + [StoredWithQuantity(c, q)] + after)), showNumber) == []
  {
    var entries := before + [StoredWithQuantity(c, q)] + after;
    TextQuantityLeadingFields(c, q);
    TextQuantityTrailingFields(c, q);
    assert entries[|before|] == StoredWithQuantity(c, q);
    assert QuantityThrows(entries[|before|]);
  }

  /** The line `{..., "quantity": {"toString": 1}}` on its own. */
  lemma ToStringQuantityEmptiesCart(showNumber: real -> string, c: CartItem, q: Value)
    requires q == Obj([("toString", Num(1.0))])
    ensures ParseStoredCart(Some(Arr([StoredWithQuantity(c, q)])), showNumber) == []
  {
    assert CoercionThrows(q);
    UnconvertibleQuantityEmptiesCart(showNumber, [], [], c, q);
    assert [] + [StoredWithQuantity(c, q)] + [] == [StoredWithQuantity(c, q)];
  }

  /** `JSON.stringify` of a line, as the value `JSON.parse` gives back. */
  function StoredForm(c: CartItem): Value
  {
    Obj(StoredEntries(c))
  }

  /** `JSON.stringify(items)`, as the value `JSON.parse` gives back. */
  function StoredCart(items: seq<CartItem>): Value
  {
    Arr(StoredLines(items))
  }

  function StoredLines(items: seq<CartItem>): (r: seq<Value>)
    ensures |r| == |items|
    ensures forall i :: 0 <= i < |r| ==> r[i] == StoredForm(items[i])
  {
    if items == [] then [] else StoredLines(items[..|items| - 1]) + [StoredForm(items[|items| - 1])]
  }

  predicate QuantitiesPositive(items: seq<CartItem>)
  {
    forall i :: 0 <= i < |items| ==> items[i].quantity >= 1
  }

  /** The entries `StoredForm` writes, in order. */
  function StoredEntries(c: CartItem): seq<(string, Value)>
  {
    [("id", Str(c.id)), ("slug", Str(c.slug)), ("name", Str(c.name)), ("price", Num(c.price)),
     ("image", Str(c.image)), ("universe", Str(if c.universe == Mode then "mode" else "tout")),
     ("category", Str(c.category)), ("quantity", Num(c.quantity as real))]
  }

  lemma StoredLeadingFields(c: CartItem)
    ensures var v := StoredForm(c);
            && StringField(v, "id") == Some(c.id)
            && StringField(v, "slug") == Some(c.slug)
            && StringField(v, "name") == Some(c.name)
            && Get(v, "price") == Some(Num(c.price))
  {
    var e := StoredEntries(c);
    LookupAt(e, 0, "id");
    LookupAt(e, 1, "slug");
    LookupAt(e, 2, "name");
    LookupAt(e, 3, "price");
  }

  lemma StoredTrailingFields(c: CartItem)
    ensures var v := StoredForm(c);
            && StringField(v, "image") == Some(c.image)
            && UniverseField(v) == Some(c.universe)
            && StringField(v, "category") == Some(c.category)
            && Get(v, "quantity") == Some(Num(c.quantity as real))
  {
    var e := StoredEntries(c);
    LookupAt(e, 4, "image");
    LookupAt(e, 5, "universe");
    LookupAt(e, 6, "category");
    LookupAt(e, 7, "quantity");
  }

  lemma StoredItemRoundTrip(showNumber: real -> string, c: CartItem)
    requires c.quantity >= 1
    ensures StoredItem(showNumber)(StoredForm(c)) == Some(c)
  {
    StoredLeadingFields(c);
    StoredTrailingFields(c);
    ClampWhole(c.quantity);
  }

  /** A stored line whose quantity is some other value `q`. */
  function StoredWithQuantity(c: CartItem, q: Value): Value
  {
    Obj(StoredEntries(c)[..7] + [("quantity", q)])
  }

  /** A quantity stored as text goes through `Number` and the clamp. */
  lemma {:induction false} StoredTextQuantity(showNumber: real -> string, c: CartItem, text: string)
    ensures StoredItem(showNumber)(StoredWithQuantity(c, Str(text)))
            == Some(c.(quantity := ClampQuantity(StringToNumber(text))))
  {
    TextQuantityLeadingFields(c, Str(text));
    TextQuantityTrailingFields(c, Str(text));
  }

  lemma TextQuantityLeadingFields(c: CartItem, q: Value)
    ensures var v := StoredWithQuantity(c, q);
            && StringField(v, "id") == Some(c.id)
            && StringField(v, "slug") == Some(c.slug)
            && StringField(v, "name") == Some(c.name)
            && Get(v, "price") == Some(Num(c.price))
  {
    var e := StoredEntries(c)[..7] + [("quantity", q)];
    LookupAt(e, 0, "id");
    LookupAt(e, 1, "slug");
    LookupAt(e, 2, "name");
    LookupAt(e, 3, "price");
  }

  lemma TextQuantityTrailingFields(c: CartItem, q: Value)
    ensures var v := StoredWithQuantity(c, q);
            && StringField(v, "image") == Some(c.image)
            && UniverseField(v) == Some(c.universe)
            && StringField(v, "category") == Some(c.category)
            && Get(v, "quantity") == Some(q)
  {
    var e := StoredEntries(c)[..7] + [("quantity", q)];
    LookupAt(e, 4, "image");
    LookupAt(e, 5, "universe");
    LookupAt(e, 6, "category");
    LookupAt(e, 7, "quantity");
  }

  /** Text in exponent notation, such as "1e1", restores as the number it
      denotes. */
  lemma {:induction false} StoredExponentQuantity(showNumber: real -> string, c: CartItem, m: nat, x: nat)
    requires m * Pow10(x) >= 1
    ensures StoredItem(showNumber)(StoredWithQuantity(c, Str(Text.NatToString(m) + "e" + Text.NatToString(x))))
            == Some(c.(quantity := m * Pow10(x)))
  {
    StoredTextQuantity(showNumber, c, Text.NatToString(m) + "e" + Text.NatToString(x));
    NumberOfExponent(m, x);
    ClampWhole(m * Pow10(x));
  }

  /** What the cart writes to local storage it reads back unchanged. */
  lemma {:induction false} StoredCartRoundTrip(items: seq<CartItem>, showNumber: real -> string)
    requires QuantitiesPositive(items)
    ensures ParseStoredCart(Some(StoredCart(items)), showNumber) == items
  {
    forall i | 0 <= i < |StoredLines(items)|
      ensures !QuantityThrows(StoredLines(items)[i])
    {
      StoredTrailingFields(items[i]);
    }
    StoredCartPrefix(items, showNumber);
  }

  lemma {:induction false} StoredCartPrefix(items: seq<CartItem>, showNumber: real -> string)
    requires QuantitiesPositive(items)
    ensures FilterMap(StoredItem(showNumber), StoredLines(items)) == items
  {
    if items != [] {
      var init := items[..|items| - 1];
      var last := items[|items| - 1];
      StoredCartPrefix(init, showNumber);
      FilterMapSnoc(StoredItem(showNumber), StoredLines(init), StoredForm(last));
      StoredItemRoundTrip(showNumber, last);
      LastSplit(items);
    }
  }

  // ---------------------------------------------------------------------------
  // The updaters passed to setItems
  // ---------------------------------------------------------------------------

  function HasItemId(id: string): CartItem -> bool
  {
    (c: CartItem) => c.id == id
  }

  function LacksItemId(id: string): CartItem -> bool
  {
    (c: CartItem) => c.id != id
  }

  predicate UniqueIds(items: seq<CartItem>)
  {
    forall i, j :: 0 <= i < j < |items| ==> items[i].id != items[j].id
  }

  /** The `map` of `addItem` for a product already in the cart. */
  function Bumped(items: seq<CartItem>, id: string, qty: int): (r: seq<CartItem>)
    ensures |r| == |items|
  {
    seq(|items|, i requires 0 <= i < |items| =>
      if items[i].id == id
      then items[i].(quantity := ClampQuantity(Finite((items[i].quantity + qty) as real)))
      else items[i])
  }

  /** The updater of `addItem`: a new line at the end for an unseen id,
      otherwise the quantity of the line with that id grows. */
  function Added(items: seq<CartItem>, p: CartProduct, qty: int): seq<CartItem>
  {
    if FirstWhere(HasItemId(p.id), items).None? then items + [ItemOf(p, qty)]
    else Bumped(items, p.id, qty)
  }

  /** The `map` of `updateQuantity` for a positive quantity. */
  function WithQuantity(items: seq<CartItem>, id: string, qty: int): (r: seq<CartItem>)
    ensures |r| == |items|
  {
    seq(|items|, i requires 0 <= i < |items| => if items[i].id == id then items[i].(quantity := qty) else items[i])
  }

  /** The `filter` of `removeItem`, and of `updateQuantity` for a quantity
      that is not positive. */
  function Without(items: seq<CartItem>, id: string): seq<CartItem>
  {
    Filter(LacksItemId(id), items)
  }

  /** `quantity <= 0` on a JavaScript number: false for NaN. */
  predicate NotPositive(q: Number)
  {
    match q
    case Finite(r) => r <= 0.0
    case NegInf => true
    case _ => false
  }

  /** The updater of `updateQuantity`. */
  function Updated(items: seq<CartItem>, id: string, quantity: Number): seq<CartItem>
  {
    if NotPositive(quantity) then Without(items, id) else WithQuantity(items, id, ClampQuantity(quantity))
  }

  // ---------------------------------------------------------------------------
  // Totals
  // ---------------------------------------------------------------------------

  /** `itemCount`: the sum of the quantities. */
  function ItemCount(items: seq<CartItem>): int
  {
    if items == [] then 0 else ItemCount(items[..|items| - 1]) + items[|items| - 1].quantity
  }

  function LineTotal(c: CartItem): real
  {
    c.price * c.quantity as real
  }

  /** `subtotal`: the sum of price times quantity. */
  function Subtotal(items: seq<CartItem>): real
  {
    if items == [] then 0.0 else Subtotal(items[..|items| - 1]) + LineTotal(items[|items| - 1])
  }

  lemma TotalsSnoc(s: seq<CartItem>, x: CartItem)
    ensures ItemCount(s + [x]) == ItemCount(s) + x.quantity
    ensures Subtotal(s + [x]) == Subtotal(s) + LineTotal(x)
  {
    assert (s + [x])[..|s|] == s;
  }

  lemma {:induction false} TotalsConcat(a: seq<CartItem>, b: seq<CartItem>)
    ensures ItemCount(a + b) == ItemCount(a) + ItemCount(b)
    ensures Subtotal(a + b) == Subtotal(a) + Subtotal(b)
  {
    if b != [] {
      var init := b[..|b| - 1];
      var last := b[|b| - 1];
      TotalsConcat(a, init);
      LastSplit(b);
      assert a + b == (a + init) + [last];
      TotalsSnoc(a + init, last);
      TotalsSnoc(init, last);
    } else {
      assert a + b == a;
    }
  }

  /** Changing one line changes the totals by that line's difference. */
  lemma TotalsReplace(items: seq<CartItem>, k: nat, c: CartItem)
    requires k < |items|
    ensures ItemCount(items[k := c]) == ItemCount(items) - items[k].quantity + c.quantity
    ensures Subtotal(items[k := c]) == Subtotal(items) - LineTotal(items[k]) + LineTotal(c)
  {
    var pre := items[..k];
    var post := items[k + 1..];
    assert items == pre + [items[k]] + post;
    assert items[k := c] == pre + [c] + post;
    TotalsConcat(pre + [items[k]], post);
    TotalsConcat(pre + [c], post);
    TotalsSnoc(pre, items[k]);
    TotalsSnoc(pre, c);
  }

  /** Adding an unseen product appends one line with the clamped quantity and
      raises the totals by exactly that line. */
  lemma AddedNew(items: seq<CartItem>, p: CartProduct, qty: int)
    requires forall i :: 0 <= i < |items| ==> items[i].id != p.id
    ensures Added(items, p, qty) == items + [ItemOf(p, qty)]
    ensures ItemCount(Added(items, p, qty)) == ItemCount(items) + qty
    ensures Subtotal(Added(items, p, qty)) == Subtotal(items) + LineTotal(ItemOf(p, qty))
  {
    assert FirstWhere(HasItemId(p.id), items).None?;
    var r := Added(items, p, qty);
    assert r == items + [ItemOf(p, qty)];
    TotalsSnoc(items, ItemOf(p, qty));
  }

  /** Adding a product already in a cart with distinct ids and positive
      quantities keeps the length and raises only that line's quantity; the
      line keeps its own price. */
  lemma AddedExisting(items: seq<CartItem>, p: CartProduct, qty: int, k: nat)
    requires UniqueIds(items) && QuantitiesPositive(items) && qty >= 1
    requires k < |items| && items[k].id == p.id
    ensures Added(items, p, qty) == items[k := items[k].(quantity := items[k].quantity + qty)]
    ensures ItemCount(Added(items, p, qty)) == ItemCount(items) + qty
    ensures Subtotal(Added(items, p, qty)) == Subtotal(items) + items[k].price * qty as real
  {
    assert FirstWhere(HasItemId(p.id), items).Some?;
    BumpedAt(items, p.id, qty, k);
    TotalsBump(items, k, qty);
  }

  /** Raising one line's quantity by `qty` raises the count by `qty` and the
      subtotal by that line's price times `qty`. */
  lemma TotalsBump(items: seq<CartItem>, k: nat, qty: int)
    requires k < |items|
    ensures ItemCount(items[k := items[k].(quantity := items[k].quantity + qty)]) == ItemCount(items) + qty
    ensures Subtotal(items[k := items[k].(quantity := items[k].quantity + qty)])
            == Subtotal(items) + items[k].price * qty as real
  {
    var c := items[k].(quantity := items[k].quantity + qty);
    TotalsReplace(items, k, c);
    LineTotalBump(items[k], qty);
  }

  lemma LineTotalBump(x: CartItem, qty: int)
    ensures LineTotal(x.(quantity := x.quantity + qty)) == LineTotal(x) + x.price * qty as real
  {
    assert (x.quantity + qty) as real == x.quantity as real + qty as real;
    assert x.price * (x.quantity as real + qty as real) == x.price * x.quantity as real + x.price * qty as real;
  }

  /** On distinct ids the `map` of `addItem` touches only the line at `k`. */
  lemma BumpedAt(items: seq<CartItem>, id: string, qty: int, k: nat)
    requires UniqueIds(items) && QuantitiesPositive(items) && qty >= 1
    requires k < |items| && items[k].id == id
    ensures Bumped(items, id, qty) == items[k := items[k].(quantity := items[k].quantity + qty)]
  {
    var r := Bumped(items, id, qty);
    ClampWhole(items[k].quantity + qty);
    assert r[k] == items[k].(quantity := items[k].quantity + qty);
    forall i | 0 <= i < |items| && i != k ensures r[i] == items[i] {
      if i < k {
        assert items[i].id != items[k].id;
      } else {
        assert items[k].id != items[i].id;
      }
    }
  }

  /** Adding keeps the ids distinct and the quantities positive. */
  lemma AddedInvariant(items: seq<CartItem>, p: CartProduct, qty: int)
    requires qty >= 1
    ensures UniqueIds(items) ==> UniqueIds(Added(items, p, qty))
    ensures QuantitiesPositive(items) ==> QuantitiesPositive(Added(items, p, qty))
  {
    var r := Added(items, p, qty);
    if FirstWhere(HasItemId(p.id), items).None? {
      assert forall i :: 0 <= i < |items| ==> r[i] == items[i];
    } else {
      assert forall i :: 0 <= i < |items| ==> r[i].id == items[i].id;
    }
  }

  /** Removing keeps the other lines in order and drops every line with the
      id; on distinct ids it drops exactly one line and its quantity. */
  lemma WithoutEffect(items: seq<CartItem>, id: string, k: nat)
    requires UniqueIds(items) && k < |items| && items[k].id == id
    ensures Without(items, id) == items[..k] + items[k + 1..]
    ensures ItemCount(Without(items, id)) == ItemCount(items) - items[k].quantity
  {
    WithoutShape(items, id, k);
    TotalsRemove(items, k);
  }

  /** Dropping one line lowers the count by its quantity. */
  lemma {:induction false} TotalsRemove(items: seq<CartItem>, k: nat)
    requires k < |items|
    ensures ItemCount(items[..k] + items[k + 1..]) == ItemCount(items) - items[k].quantity
  {
    var pre := items[..k];
    var post := items[k + 1..];
    var x := items[k];
    assert items == (pre + [x]) + post;
    TotalsConcat(pre + [x], post);
    TotalsSnoc(pre, x);
    TotalsConcat(pre, post);
  }

  lemma WithoutShape(items: seq<CartItem>, id: string, k: nat)
    requires UniqueIds(items) && k < |items| && items[k].id == id
    ensures Without(items, id) == items[..k] + items[k + 1..]
  {
    forall i | 0 <= i < |items| && i != k ensures items[i].id != id {
      if i < k {
        assert items[i].id != items[k].id;
      } else {
        assert items[k].id != items[i].id;
      }
    }
    FilterOnlyAt(LacksItemId(id), items, k);
  }

  /** Removing an id that is not in the cart changes nothing. */
  lemma WithoutAbsent(items: seq<CartItem>, id: string)
    requires forall i :: 0 <= i < |items| ==> items[i].id != id
    ensures Without(items, id) == items
  {
    FilterAll(LacksItemId(id), items);
  }

  /** A positive update sets only that line's quantity, to the clamped value. */
  lemma UpdatedEffect(items: seq<CartItem>, id: string, quantity: Number, k: nat)
    requires !NotPositive(quantity)
    requires k < |items| && items[k].id == id && UniqueIds(items)
    ensures Updated(items, id, quantity) == items[k := items[k].(quantity := ClampQuantity(quantity))]
    ensures ItemCount(Updated(items, id, quantity)) == ItemCount(items) - items[k].quantity + ClampQuantity(quantity)
  {
    var c := items[k].(quantity := ClampQuantity(quantity));
    assert Updated(items, id, quantity) == items[k := c];
    TotalsReplace(items, k, c);
  }

  /** Updating and removing keep the ids distinct and the quantities positive. */
  lemma UpdatedInvariant(items: seq<CartItem>, id: string, quantity: Number)
    ensures UniqueIds(items) ==> UniqueIds(Updated(items, id, quantity))
    ensures QuantitiesPositive(items) ==> QuantitiesPositive(Updated(items, id, quantity))
  {
    WithoutInvariant(items, id);
    var w := WithQuantity(items, id, ClampQuantity(quantity));
    assert forall i :: 0 <= i < |items| ==> w[i].id == items[i].id;
  }

  lemma WithoutInvariant(items: seq<CartItem>, id: string)
    ensures UniqueIds(items) ==> UniqueIds(Without(items, id))
    ensures QuantitiesPositive(items) ==> QuantitiesPositive(Without(items, id))
  {
    if UniqueIds(items) {
      FilterUniqueIds(LacksItemId(id), items);
    }
    if QuantitiesPositive(items) {
      FilterKeeps(LacksItemId(id), items, (c: CartItem) => c.quantity >= 1);
    }
  }

  lemma {:induction false} FilterUniqueIds(f: CartItem -> bool, items: seq<CartItem>)
    requires UniqueIds(items)
    ensures UniqueIds(Filter(f, items))
  {
    if items != [] {
      FilterUniqueIds(f, items[1..]);
      var t := Filter(f, items[1..]);
      forall k | 0 <= k < |t| ensures t[k].id != items[0].id {
        assert t[k] in items[1..];
      }
      var r := Filter(f, items);
      if f(items[0]) {
        assert r == [items[0]] + t;
        forall i, j | 0 <= i < j < |r| ensures r[i].id != r[j].id {
          if i == 0 {
            assert r[j] == t[j - 1];
          } else {
            assert r[i] == t[i - 1] && r[j] == t[j - 1];
          }
        }
      }
    }
  }

  /** The cart: its lines and the operations `CartProvider` exposes. */
  class CartState {
    var items: seq<CartItem>

    /** The initial state read from local storage. */
    constructor (stored: Option<Value>, showNumber: real -> string)
      ensures items == ParseStoredCart(stored, showNumber)
      ensures QuantitiesPositive(items)
    {
      items := ParseStoredCart(stored, showNumber);
    }

    /** `addItem`; a caller that gives no quantity passes 1. */
    method AddItem(product: CartProduct, quantity: Number)
      modifies this
      ensures items == Added(old(items), product, ClampQuantity(quantity))
      ensures old(QuantitiesPositive(items)) ==> QuantitiesPositive(items)
      ensures old(UniqueIds(items)) ==> UniqueIds(items)
    {
      var qty := ClampQuantity(quantity);
      AddedInvariant(items, product, qty);
      items := Added(items, product, qty);
    }

    /** `updateQuantity`. */
    method UpdateQuantity(productId: string, quantity: Number)
      modifies this
      ensures items == Updated(old(items), productId, quantity)
      ensures old(QuantitiesPositive(items)) ==> QuantitiesPositive(items)
      ensures old(UniqueIds(items)) ==> UniqueIds(items)
    {
      UpdatedInvariant(items, productId, quantity);
      if NotPositive(quantity) {
        items := Without(items, productId);
        return;
      }
      var qty := ClampQuantity(quantity);
      items := WithQuantity(items, productId, qty);
    }

    /** `removeItem`. */
    method RemoveItem(productId: string)
      modifies this
      ensures items == Without(old(items), productId)
      ensures old(QuantitiesPositive(items)) ==> QuantitiesPositive(items)
      ensures old(UniqueIds(items)) ==> UniqueIds(items)
    {
      WithoutInvariant(items, productId);
      items := Without(items, productId);
    }

    /** `clearCart`. */
    method ClearCart()
      modifies this
      ensures items == [] && ItemCount(items) == 0 && Subtotal(items) == 0.0
    {
      items := [];
    }
  }
}
