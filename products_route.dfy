/** The administration endpoint `/api/admin/products`: `GET` lists the products
    and `POST` validates a JSON body and adds the product it describes, both
    behind the administrator check. */
module ProductsRoute {
  import opened Wrappers
  import opened Text
  import opened Json
  import opened Products

  /** The response the handler returns: a JSON body with a status. */
  datatype Response =
    | ProductList(products: seq<Product>)
    | Created(product: Product)
    | Failure(status: int, error: string)
      /** An exception the handler does not catch; the framework answers 500. */
    | Uncaught

  const Unauthorized: string := "Non autorisé."
  const FieldsRequired: string := "Champs requis : name, price, category, universe, image, description."
  const BadUniverse: string := "universe doit être 'mode' ou 'tout'."
  const AddFailed: string := "Erreur lors de l'ajout."

  /** `GET`: 401 for anyone but the administrator, otherwise every product. */
  method HandleGet(store: ProductStore, isAdmin: bool) returns (r: Response)
    ensures !isAdmin ==> r == Failure(401, Unauthorized)
    ensures isAdmin ==> r == ProductList(store.FromFile())
  {
    if !isAdmin {
      return Failure(401, Unauthorized);
    }
    r := ProductList(store.FromFile());
  }

  /** `request.json().catch(() => ({}))`: `None` is a body that does not parse. */
  function ParsedBody(body: Option<Value>): Value
  {
    body.GetOr(Obj([]))
  }

  /** A property read by the destructuring: undefined (`None`) on a value that
      is not an object or lacks the key. */
  function Field(body: Value, key: string): Option<Value>
  {
    Get(body, key)
  }

  /** `!!v` on a property that may be undefined. */
  predicate Given(v: Option<Value>)
  {
    v.Some? && Truthy(v.value)
  }

  /** `String(v).trim()` on a property the checks have shown is present;
      `Err(Uncaught)` when `String` throws. */
  function TrimmedField(v: Value, showNumber: real -> string): (r: Result<string, Response>)
    ensures r.Err? <==> CoercionThrows(v)
    ensures r.Err? ==> r.error == Uncaught
    ensures r.Ok? ==> r.value == Trim(ToStr(v, showNumber).value)
  {
    match ToStr(v, showNumber)
    case None => Err(Uncaught)
    case Some(text) => Ok(Trim(text))
  }

  /** `if (color != null) input.color = String(color).trim() || undefined`;
      `Err(Uncaught)` when `String` throws. */
  function ColorOf(color: Option<Value>, showNumber: real -> string): (r: Result<Option<string>, Response>)
    ensures color.None? || color == Some(Null) ==> r == Ok(None)
    ensures r.Err? <==> color.Some? && CoercionThrows(color.value)
    ensures r.Err? ==> r.error == Uncaught
    ensures r.Ok? && r.value.Some? ==> r.value.value != [] && r.value.value == Trim(ToStr(color.value, showNumber).value)
    ensures r.Ok? && color.Some? && !color.value.Null? && Trim(ToStr(color.value, showNumber).value) != [] ==> r.value.Some?
  {
    if color.None? || color.value.Null? then Ok(None)
    else
      match ToStr(color.value, showNumber)
      case None => Err(Uncaught)
      case Some(text) =>
        var c := Trim(text);
        if c == [] then Ok(None) else Ok(Some(c))
  }

  /** `if (Array.isArray(sizes)) input.sizes = sizes.map(String)`;
      `Err(Uncaught)` when `String` throws on an element. */
  function SizesOf(sizes: Option<Value>, showNumber: real -> string): (r: Result<Option<seq<string>>, Response>)
    ensures r.Err? <==> sizes.Some? && sizes.value.Arr? && CoercionThrows(sizes.value)
    ensures r.Err? ==> r.error == Uncaught
    ensures r.Ok? ==> (r.value.Some? <==> sizes.Some? && sizes.value.Arr?)
    ensures r.Ok? && r.value.Some? ==>
              && |r.value.value| == |sizes.value.items|
              && forall i :: 0 <= i < |r.value.value| ==>
                   Some(r.value.value[i]) == ToStr(sizes.value.items[i], showNumber)
  {
    if sizes.Some? && sizes.value.Arr? then
      var items := sizes.value.items;
      if exists i :: 0 <= i < |items| && CoercionThrows(items[i]) then Err(Uncaught)
      else Ok(Some(seq(|items|, i requires 0 <= i < |items| => ToStr(items[i], showNumber).value)))
    else Ok(None)
  }

  /** Whether a property is present and `String` throws on it. */
  predicate FieldThrows(body: Value, key: string)
  {
    Field(body, key).Some? && CoercionThrows(Field(body, key).value)
  }

  /** Whether building the product input throws: on a text field, on the
      color, or on an element of an array of sizes. */
  predicate InputThrows(body: Value)
  {
    || FieldThrows(body, "name") || FieldThrows(body, "category")
    || FieldThrows(body, "image") || FieldThrows(body, "description")
    || FieldThrows(body, "color")
    || (Field(body, "sizes").Some? && Field(body, "sizes").value.Arr? && FieldThrows(body, "sizes"))
  }

  /** The checks of `POST` on a parsed body: a `null` body makes the
      destructuring throw; a missing or falsy field or a price that is not a
      number gives 400, then a universe other than "mode" or "tout" gives 400;
      then building the input throws when `String` does on one of its fields;
      otherwise the product input, with its text fields trimmed. */
  function CheckBody(body: Value, showNumber: real -> string): (r: Result<Product, Response>)
    ensures body.Null? ==> r == Err(Uncaught)
    ensures !body.Null? ==>
              var name, price, category := Field(body, "name"), Field(body, "price"), Field(body, "category");
              var universe, image, description := Field(body, "universe"), Field(body, "image"), Field(body, "description");
              var complete := Given(name) && price.Some? && price.value.Num? && Given(category)
                              && Given(universe) && Given(image) && Given(description);
              var known := universe == Some(Str("mode")) || universe == Some(Str("tout"));
              && (!complete ==> r == Err(Failure(400, FieldsRequired)))
              && (complete && !known ==> r == Err(Failure(400, BadUniverse)))
              && (complete && known ==> (r == Err(Uncaught) <==> InputThrows(body)))
              && (r.Ok? <==> complete && known && !InputThrows(body))
              && (r.Ok? ==> && r.value.name == Trim(ToStr(name.value, showNumber).value)
                            && r.value.price == price.value.n
                            && r.value.category == Trim(ToStr(category.value, showNumber).value)
                            && r.value.universe == (if universe == Some(Str("mode")) then Mode else Tout)
                            && r.value.image == Trim(ToStr(image.value, showNumber).value)
                            && r.value.description == Trim(ToStr(description.value, showNumber).value)
                            && r.value.images.None?
                            && Ok(r.value.color) == ColorOf(Field(body, "color"), showNumber)
                            && Ok(r.value.sizes) == SizesOf(Field(body, "sizes"), showNumber))
  {
    if body.Null? then Err(Uncaught)
    else
      var name, price, category := Field(body, "name"), Field(body, "price"), Field(body, "category");
      var universe, image, description := Field(body, "universe"), Field(body, "image"), Field(body, "description");
      if !Given(name) || !(price.Some? && price.value.Num?) || !Given(category)
         || !Given(universe) || !Given(image) || !Given(description) then
        Err(Failure(400, FieldsRequired))
      else if universe != Some(Str("mode")) && universe != Some(Str("tout")) then
        Err(Failure(400, BadUniverse))
      else
        var n, c := TrimmedField(name.value, showNumber), TrimmedField(category.value, showNumber);
        var i, d := TrimmedField(image.value, showNumber), TrimmedField(description.value, showNumber);
        var color, sizes := ColorOf(Field(body, "color"), showNumber), SizesOf(Field(body, "sizes"), showNumber);
        if n.Err? || c.Err? || i.Err? || d.Err? || color.Err? || sizes.Err? then Err(Uncaught)
        else
          Ok(Product(
            "", "", n.value, price.value.n, c.value,
            if universe == Some(Str("mode")) then Mode else Tout,
            i.value, None, d.value, color.value, sizes.value))
  }

  /** `POST`: 401 before the body is looked at, then the body checks, then
      `addProduct`, whose failure becomes a 500. */
  method HandlePost(store: ProductStore, isAdmin: bool, body: Option<Value>, freshId: string, showNumber: real -> string)
    returns (r: Response)
    modifies store
    ensures !isAdmin ==> r == Failure(401, Unauthorized) && store.file == old(store.file)
    ensures isAdmin && CheckBody(ParsedBody(body), showNumber).Err? ==>
              r == CheckBody(ParsedBody(body), showNumber).error && store.file == old(store.file)
    ensures isAdmin && CheckBody(ParsedBody(body), showNumber).Ok? ==>
              var input := CheckBody(ParsedBody(body), showNumber).value;
              && (input.image == [] ==> r == Failure(500, AddFailed) && store.file == old(store.file))
              && (input.image != [] ==> && r.Created?
                                        && AddedAs(old(store.FromFile()), input, freshId, r.product)
                                        && r.product.images == Some(NormalizeProductImages(None, input.image))
                                        && store.FromFile() == old(store.FromFile()) + [r.product])
  {
    if !isAdmin {
      return Failure(401, Unauthorized);
    }
    var checked := CheckBody(ParsedBody(body), showNumber);
    if checked.Err? {
      return checked.error;
    }
    var input := checked.value;
    TrimTrimmed(input.image);
    var added := store.AddProduct(input, freshId);
    if added.Err? {
      return Failure(500, AddFailed);
    }
    r := Created(added.value);
  }

  /** A body that does not parse is treated as `{}` and refused with 400. */
  lemma UnparsableBodyRefused(showNumber: real -> string)
    ensures CheckBody(ParsedBody(None), showNumber) == Err(Failure(400, FieldsRequired))
  {
  }

  /** A name whose `String` throws, as in
      `{"name": {"toString": 1}, "price": 5, "category": "c", "universe": "mode",
      "image": "i", "description": "d"}`, is an uncaught error, and `POST`
      then writes nothing. */
  lemma ToStringNameUncaught(showNumber: real -> string, body: Value)
    requires body == Obj([("name", Obj([("toString", Num(1.0))])), ("price", Num(5.0)),
                          ("category", Str("c")), ("universe", Str("mode")),
                          ("image", Str("i")), ("description", Str("d"))])
    ensures CheckBody(body, showNumber) == Err(Uncaught)
  {
    ToStringNameFields(body);
    assert CoercionThrows(Obj([("toString", Num(1.0))]));
  }

  lemma ToStringNameFields(body: Value)
    requires body == Obj([("name", Obj([("toString", Num(1.0))])), ("price", Num(5.0)),
                          ("category", Str("c")), ("universe", Str("mode")),
                          ("image", Str("i")), ("description", Str("d"))])
    ensures && Field(body, "name") == Some(Obj([("toString", Num(1.0))]))
            && Field(body, "price") == Some(Num(5.0))
            && Field(body, "category") == Some(Str("c"))
            && Field(body, "universe") == Some(Str("mode"))
            && Field(body, "image") == Some(Str("i"))
            && Field(body, "description") == Some(Str("d"))
  {
    var e := body.entries;
    LookupAt(e, 0, "name");
    LookupAt(e, 1, "price");
    LookupAt(e, 2, "category");
    LookupAt(e, 3, "universe");
    LookupAt(e, 4, "image");
    LookupAt(e, 5, "description");
  }
}
