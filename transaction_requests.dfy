/**
 * CreateTransactionDto and TransactionContentsDto: the body of a sale
 * request, its coupon normalisation and its validation rules.
 */
module TransactionRequests {
  import opened Wrappers
  import opened Entities
  import opened Text
  import opened Validation

  /** One requested line after validation (TransactionContentsDto). */
  datatype TransactionContentsDto = TransactionContentsDto(productId: int, quantity: int, price: real)

  /** A sale request after transformation and validation (CreateTransactionDto). */
  datatype CreateTransactionDto = CreateTransactionDto(
    total: real,
    coupon: Option<string>,
    contents: seq<TransactionContentsDto>)

  /**
   * The rules of TransactionContentsDto: productId and quantity are present
   * integers and price is a present number. Nothing asks the quantity to be
   * positive.
   */
  predicate ValidFields(item: Value)
  {
    && IsNotEmpty(Property(item, "productId")) && IsInt(Property(item, "productId"))
    && IsNotEmpty(Property(item, "quantity")) && IsInt(Property(item, "quantity"))
    && IsNotEmpty(Property(item, "price")) && IsNumber(Property(item, "price"), None)
  }

  /** A line item the typed request can carry: an object that passes the rules. */
  predicate ValidItem(item: Value)
  {
    item.Obj? && ValidFields(item)
  }

  /**
   * An element @ValidateNested accepts: an object that passes the rules, an
   * array whose elements it accepts in turn, or a missing value, which it skips.
   */
  predicate ValidElement(v: Value)
    decreases v
  {
    match v
    case Undefined => true
    case Obj(_) => ValidFields(v)
    case Arr(items) => forall k :: 0 <= k < |items| ==> ValidElement(items[k])
    case _ => false
  }

  /** The message @ValidateNested gives a value that is neither an object nor an array. */
  const NOT_NESTED := "nested property contents must be either object or array"

  /** The messages of the line item rules on `item`, each prefixed with `path`. */
  function FieldErrors(item: Value, path: string): (r: seq<string>)
    ensures r == [] <==> ValidFields(item)
  {
    var productId, quantity, price :=
      Property(item, "productId"), Property(item, "quantity"), Property(item, "price");
    Rule(IsNotEmpty(productId), path + "El ID del producto no puede estar vacío")
    + Rule(IsInt(productId), path + "Producto no válido")
    + Rule(IsNotEmpty(quantity), path + "Cantidad no puede estar vacía")
    + Rule(IsInt(quantity), path + "Cantidad no válida")
    + Rule(IsNotEmpty(price), path + "Precio no puede estar vacío")
    + Rule(IsNumber(price, None), path + "Precio no válido")
  }

  /**
   * The messages for element `index` of an array whose path is `parent`, as
   * the validation pipe flattens them: an object's rule messages under
   * `parent.index.`, the elements of an array under the path `parent.index`,
   * none for a missing value, and the nested message under `parent.` for
   * anything else.
   */
  function ItemErrors(item: Value, parent: string, index: nat): (r: seq<string>)
    ensures r == [] <==> ValidElement(item)
    decreases item, 1
  {
    match item
    case Undefined => []
    case Obj(_) => FieldErrors(item, parent + "." + NatToString(index) + ".")
    case Arr(items) => ElementErrors(items, parent + "." + NatToString(index), 0)
    case _ => [parent + "." + NOT_NESTED]
  }

  /** The messages of the elements `items` of the array at `parent`, the first of which sits at position `from`. */
  function ElementErrors(items: seq<Value>, parent: string, from: nat): (r: seq<string>)
    ensures r == [] <==> forall k :: 0 <= k < |items| ==> ValidElement(items[k])
    decreases items, 0
  {
    if items == [] then []
    else ItemErrors(items[0], parent, from) + ElementErrors(items[1..], parent, from + 1)
  }

  /** `contents`: a non-empty array whose elements @ValidateNested accepts. */
  predicate ValidContents(v: Value)
  {
    v.Arr? && |v.items| > 0 && forall k :: 0 <= k < |v.items| ==> ValidElement(v.items[k])
  }

  /**
   * The messages of `contents`: those of @IsArray and @ArrayNotEmpty, then
   * the nested ones. An array has its elements validated one by one. A lone
   * object is validated as one line item under `contents.`, and when it
   * breaks a rule only those messages are reported: the pipe drops the
   * messages of a property whose nested value has errors. Any other present
   * value gets the nested message as well.
   */
  function ContentsErrors(v: Value): (r: seq<string>)
    ensures r == [] <==> ValidContents(v)
  {
    var own := Rule(v.Arr?, "contents must be an array")
      + Rule(v.Arr? && |v.items| > 0, "Los Contenidos no pueden ir vacios");
    match v
    case Arr(items) => own + ElementErrors(items, "contents", 0)
    case Obj(_) =>
      var nested := FieldErrors(v, "contents.");
      if nested != [] then nested else own
    case Undefined => own
    case _ => own + [NOT_NESTED]
  }

  /** `total`: a present number. */
  predicate ValidTotal(v: Value)
  {
    IsNotEmpty(v) && IsNumber(v, None)
  }

  function TotalErrors(v: Value): (r: seq<string>)
    ensures r == [] <==> ValidTotal(v)
  {
    Rule(IsNotEmpty(v), "El Total no puede ir vacio") + Rule(IsNumber(v, None), "Cantidad debe ser un número")
  }

  function ToContentsDto(item: Value): (d: TransactionContentsDto)
    requires ValidItem(item)
    ensures d.productId as real == Property(item, "productId").n
    ensures d.quantity as real == Property(item, "quantity").n
    ensures d.price == Property(item, "price").n
  {
    TransactionContentsDto(
      Property(item, "productId").n.Floor,
      Property(item, "quantity").n.Floor,
      Property(item, "price").n)
  }

  /**
   * The validation pipe on a sale body: the coupon transform runs first (a
   * coupon that is not a string makes it throw), then every rule is checked
   * and all broken rules are reported together. A body that passes with an
   * element of `contents` that is not an object (a missing one or a nested
   * array) is answered with a server error: the service reads the product
   * id, quantity and price of every element.
   */
  function ValidateCreateTransaction(body: Value): (r: Result<CreateTransactionDto, HttpError>)
    ensures TrimUpper(Property(body, "coupon")).Failure? ==> r == Failure(InternalServerError)
    ensures r.Success? <==>
      && TrimUpper(Property(body, "coupon")).Success?
      && ValidTotal(Property(body, "total"))
      && ValidContents(Property(body, "contents"))
      && ItemsAreObjects(Property(body, "contents").items)
    ensures
      && TrimUpper(Property(body, "coupon")).Success?
      && ValidTotal(Property(body, "total"))
      && ValidContents(Property(body, "contents"))
      && !ItemsAreObjects(Property(body, "contents").items)
      ==> r == Failure(InternalServerError)
    ensures r.Failure? && r.error != InternalServerError ==> r.error.BadRequest? && r.error.messages != []
    ensures r.Success? ==>
      var items := Property(body, "contents").items;
      && r.value.total == Property(body, "total").n
      && |r.value.contents| == |items| >= 1
      && (forall k :: 0 <= k < |items| ==>
            && r.value.contents[k].productId as real == Property(items[k], "productId").n
            && r.value.contents[k].quantity as real == Property(items[k], "quantity").n
            && r.value.contents[k].price == Property(items[k], "price").n)
      && (r.value.coupon.Some? ==>
            Property(body, "coupon").Str? && r.value.coupon.value == Normalize(Property(body, "coupon").s))
      && (r.value.coupon.None? <==> Property(body, "coupon") == Undefined)
  {
    match TrimUpper(Property(body, "coupon"))
    case Failure(e) => Failure(e)
    case Success(coupon) =>
      var total, contents := Property(body, "total"), Property(body, "contents");
      var errors := TotalErrors(total) + ContentsErrors(contents);
      if errors != [] then Failure(BadRequest(errors))
      else if !ItemsAreObjects(contents.items) then Failure(InternalServerError)
      else
        ObjectElementsAreItems(contents.items);
        Success(Accepted(total.n, coupon, contents.items))
  }

  /** The request that a body passing every rule becomes, its line items in order. */
  function Accepted(total: real, coupon: Value, items: seq<Value>): (d: CreateTransactionDto)
    requires forall k :: 0 <= k < |items| ==> ValidItem(items[k])
    ensures d.total == total && |d.contents| == |items|
    ensures forall k :: 0 <= k < |items| ==> d.contents[k] == ToContentsDto(items[k])
    ensures d.coupon == if coupon.Str? then Some(coupon.s) else None
  {
    CreateTransactionDto(total, if coupon.Str? then Some(coupon.s) else None, ToContents(items))
  }

  /** Elements that @ValidateNested accepts and that are objects are line items. */
  lemma ObjectElementsAreItems(items: seq<Value>)
    requires forall k :: 0 <= k < |items| ==> ValidElement(items[k])
    requires ItemsAreObjects(items)
    ensures forall k :: 0 <= k < |items| ==> ValidItem(items[k])
  {
    forall k | 0 <= k < |items|
      ensures ValidItem(items[k])
    {
      assert ValidElement(items[k]) && items[k].Obj?;
    }
  }

  /** Every element is an object. */
  predicate ItemsAreObjects(items: seq<Value>)
  {
    forall k :: 0 <= k < |items| ==> items[k].Obj?
  }

  /** The validated line items, in order. */
  function ToContents(items: seq<Value>): (ds: seq<TransactionContentsDto>)
    requires forall k :: 0 <= k < |items| ==> ValidItem(items[k])
    ensures |ds| == |items|
    ensures forall k :: 0 <= k < |items| ==> ds[k] == ToContentsDto(items[k])
  {
    seq(|items|, k requires 0 <= k < |items| => ToContentsDto(items[k]))
  }

  /** The coupon that reaches the service is already normalised: normalising it again changes nothing. */
  lemma {:induction false} CouponArrivesNormalized(body: Value)
    requires ValidateCreateTransaction(body).Success?
    requires ValidateCreateTransaction(body).value.coupon.Some?
    ensures var c := ValidateCreateTransaction(body).value.coupon.value; Normalize(c) == c
  {
    NormalizeIdempotent(Property(body, "coupon").s);
  }

  /** A line with quantity zero, or a negative one, passes validation. */
  lemma NonPositiveQuantityAccepted(q: int)
    requires q <= 0
    ensures var item := Obj(map["productId" := Num(1.0), "quantity" := Num(q as real), "price" := Num(5.0)]);
      var body := Obj(map["total" := Num(0.0), "contents" := Arr([item])]);
      && ValidateCreateTransaction(body).Success?
      && ValidateCreateTransaction(body).value.contents[0].quantity == q
  {
    var item := Obj(map["productId" := Num(1.0), "quantity" := Num(q as real), "price" := Num(5.0)]);
    var body := Obj(map["total" := Num(0.0), "contents" := Arr([item])]);
    assert TrimUpper(Property(body, "coupon")).Success? && ValidTotal(Property(body, "total")) by {
      assert Property(body, "coupon") == Undefined && Property(body, "total") == Num(0.0);
    }
    assert ValidContents(Property(body, "contents")) by {
      assert Property(body, "contents") == Arr([item]);
      assert ValidElement(item) by {
        assert Property(item, "productId") == Num(1.0) && Property(item, "price") == Num(5.0);
        assert Property(item, "quantity") == Num(q as real);
      }
    }
    assert Property(Property(body, "contents").items[0], "quantity").n == q as real;
  }

  /** An empty `contents` array is refused with the custom message. */
  lemma EmptyContentsRefused(total: real)
    ensures var body := Obj(map["total" := Num(total), "contents" := Arr([])]);
      ValidateCreateTransaction(body) == Failure(BadRequest(["Los Contenidos no pueden ir vacios"]))
  {
    assert ContentsErrors(Arr([])) == ["Los Contenidos no pueden ir vacios"];
    ContentsMessagesReported(total, Arr([]));
  }

  /** A body with no coupon and a valid total is refused with exactly the messages of its `contents`. */
  lemma ContentsMessagesReported(total: real, contents: Value)
    requires ContentsErrors(contents) != []
    ensures ValidateCreateTransaction(Obj(map["total" := Num(total), "contents" := contents]))
      == Failure(BadRequest(ContentsErrors(contents)))
  {
    var body := Obj(map["total" := Num(total), "contents" := contents]);
    assert Property(body, "coupon") == Undefined && Property(body, "total") == Num(total);
    assert Property(body, "contents") == contents;
    assert TrimUpper(Undefined) == Success(Undefined);
    assert TotalErrors(Num(total)) + ContentsErrors(contents) == ContentsErrors(contents);
  }

  /**
   * An element that is itself an array is walked into rather than refused:
   * `[[]]` passes the rules of `contents`, and the body then fails in the
   * service.
   */
  lemma NestedArrayElementPasses(total: real)
    ensures var body := Obj(map["total" := Num(total), "contents" := Arr([Arr([])])]);
      && ValidContents(Property(body, "contents"))
      && ValidateCreateTransaction(body) == Failure(InternalServerError)
  {
    var body := Obj(map["total" := Num(total), "contents" := Arr([Arr([])])]);
    assert Property(body, "coupon") == Undefined && Property(body, "total") == Num(total);
    assert Property(body, "contents") == Arr([Arr([])]);
    assert ValidElement(Arr([]));
    assert !Property(body, "contents").items[0].Obj?;
  }

  /** An element that is a number is reported with the property's path and the nested message. */
  lemma NumberElementMessage(total: real, x: real)
    ensures var body := Obj(map["total" := Num(total), "contents" := Arr([Num(x)])]);
      ValidateCreateTransaction(body) == Failure(BadRequest(["contents." + NOT_NESTED]))
  {
    assert ElementErrors([Num(x)], "contents", 0) == ["contents." + NOT_NESTED] by {
      assert [Num(x)][1..] == [];
      assert ItemErrors(Num(x), "contents", 0) == ["contents" + "." + NOT_NESTED];
      assert "contents" + "." + NOT_NESTED == "contents." + NOT_NESTED;
    }
    assert ContentsErrors(Arr([Num(x)])) == ["contents." + NOT_NESTED];
    ContentsMessagesReported(total, Arr([Num(x)]));
  }

  /** A line item with a whole product id and quantity but no price breaks exactly the two price rules. */
  lemma MissingPriceMessages(item: Value, path: string)
    requires item == Obj(map["productId" := Num(1.0), "quantity" := Num(2.0)])
    ensures FieldErrors(item, path) == [path + "Precio no puede estar vacío", path + "Precio no válido"]
  {
    assert Property(item, "productId") == Num(1.0) && Property(item, "quantity") == Num(2.0);
    assert Property(item, "price") == Undefined;
  }

  /** An object inside an array inside `contents` is reported under both positions. */
  lemma NestedObjectPath(item: Value)
    requires item.Obj?
    ensures ContentsErrors(Arr([Arr([item])])) == FieldErrors(item, "contents.0.0.")
  {
    var path := "contents" + "." + NatToString(0) + "." + NatToString(0) + ".";
    assert path == "contents.0.0." by {
      assert NatToString(0) == "0";
    }
    assert ElementErrors([item], "contents" + "." + NatToString(0), 0) == FieldErrors(item, path) by {
      assert [item][1..] == [];
    }
    assert ElementErrors([Arr([item])], "contents", 0) == FieldErrors(item, path) by {
      assert [Arr([item])][1..] == [];
    }
  }

  /** The messages of a line item without a price, two levels down, name both positions. */
  lemma NestedObjectMessages(total: real)
    ensures var item := Obj(map["productId" := Num(1.0), "quantity" := Num(2.0)]);
      var body := Obj(map["total" := Num(total), "contents" := Arr([Arr([item])])]);
      ValidateCreateTransaction(body) == Failure(BadRequest([
        "contents.0.0." + "Precio no puede estar vacío", "contents.0.0." + "Precio no válido"]))
  {
    var item := Obj(map["productId" := Num(1.0), "quantity" := Num(2.0)]);
    NestedObjectPath(item);
    MissingPriceMessages(item, "contents.0.0.");
    ContentsMessagesReported(total, Arr([Arr([item])]));
  }
}
