/**
 * The `UpdateUserCart` request body: `{ product: { id, title?, description?, price }, count }`,
 * the field constraints its decorators state, and the typed update it becomes.
 */
module UpdateUserCart {
  import opened Wrappers
  import opened Tables
  import opened ClassValidator

  /**
   * `ProductUpdateUserCart`: `id` a non-empty string; `title` and `description`
   * absent or null, or else non-empty strings; `price` a number.
   */
  predicate ProductValid(fields: map<string, Json>) {
    var title := Property(fields, "title");
    var description := Property(fields, "description");
    var price := Property(fields, "price");
    && IsNonEmptyString(Property(fields, "id"))
    && (SkippedAsOptional(title) || IsNonEmptyString(title))
    && (SkippedAsOptional(description) || IsNonEmptyString(description))
    && IsNumber(price) && IsNotEmpty(price)
  }

  /**
   * The decorators of `UpdateUserCart` itself: `product` is not empty and
   * `count` is a number of any sign.  No decorator asks for the product object's
   * own fields to be checked, so as written they never are.
   */
  predicate ShallowValid(body: map<string, Json>) {
    var count := Property(body, "count");
    IsNotEmpty(Property(body, "product")) && IsNumber(count) && IsNotEmpty(count)
  }

  /** The intended constraint: the shallow one, and `product` an object that passes `ProductValid`. */
  predicate Valid(body: map<string, Json>) {
    var product := Property(body, "product");
    ShallowValid(body) && product.Some? && product.value.JObject? && ProductValid(product.value.fields)
  }

  /** The typed update the service receives. */
  function Decode(body: map<string, Json>): (r: Option<CartItem>)
    ensures Valid(body) ==> r.Some?
    ensures Valid(body) ==> r.value.count == Property(body, "count").value.n
    ensures Valid(body) ==> r.value.product.id != ""
    ensures Valid(body) ==> r.value.product.title != Some("") && r.value.product.description != Some("")
    ensures Valid(body) ==>
      var fields := body["product"].fields;
      && r.value.product.id == fields["id"].s
      && r.value.product.price == fields["price"].n
      && r.value.product.title == OptionalString(Property(fields, "title"))
      && r.value.product.description == OptionalString(Property(fields, "description"))
  {
    match Property(body, "product")
    case Some(JObject(fields)) =>
      var id := Property(fields, "id");
      var price := Property(fields, "price");
      var count := Property(body, "count");
      if IsString(id) && IsNumber(price) && IsNumber(count) then
        var product := Product(id.value.s, OptionalString(Property(fields, "title")),
                               OptionalString(Property(fields, "description")), price.value.n);
        Some(CartItem(product, count.value.n))
      else None
    case _ => None
  }

  /** The request body that carries a typed update. */
  function Encode(item: CartItem): map<string, Json> {
    var p := item.product;
    var fields := map["id" := JString(p.id), "price" := JNumber(p.price)]
      + OptionalProperty("title", p.title) + OptionalProperty("description", p.description);
    map["product" := JObject(fields), "count" := JNumber(item.count)]
  }

  /** Decoding an encoded update gives it back. */
  lemma DecodeEncode(item: CartItem)
    ensures Decode(Encode(item)) == Some(item)
  {
  }

  /**
   * Which typed updates make valid requests: exactly those with a non-empty product
   * id and no empty title or description.  The count is unconstrained, so zero and
   * negative counts are valid requests.
   */
  lemma ValidEncode(item: CartItem)
    ensures Valid(Encode(item)) <==>
      item.product.id != "" && item.product.title != Some("") && item.product.description != Some("")
  {
  }

  /** A valid request decodes to an update whose own encoding is valid. */
  lemma ValidDecodes(body: map<string, Json>)
    requires Valid(body)
    ensures Decode(body).Some? && Valid(Encode(Decode(body).value))
  {
  }

  /**
   * As written, a body whose product has no fields at all passes, though it has no
   * product id to store.
   */
  lemma ShallowAcceptsProductWithoutId()
    ensures var body := map["product" := JObject(map[]), "count" := JNumber(1.0)];
      ShallowValid(body) && !Valid(body) && Decode(body) == None
  {
  }
}
