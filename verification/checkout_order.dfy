/**
 * The `CheckoutOrder` request body: `{ address: { comment, lastName, firstName, address } }`,
 * the field constraints its decorators state, and the typed order it becomes.
 */
module CheckoutOrder {
  import opened Wrappers
  import opened ClassValidator

  datatype OrderAddress = OrderAddress(comment: string, lastName: string, firstName: string, address: string)

  datatype Order = Order(address: OrderAddress)

  /**
   * `OrderAddress`: `comment` a string, possibly empty; `lastName`, `firstName`
   * and `address` non-empty strings.
   */
  predicate AddressValid(fields: map<string, Json>) {
    && IsString(Property(fields, "comment"))
    && IsNonEmptyString(Property(fields, "lastName"))
    && IsNonEmptyString(Property(fields, "firstName"))
    && IsNonEmptyString(Property(fields, "address"))
  }

  /**
   * The decorator of `CheckoutOrder` itself: `address` is not empty.  No decorator
   * asks for the address object's own fields to be checked, so as written they
   * never are.
   */
  predicate ShallowValid(body: map<string, Json>) {
    IsNotEmpty(Property(body, "address"))
  }

  /** The intended constraint: `address` an object that passes `AddressValid`. */
  predicate Valid(body: map<string, Json>) {
    var address := Property(body, "address");
    ShallowValid(body) && address.Some? && address.value.JObject? && AddressValid(address.value.fields)
  }

  /** The typed order the checkout receives. */
  function Decode(body: map<string, Json>): (r: Option<Order>)
    ensures Valid(body) ==> r.Some?
    ensures Valid(body) ==>
      r.value.address.lastName != "" && r.value.address.firstName != "" && r.value.address.address != ""
    ensures Valid(body) ==>
      var fields := body["address"].fields;
      && r.value.address.comment == fields["comment"].s
      && r.value.address.lastName == fields["lastName"].s
      && r.value.address.firstName == fields["firstName"].s
      && r.value.address.address == fields["address"].s
  {
    match Property(body, "address")
    case Some(JObject(fields)) =>
      var comment := Property(fields, "comment");
      var lastName := Property(fields, "lastName");
      var firstName := Property(fields, "firstName");
      var address := Property(fields, "address");
      if IsString(comment) && IsString(lastName) && IsString(firstName) && IsString(address) then
        Some(Order(OrderAddress(comment.value.s, lastName.value.s, firstName.value.s, address.value.s)))
      else None
    case _ => None
  }

  /** The request body that carries a typed order. */
  function Encode(order: Order): map<string, Json> {
    var a := order.address;
    map["address" := JObject(map["comment" := JString(a.comment), "lastName" := JString(a.lastName),
                                 "firstName" := JString(a.firstName), "address" := JString(a.address)])]
  }

  /** Decoding an encoded order gives it back. */
  lemma DecodeEncode(order: Order)
    ensures Decode(Encode(order)) == Some(order)
  {
  }

  /**
   * Which typed orders make valid requests: exactly those with non-empty last name,
   * first name and address; the comment may be empty.
   */
  lemma ValidEncode(order: Order)
    ensures Valid(Encode(order)) <==>
      order.address.lastName != "" && order.address.firstName != "" && order.address.address != ""
  {
  }

  /** A valid request decodes to an order whose own encoding is valid. */
  lemma ValidDecodes(body: map<string, Json>)
    requires Valid(body)
    ensures Decode(body).Some? && Valid(Encode(Decode(body).value))
  {
  }

  /** As written, an address object with no fields at all passes. */
  lemma ShallowAcceptsAddressWithoutFields()
    ensures var body := map["address" := JObject(map[])];
      ShallowValid(body) && !Valid(body) && Decode(body) == None
  {
  }
}
