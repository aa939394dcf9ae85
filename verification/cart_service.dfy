/**
 * The cart aggregate: `CartService` over the `carts` / `cart_items` tables and
 * the read-only product catalog.  The functions below say what each operation
 * does to the two tables and what it returns; the class at the end performs the
 * operations step by step on its own fields and is proved to agree with them.
 */
module CartService {
  import opened Wrappers
  import opened Tables
  import opened ItemList

  /** The contents of the `carts` and `cart_items` tables. */
  datatype Store = Store(carts: seq<CartRow>, cartItems: seq<ItemRow>)

  /** The constraints the tables keep: the two unique keys, and no stored count <= 0. */
  predicate ValidStore(s: Store) {
    UniqueIds(s.carts) && NoDuplicateKeys(s.cartItems) && PositiveCounts(s.cartItems)
  }

  /** An id the database may give a new cart: no cart has it and no item row refers to it. */
  predicate FreshCartId(s: Store, id: CartId) {
    id !in IdsOf(s.carts) && forall x :: x in s.cartItems ==> x.cartId != id
  }

  /** `findByUserId`: the first cart of the user in that status, with its joined items. */
  function Find(s: Store, catalog: map<ProductId, CatalogEntry>, userId: UserId, status: CartStatus): (r: Option<Cart>)
    ensures userId == "" ==> r == None
    ensures userId != "" ==> (r.None? <==> forall i :: 0 <= i < |s.carts| ==> !Matches(s.carts[i], userId, status))
    ensures r.Some? ==> r.value.userId == userId && r.value.status == status
    ensures r.Some? ==> CartRow(r.value.id, userId, status) in s.carts
    ensures r.Some? ==> r.value.items == JoinItems(s.cartItems, r.value.id, catalog)
  {
    if userId == "" then None
    else match FirstMatch(s.carts, userId, status)
      case None => None
      case Some(i) =>
        var row := s.carts[i];
        Some(Cart(row.id, row.userId, row.status, JoinItems(s.cartItems, row.id, catalog)))
  }

  /** `findOrCreateByUserId`: the open cart, or a new cart row with the default status and no items. */
  function FindOrCreate(s: Store, catalog: map<ProductId, CatalogEntry>, defaultStatus: CartStatus,
                        userId: UserId, newId: CartId): (r: (Cart, Store))
    ensures r.0.userId == userId
    ensures CartRow(r.0.id, r.0.userId, r.0.status) in r.1.carts
    ensures r.1.cartItems == s.cartItems
    ensures r.1.carts == s.carts || r.1.carts == s.carts + [CartRow(newId, userId, defaultStatus)]
    ensures userId == "" ==> r.1.carts == s.carts + [CartRow(newId, userId, defaultStatus)]
    ensures Find(s, catalog, userId, OPEN).Some? ==> r == (Find(s, catalog, userId, OPEN).value, s)
    ensures Find(s, catalog, userId, OPEN).None? ==>
      && r.0 == Cart(newId, userId, defaultStatus, [])
      && r.1 == Store(s.carts + [CartRow(newId, userId, defaultStatus)], s.cartItems)
  {
    match Find(s, catalog, userId, OPEN)
    case Some(cart) => (cart, s)
    case None =>
      var row := CartRow(newId, userId, defaultStatus);
      (Cart(row.id, row.userId, row.status, []), Store(s.carts + [row], s.cartItems))
  }

  /**
   * `updateByUserId`: resolve the cart; with no id, stop; with a positive count
   * upsert the row, otherwise delete it; return the rebuilt item list.
   */
  function Update(s: Store, catalog: map<ProductId, CatalogEntry>, defaultStatus: CartStatus,
                  userId: UserId, update: CartItem, newId: CartId): (r: (Option<Cart>, Store))
    ensures r.1.carts == FindOrCreate(s, catalog, defaultStatus, userId, newId).1.carts
    ensures r.0.None? ==> r.1.cartItems == s.cartItems
    ensures r.0.Some? ==> r.0.value.id != "" && r.0.value.userId == userId
  {
    var resolved := FindOrCreate(s, catalog, defaultStatus, userId, newId);
    var cart := resolved.0;
    var s1 := resolved.1;
    if cart.id == "" then (None, s1)
    else
      var items := UpdatedItems(cart.items, update);
      var key := (cart.id, update.product.id);
      if update.count > 0.0
      then (Some(cart.(items := items)), s1.(cartItems := Upsert(s1.cartItems, ItemRow(key.0, key.1, update.count))))
      else (Some(cart.(items := items)), s1.(cartItems := DeleteKey(s1.cartItems, key)))
  }

  /** The (product id, count) pairs an item list names. */
  function Pairs(items: seq<CartItem>): set<(ProductId, real)> {
    set x | x in items :: (x.product.id, x.count)
  }

  // --------------------------------------------------------------- lemmas

  /** A new cart row keeps the primary key when its id is fresh. */
  lemma {:induction false} UniqueIdsAppend(carts: seq<CartRow>, row: CartRow)
    requires UniqueIds(carts) && row.id !in IdsOf(carts)
    ensures UniqueIds(carts + [row]) && IdsOf(carts + [row]) == IdsOf(carts) + {row.id}
  {
    if carts != [] {
      UniqueIdsAppend(carts[1..], row);
      assert (carts + [row])[1..] == carts[1..] + [row];
    } else {
      assert carts + [row] == [row];
    }
  }

  /** Find-or-create keeps the table constraints. */
  lemma FindOrCreateKeepsValid(s: Store, catalog: map<ProductId, CatalogEntry>, defaultStatus: CartStatus,
                               userId: UserId, newId: CartId)
    requires ValidStore(s) && FreshCartId(s, newId)
    ensures ValidStore(FindOrCreate(s, catalog, defaultStatus, userId, newId).1)
  {
    if Find(s, catalog, userId, OPEN).None? {
      UniqueIdsAppend(s.carts, CartRow(newId, userId, defaultStatus));
    }
  }

  /** The item list find-or-create returns is the join of the cart's stored rows, also for a new cart. */
  lemma ResolvedItemsAreJoined(s: Store, catalog: map<ProductId, CatalogEntry>, defaultStatus: CartStatus,
                               userId: UserId, newId: CartId)
    requires FreshCartId(s, newId)
    ensures var cart := FindOrCreate(s, catalog, defaultStatus, userId, newId).0;
      cart.items == JoinItems(s.cartItems, cart.id, catalog)
  {
    if Find(s, catalog, userId, OPEN).None? {
      JoinNoRows(s.cartItems, newId, catalog);
    }
  }

  /**
   * With the database default OPEN and a non-empty user id, a second find-or-create
   * finds what the first returned and changes nothing, whatever id it would use.
   */
  lemma FindOrCreateTwice(s: Store, catalog: map<ProductId, CatalogEntry>, userId: UserId,
                          newId: CartId, otherId: CartId)
    requires userId != "" && FreshCartId(s, newId)
    ensures var first := FindOrCreate(s, catalog, OPEN, userId, newId);
      FindOrCreate(first.1, catalog, OPEN, userId, otherId) == first
  {
    if Find(s, catalog, userId, OPEN).None? {
      var row := CartRow(newId, userId, OPEN);
      FirstMatchAppend(s.carts, row, userId, OPEN);
      JoinNoRows(s.cartItems, newId, catalog);
    }
  }

  /**
   * Were the database default not OPEN, find-or-create would not find the cart it
   * made: a user without an open cart gets a new cart row on every call.
   */
  lemma FindOrCreateWithOrderedDefault(s: Store, catalog: map<ProductId, CatalogEntry>, userId: UserId,
                                       newId: CartId, otherId: CartId)
    requires Find(s, catalog, userId, OPEN).None?
    ensures var first := FindOrCreate(s, catalog, ORDERED, userId, newId);
      |FindOrCreate(first.1, catalog, ORDERED, userId, otherId).1.carts| == |s.carts| + 2
  {
  }

  /** Every update keeps the table constraints; a positive count is the only way a row is written. */
  lemma UpdateKeepsValid(s: Store, catalog: map<ProductId, CatalogEntry>, defaultStatus: CartStatus,
                         userId: UserId, update: CartItem, newId: CartId)
    requires ValidStore(s) && FreshCartId(s, newId)
    ensures ValidStore(Update(s, catalog, defaultStatus, userId, update, newId).1)
  {
    FindOrCreateKeepsValid(s, catalog, defaultStatus, userId, newId);
    var cart := FindOrCreate(s, catalog, defaultStatus, userId, newId).0;
    var key := (cart.id, update.product.id);
    if update.count > 0.0 {
      var row := ItemRow(key.0, key.1, update.count);
      UpsertKeepsUnique(s.cartItems, row);
      UpsertKeepsPositive(s.cartItems, row);
    } else {
      DeleteKeyKeepsUnique(s.cartItems, key);
      DeleteKeyRows(s.cartItems, key);
    }
  }

  /**
   * What an update does to `cart_items`, seen as a map from key to count: a positive
   * count sets the one key of the resolved cart and product, a count <= 0 removes it,
   * and no other key changes.  With no cart id nothing is written.  The returned list
   * is the prior one rebuilt with the update.
   */
  lemma UpdateTable(s: Store, catalog: map<ProductId, CatalogEntry>, defaultStatus: CartStatus,
                    userId: UserId, update: CartItem, newId: CartId)
    ensures var resolved := FindOrCreate(s, catalog, defaultStatus, userId, newId).0;
      var r := Update(s, catalog, defaultStatus, userId, update, newId);
      var key := (resolved.id, update.product.id);
      && (resolved.id == "" <==> r.0.None?)
      && (r.0.Some? ==> r.0.value == resolved.(items := UpdatedItems(resolved.items, update)))
      && (r.0.Some? && update.count > 0.0 ==> Counts(r.1.cartItems) == Counts(s.cartItems)[key := update.count])
      && (r.0.Some? && update.count <= 0.0 ==> Counts(r.1.cartItems) == Counts(s.cartItems) - {key})
  {
    var resolved := FindOrCreate(s, catalog, defaultStatus, userId, newId).0;
    var key := (resolved.id, update.product.id);
    UpsertCounts(s.cartItems, ItemRow(key.0, key.1, update.count));
    DeleteKeyCounts(s.cartItems, key);
  }

  /** With a positive count, exactly one row holds the key afterwards, and it holds the new count. */
  lemma UpdateLeavesOneRow(s: Store, catalog: map<ProductId, CatalogEntry>, defaultStatus: CartStatus,
                           userId: UserId, update: CartItem, newId: CartId)
    requires NoDuplicateKeys(s.cartItems) && update.count > 0.0
    ensures var r := Update(s, catalog, defaultStatus, userId, update, newId);
      r.0.Some? ==>
        var row := ItemRow(r.0.value.id, update.product.id, update.count);
        && row in r.1.cartItems
        && (forall x :: x in r.1.cartItems && KeyOf(x) == KeyOf(row) ==> x == row)
        && (forall x :: KeyOf(x) != KeyOf(row) ==> (x in r.1.cartItems <==> x in s.cartItems))
  {
    var r := Update(s, catalog, defaultStatus, userId, update, newId);
    if r.0.Some? {
      var row := ItemRow(r.0.value.id, update.product.id, update.count);
      UpsertRows(s.cartItems, row);
      UpsertKeepsUnique(s.cartItems, row);
    }
  }

  /** Under the unique key on `cart_items`, a found cart's items have distinct product ids. */
  lemma FoundItemsDistinct(s: Store, catalog: map<ProductId, CatalogEntry>, userId: UserId, status: CartStatus)
    requires NoDuplicateKeys(s.cartItems)
    ensures var r := Find(s, catalog, userId, status);
      r.Some? ==> DistinctProducts(r.value.items)
  {
    var r := Find(s, catalog, userId, status);
    if r.Some? {
      JoinItemsDistinct(s.cartItems, r.value.id, catalog);
      assert r.value.items == JoinItems(s.cartItems, r.value.id, catalog);
    }
  }

  /** Under the unique key on `cart_items`, the list an update returns has distinct product ids. */
  lemma UpdateReturnsDistinct(s: Store, catalog: map<ProductId, CatalogEntry>, defaultStatus: CartStatus,
                              userId: UserId, update: CartItem, newId: CartId)
    requires NoDuplicateKeys(s.cartItems)
    ensures var r := Update(s, catalog, defaultStatus, userId, update, newId).0;
      r.Some? ==> DistinctProducts(r.value.items)
  {
    var resolved := FindOrCreate(s, catalog, defaultStatus, userId, newId).0;
    FoundItemsDistinct(s, catalog, userId, OPEN);
    UpdatedItemsDistinct(resolved.items, update);
  }

  /**
   * With the database default OPEN and a non-empty user id, applying the same update
   * twice leaves the tables as applying it once.
   */
  lemma UpdateTwice(s: Store, catalog: map<ProductId, CatalogEntry>, userId: UserId,
                    update: CartItem, newId: CartId, otherId: CartId)
    requires userId != "" && FreshCartId(s, newId)
    ensures var once := Update(s, catalog, OPEN, userId, update, newId).1;
      Update(once, catalog, OPEN, userId, update, otherId).1 == once
  {
    var cart := FindOrCreate(s, catalog, OPEN, userId, newId).0;
    var key := (cart.id, update.product.id);
    SecondResolveSameCart(s, catalog, userId, update, newId, otherId);
    if cart.id != "" {
      if update.count > 0.0 {
        UpsertIdempotent(s.cartItems, ItemRow(key.0, key.1, update.count));
      } else {
        DeleteKeyIdempotent(s.cartItems, key);
      }
    }
  }

  /** After an update, find-or-create resolves the same cart row and changes no cart row. */
  lemma SecondResolveSameCart(s: Store, catalog: map<ProductId, CatalogEntry>, userId: UserId,
                              update: CartItem, newId: CartId, otherId: CartId)
    requires userId != "" && FreshCartId(s, newId)
    ensures var first := FindOrCreate(s, catalog, OPEN, userId, newId);
      var once := Update(s, catalog, OPEN, userId, update, newId).1;
      var again := FindOrCreate(once, catalog, OPEN, userId, otherId);
      again.0.id == first.0.id && again.1 == once
  {
  }

  /**
   * A delete's returned list is exactly what re-reading the cart would give: the join
   * of the rows left, in storage order.
   */
  lemma {:induction false} JoinAfterDelete(rows: seq<ItemRow>, cartId: CartId, productId: ProductId,
                                           catalog: map<ProductId, CatalogEntry>)
    ensures JoinItems(DeleteKey(rows, (cartId, productId)), cartId, catalog)
         == WithoutProduct(JoinItems(rows, cartId, catalog), productId)
  {
    if rows != [] {
      JoinAfterDelete(rows[1..], cartId, productId, catalog);
    }
  }

  /**
   * In this sequential model a positive update's returned list names the same
   * (product id, count) pairs as re-reading the cart would, for a product in the
   * catalog; only the order and the product's display fields may differ.
   */
  lemma UpsertReturnMatchesReread(rows: seq<ItemRow>, cartId: CartId, update: CartItem,
                                  catalog: map<ProductId, CatalogEntry>)
    requires NoDuplicateKeys(rows) && update.count > 0.0 && update.product.id in catalog
    ensures var row := ItemRow(cartId, update.product.id, update.count);
      Pairs(UpdatedItems(JoinItems(rows, cartId, catalog), update))
        == Pairs(JoinItems(Upsert(rows, row), cartId, catalog))
  {
    var p := update.product.id;
    var row := ItemRow(cartId, p, update.count);
    var prior := JoinItems(rows, cartId, catalog);
    var returned := UpdatedItems(prior, update);
    var stored := Upsert(rows, row);
    var reread := JoinItems(stored, cartId, catalog);
    UpsertRows(rows, row);
    UpsertKeepsUnique(rows, row);
    assert ItemOf(row, catalog[p]) in reread;
    forall q | q in Pairs(returned) ensures q in Pairs(reread) {
      var x :| x in returned && q == (x.product.id, x.count);
      if x.product.id == p {
        UpdatedItemsShape(prior, update);
        assert x == update;
        assert q == (ItemOf(row, catalog[p]).product.id, ItemOf(row, catalog[p]).count);
      } else {
        assert x in prior;
        var src :| src in rows && src.cartId == cartId && src.productId in catalog
                   && x == ItemOf(src, catalog[src.productId]);
        assert src in stored;
        assert x in reread;
      }
    }
    forall q | q in Pairs(reread) ensures q in Pairs(returned) {
      var y :| y in reread && q == (y.product.id, y.count);
      var src :| src in stored && src.cartId == cartId && src.productId in catalog
                 && y == ItemOf(src, catalog[src.productId]);
      if KeyOf(src) == KeyOf(row) {
        assert src == row;
        assert update in returned;
      } else {
        assert src in rows;
        assert y in prior;
        assert y in returned;
      }
    }
  }

  /** A list whose every item has the product loses them all. */
  lemma {:induction false} WithoutOnlyProduct(items: seq<CartItem>, productId: ProductId)
    requires forall x :: x in items ==> x.product.id == productId
    ensures WithoutProduct(items, productId) == []
  {
    if items != [] {
      assert items[0] in items;
      WithoutOnlyProduct(items[1..], productId);
    }
  }

  /** A key whose cart no row refers to is not a key of the table. */
  lemma {:induction false} NoKeyForUnusedCart(rows: seq<ItemRow>, cartId: CartId, productId: ProductId)
    requires forall x :: x in rows ==> x.cartId != cartId
    ensures (cartId, productId) !in KeysOf(rows)
  {
    if rows != [] {
      assert rows[0] in rows;
      NoKeyForUnusedCart(rows[1..], cartId, productId);
    }
  }

  /** Adding to a user's new cart: the cart row is appended and the item row upserted. */
  lemma AddToNewCart(s: Store, catalog: map<ProductId, CatalogEntry>, userId: UserId,
                     newId: CartId, id2: CartId, item: CartItem)
    requires userId != "" && newId != "" && FreshCartId(s, newId) && item.count > 0.0
    requires Find(s, catalog, userId, OPEN).None?
    ensures var c1 := FindOrCreate(s, catalog, OPEN, userId, newId);
      && c1.0 == Cart(newId, userId, OPEN, [])
      && Update(c1.1, catalog, OPEN, userId, item, id2)
         == (Some(Cart(newId, userId, OPEN, [item])),
             Store(s.carts + [CartRow(newId, userId, OPEN)],
                   Upsert(s.cartItems, ItemRow(newId, item.product.id, item.count))))
  {
    FindOrCreateTwice(s, catalog, userId, newId, id2);
    assert UpdatedItems([], item) == [item] by {
      assert WithoutProduct([], item.product.id) == [];
    }
  }

  /** Setting the only item of a new cart to count 0 empties the cart and restores the counts. */
  lemma ClearNewCart(s: Store, catalog: map<ProductId, CatalogEntry>, userId: UserId,
                     newId: CartId, id3: CartId, product: Product, n: real)
    requires userId != "" && newId != "" && FreshCartId(s, newId)
    requires Find(s, catalog, userId, OPEN).None?
    ensures var row := ItemRow(newId, product.id, n);
      var t := Store(s.carts + [CartRow(newId, userId, OPEN)], Upsert(s.cartItems, row));
      var u3 := Update(t, catalog, OPEN, userId, CartItem(product, 0.0), id3);
      && u3.0 == Some(Cart(newId, userId, OPEN, []))
      && Counts(u3.1.cartItems) == Counts(s.cartItems)
  {
    var row := ItemRow(newId, product.id, n);
    var t := Store(s.carts + [CartRow(newId, userId, OPEN)], Upsert(s.cartItems, row));
    FirstMatchAppend(s.carts, CartRow(newId, userId, OPEN), userId, OPEN);
    var joined := JoinItems(t.cartItems, newId, catalog);
    assert Find(t, catalog, userId, OPEN) == Some(Cart(newId, userId, OPEN, joined));
    UpsertRows(s.cartItems, row);
    forall x | x in joined ensures x.product.id == product.id {
      var src :| src in t.cartItems && src.cartId == newId && src.productId in catalog
                 && x == ItemOf(src, catalog[src.productId]);
      if KeyOf(src) != KeyOf(row) {
        assert src in s.cartItems;
      }
    }
    WithoutOnlyProduct(joined, product.id);
    UpsertCounts(s.cartItems, row);
    DeleteKeyCounts(t.cartItems, KeyOf(row));
    NoKeyForUnusedCart(s.cartItems, newId, product.id);
    assert Counts(s.cartItems)[KeyOf(row) := n] - {KeyOf(row)} == Counts(s.cartItems);
  }

  /**
   * The walk-through of a new user: find-or-create makes cart `newId` with no
   * items; adding 2 of a product returns just that item; setting its count to 0
   * returns no items, and the table holds the counts it held before.
   */
  lemma NewUserScenario(s: Store, catalog: map<ProductId, CatalogEntry>, userId: UserId,
                        newId: CartId, id2: CartId, id3: CartId, product: Product)
    requires userId != "" && newId != "" && FreshCartId(s, newId)
    requires Find(s, catalog, userId, OPEN).None?
    ensures var c1 := FindOrCreate(s, catalog, OPEN, userId, newId);
      var u2 := Update(c1.1, catalog, OPEN, userId, CartItem(product, 2.0), id2);
      var u3 := Update(u2.1, catalog, OPEN, userId, CartItem(product, 0.0), id3);
      && c1.0 == Cart(newId, userId, OPEN, [])
      && u2.0 == Some(Cart(newId, userId, OPEN, [CartItem(product, 2.0)]))
      && u3.0 == Some(Cart(newId, userId, OPEN, []))
      && Counts(u3.1.cartItems) == Counts(s.cartItems)
  {
    AddToNewCart(s, catalog, userId, newId, id2, CartItem(product, 2.0));
    ClearNewCart(s, catalog, userId, newId, id3, product, 2.0);
  }

  /** After removing a user's carts, finding that user's cart gives nothing, in any status. */
  lemma FindAfterRemove(s: Store, catalog: map<ProductId, CatalogEntry>, userId: UserId, status: CartStatus)
    ensures Find(Store(DeleteByUser(s.carts, userId), s.cartItems), catalog, userId, status) == None
  {
  }

  // ---------------------------------------------------------------- class

  class CartService {
    var carts: seq<CartRow>
    var cartItems: seq<ItemRow>
    /** The `products` table, only read. */
    const catalog: map<ProductId, CatalogEntry>
    /** The default of `carts.status`, which a new cart row gets. */
    const defaultStatus: CartStatus

    function State(): Store
      reads this
    {
      Store(carts, cartItems)
    }

    ghost predicate Valid()
      reads this
    {
      ValidStore(State())
    }

    constructor (catalog: map<ProductId, CatalogEntry>, defaultStatus: CartStatus)
      ensures Valid() && carts == [] && cartItems == []
      ensures this.catalog == catalog && this.defaultStatus == defaultStatus
    {
      this.catalog := catalog;
      this.defaultStatus := defaultStatus;
      carts := [];
      cartItems := [];
    }

    method FindByUserId(userId: UserId, status: CartStatus := OPEN) returns (cart: Option<Cart>)
      ensures cart == Find(State(), catalog, userId, status)
    {
      if userId == "" {
        return None;
      }
      var first := FirstMatch(carts, userId, status);
      if first.None? {
        return None;
      }
      var row := carts[first.value];
      var items := JoinItems(cartItems, row.id, catalog);
      cart := Some(Cart(row.id, row.userId, row.status, items));
    }

    method CreateByUserId(userId: UserId, newId: CartId) returns (row: CartRow)
      requires Valid() && FreshCartId(State(), newId)
      modifies this
      ensures Valid()
      ensures row == CartRow(newId, userId, defaultStatus)
      ensures carts == old(carts) + [row] && cartItems == old(cartItems)
    {
      row := CartRow(newId, userId, defaultStatus);
      UniqueIdsAppend(carts, row);
      carts := carts + [row];
    }

    method FindOrCreateByUserId(userId: UserId, newId: CartId) returns (cart: Cart)
      requires Valid() && FreshCartId(State(), newId)
      modifies this
      ensures Valid()
      ensures (cart, State()) == FindOrCreate(old(State()), catalog, defaultStatus, userId, newId)
    {
      var found := FindByUserId(userId);
      if found.Some? {
        return found.value;
      }
      var row := CreateByUserId(userId, newId);
      cart := Cart(row.id, row.userId, row.status, []);
    }

    method UpdateByUserId(userId: UserId, update: CartItem, newId: CartId) returns (cart: Option<Cart>)
      requires Valid() && FreshCartId(State(), newId)
      modifies this
      ensures Valid()
      ensures (cart, State()) == Update(old(State()), catalog, defaultStatus, userId, update, newId)
    {
      UpdateKeepsValid(State(), catalog, defaultStatus, userId, update, newId);
      var resolved := FindOrCreateByUserId(userId, newId);
      if resolved.id == "" {
        return None;
      }
      var productId := update.product.id;
      if update.count > 0.0 {
        cartItems := Upsert(cartItems, ItemRow(resolved.id, productId, update.count));
        cart := Some(resolved.(items := [update] + WithoutProduct(resolved.items, productId)));
        return;
      }
      cartItems := DeleteKey(cartItems, (resolved.id, productId));
      cart := Some(resolved.(items := WithoutProduct(resolved.items, productId)));
    }

    method RemoveByUserId(userId: UserId)
      requires Valid()
      modifies this
      ensures Valid()
      ensures carts == DeleteByUser(old(carts), userId) && cartItems == old(cartItems)
    {
      carts := DeleteByUser(carts, userId);
    }

    method ChangeCartStatusTransacted(cartId: CartId, status: CartStatus := ORDERED) returns (statuses: seq<CartStatus>)
      requires Valid()
      modifies this
      ensures Valid()
      ensures carts == SetStatus(old(carts), cartId, status) && cartItems == old(cartItems)
      ensures statuses == if cartId in IdsOf(old(carts)) then [status] else []
    {
      statuses := UpdatedStatuses(carts, cartId, status);
      SetStatusKeepsIds(carts, cartId, status);
      carts := SetStatus(carts, cartId, status);
    }
  }
}
