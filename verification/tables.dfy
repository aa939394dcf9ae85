/**
 * The rows of the `carts`, `cart_items` and `products` tables, and the single
 * SQL statements the cart service issues against them, as functions on the
 * table contents.  A table is a sequence of rows in storage order.
 */
module Tables {
  import opened Wrappers

  type UserId = string
  type CartId = string
  type ProductId = string

  datatype CartStatus = OPEN | ORDERED

  /** A row of `carts(id, user_id, status)`. */
  datatype CartRow = CartRow(id: CartId, userId: UserId, status: CartStatus)

  /** A row of `cart_items(cart_id, product_id, count)`; `(cart_id, product_id)` is unique. */
  datatype ItemRow = ItemRow(cartId: CartId, productId: ProductId, count: real)

  type Key = (CartId, ProductId)

  function KeyOf(row: ItemRow): Key {
    (row.cartId, row.productId)
  }

  /** The display columns of a `products` row; the catalog maps `products.id` to them. */
  datatype CatalogEntry = CatalogEntry(title: Option<string>, description: Option<string>, price: real)

  /** The product of a cart item, as the service returns it and as a request carries it. */
  datatype Product = Product(id: ProductId, title: Option<string>, description: Option<string>, price: real)

  datatype CartItem = CartItem(product: Product, count: real)

  /** Every product id occurs at most once in an item list. */
  predicate DistinctProducts(items: seq<CartItem>) {
    forall i, j :: 0 <= i < j < |items| ==> items[i].product.id != items[j].product.id
  }

  /** A cart as the service returns it: the `carts` row plus its item list. */
  datatype Cart = Cart(id: CartId, userId: UserId, status: CartStatus, items: seq<CartItem>)

  // ---------------------------------------------------------------- carts

  predicate Matches(row: CartRow, userId: UserId, status: CartStatus) {
    row.userId == userId && row.status == status
  }

  /** `where user_id = userId and status = status .first()`: the index of the first matching row. */
  function FirstMatch(carts: seq<CartRow>, userId: UserId, status: CartStatus): (r: Option<nat>)
    ensures r.None? <==> forall i :: 0 <= i < |carts| ==> !Matches(carts[i], userId, status)
    ensures r.Some? ==> r.value < |carts| && Matches(carts[r.value], userId, status)
    ensures r.Some? ==> forall j :: 0 <= j < r.value ==> !Matches(carts[j], userId, status)
  {
    if carts == [] then None
    else if Matches(carts[0], userId, status) then Some(0)
    else match FirstMatch(carts[1..], userId, status)
      case None => None
      case Some(i) => Some(i + 1)
  }

  /** The ids of the rows of `carts`. */
  function IdsOf(carts: seq<CartRow>): (ids: set<CartId>)
    ensures forall c :: c in carts ==> c.id in ids
  {
    if carts == [] then {} else {carts[0].id} + IdsOf(carts[1..])
  }

  /** `carts.id` is a primary key. */
  predicate UniqueIds(carts: seq<CartRow>) {
    carts == [] || (carts[0].id !in IdsOf(carts[1..]) && UniqueIds(carts[1..]))
  }

  /** `delete from carts where user_id = userId`. */
  function DeleteByUser(carts: seq<CartRow>, userId: UserId): (r: seq<CartRow>)
    ensures forall c :: c in r <==> c in carts && c.userId != userId
    ensures IdsOf(r) <= IdsOf(carts)
    ensures UniqueIds(carts) ==> UniqueIds(r)
  {
    if carts == [] then []
    else if carts[0].userId == userId then DeleteByUser(carts[1..], userId)
    else [carts[0]] + DeleteByUser(carts[1..], userId)
  }

  /** `update carts set status = status where id = cartId`. */
  function SetStatus(carts: seq<CartRow>, cartId: CartId, status: CartStatus): (r: seq<CartRow>)
    ensures |r| == |carts|
    ensures forall i :: 0 <= i < |r| ==> r[i].id == carts[i].id && r[i].userId == carts[i].userId
    ensures forall i :: 0 <= i < |r| ==> r[i].status == if carts[i].id == cartId then status else carts[i].status
  {
    if carts == [] then []
    else [if carts[0].id == cartId then carts[0].(status := status) else carts[0]]
         + SetStatus(carts[1..], cartId, status)
  }

  /** `... returning('status')`: one entry per updated row. */
  function UpdatedStatuses(carts: seq<CartRow>, cartId: CartId, status: CartStatus): (r: seq<CartStatus>)
    ensures cartId !in IdsOf(carts) ==> r == []
    ensures UniqueIds(carts) && cartId in IdsOf(carts) ==> r == [status]
  {
    if carts == [] then []
    else (if carts[0].id == cartId then [status] else []) + UpdatedStatuses(carts[1..], cartId, status)
  }

  // ----------------------------------------------------------- cart_items

  /** The keys present in `cart_items`. */
  function KeysOf(rows: seq<ItemRow>): (keys: set<Key>)
    ensures forall x :: x in rows ==> KeyOf(x) in keys
  {
    if rows == [] then {} else {KeyOf(rows[0])} + KeysOf(rows[1..])
  }

  /** The unique constraint on `cart_items(cart_id, product_id)`. */
  predicate NoDuplicateKeys(rows: seq<ItemRow>) {
    rows == [] || (KeyOf(rows[0]) !in KeysOf(rows[1..]) && NoDuplicateKeys(rows[1..]))
  }

  /** Counts are never stored non-positive: a count <= 0 is a deletion. */
  predicate PositiveCounts(rows: seq<ItemRow>) {
    forall x :: x in rows ==> x.count > 0.0
  }

  /** The table viewed as a map from `(cart_id, product_id)` to `count`. */
  function Counts(rows: seq<ItemRow>): (m: map<Key, real>)
    ensures m.Keys == KeysOf(rows)
  {
    if rows == [] then map[] else Counts(rows[1..])[KeyOf(rows[0]) := rows[0].count]
  }

  /**
   * `insert ... on conflict (cart_id, product_id) merge`: the row with the same key
   * is overwritten where it stands, or the row is appended when there is none.
   */
  function Upsert(rows: seq<ItemRow>, row: ItemRow): (r: seq<ItemRow>)
    ensures |r| == |rows| || |r| == |rows| + 1
  {
    if rows == [] then [row]
    else if KeyOf(rows[0]) == KeyOf(row) then [row] + rows[1..]
    else [rows[0]] + Upsert(rows[1..], row)
  }

  /** `delete from cart_items where cart_id = key.0 and product_id = key.1`; nothing if absent. */
  function DeleteKey(rows: seq<ItemRow>, key: Key): (r: seq<ItemRow>)
    ensures |r| <= |rows|
  {
    if rows == [] then []
    else if KeyOf(rows[0]) == key then DeleteKey(rows[1..], key)
    else [rows[0]] + DeleteKey(rows[1..], key)
  }

  /** The item a joined `cart_items`/`products` row becomes: `product.id` is `product_id`. */
  function ItemOf(row: ItemRow, entry: CatalogEntry): CartItem {
    CartItem(Product(row.productId, entry.title, entry.description, entry.price), row.count)
  }

  /**
   * `select ... from cart_items join products on product_id = products.id
   *  where cart_id = cartId`, mapped to cart items, in storage order.
   */
  function JoinItems(rows: seq<ItemRow>, cartId: CartId, catalog: map<ProductId, CatalogEntry>): (r: seq<CartItem>)
    ensures |r| <= |rows|
    ensures forall x :: x in r <==>
      exists row :: row in rows && row.cartId == cartId && row.productId in catalog && x == ItemOf(row, catalog[row.productId])
  {
    if rows == [] then []
    else
      var rest := JoinItems(rows[1..], cartId, catalog);
      if rows[0].cartId == cartId && rows[0].productId in catalog
      then [ItemOf(rows[0], catalog[rows[0].productId])] + rest
      else rest
  }

  // --------------------------------------------------------------- lemmas

  /** Inserting a row after the others leaves an earlier match first, or makes the new row the first. */
  lemma {:induction false} FirstMatchAppend(carts: seq<CartRow>, row: CartRow, userId: UserId, status: CartStatus)
    requires FirstMatch(carts, userId, status).None?
    ensures FirstMatch(carts + [row], userId, status) ==
      if Matches(row, userId, status) then Some(|carts|) else None
  {
    var all := carts + [row];
    assert all[|carts|] == row;
    assert forall i :: 0 <= i < |carts| ==> all[i] == carts[i];
  }

  /** Deleting a user's carts leaves none for `where user_id = userId`, whatever the status. */
  lemma {:induction false} NoMatchAfterDelete(carts: seq<CartRow>, userId: UserId, status: CartStatus)
    ensures FirstMatch(DeleteByUser(carts, userId), userId, status) == None
  {
  }

  /** Setting the same status twice is setting it once. */
  lemma {:induction false} SetStatusIdempotent(carts: seq<CartRow>, cartId: CartId, status: CartStatus)
    ensures SetStatus(SetStatus(carts, cartId, status), cartId, status) == SetStatus(carts, cartId, status)
  {
  }

  /** The status update keeps the set of cart ids, hence the primary key. */
  lemma {:induction false} SetStatusKeepsIds(carts: seq<CartRow>, cartId: CartId, status: CartStatus)
    ensures IdsOf(SetStatus(carts, cartId, status)) == IdsOf(carts)
    ensures UniqueIds(carts) ==> UniqueIds(SetStatus(carts, cartId, status))
  {
    if carts != [] {
      SetStatusKeepsIds(carts[1..], cartId, status);
      var r := SetStatus(carts, cartId, status);
      assert r[1..] == SetStatus(carts[1..], cartId, status);
    }
  }

  /** The upserted row is stored, and every row with another key is kept, and no row is added with another key. */
  lemma {:induction false} UpsertRows(rows: seq<ItemRow>, row: ItemRow)
    ensures row in Upsert(rows, row)
    ensures forall x :: KeyOf(x) != KeyOf(row) ==> (x in Upsert(rows, row) <==> x in rows)
  {
    if rows != [] && KeyOf(rows[0]) != KeyOf(row) {
      UpsertRows(rows[1..], row);
      assert Upsert(rows, row) == [rows[0]] + Upsert(rows[1..], row);
      assert rows == [rows[0]] + rows[1..];
    }
  }

  /** The upsert keeps the unique key, and afterwards exactly one row has the upserted key. */
  lemma {:induction false} UpsertKeepsUnique(rows: seq<ItemRow>, row: ItemRow)
    requires NoDuplicateKeys(rows)
    ensures KeysOf(Upsert(rows, row)) == KeysOf(rows) + {KeyOf(row)}
    ensures NoDuplicateKeys(Upsert(rows, row))
    ensures forall x :: x in Upsert(rows, row) && KeyOf(x) == KeyOf(row) ==> x == row
  {
    if rows != [] {
      if KeyOf(rows[0]) == KeyOf(row) {
        NotInKeysOf(rows[1..], KeyOf(row));
      } else {
        UpsertKeepsUnique(rows[1..], row);
      }
    }
  }

  /** A key outside `KeysOf(rows)` is the key of no row. */
  lemma {:induction false} NotInKeysOf(rows: seq<ItemRow>, key: Key)
    requires key !in KeysOf(rows)
    ensures forall x :: x in rows ==> KeyOf(x) != key
  {
  }

  /** The delete keeps exactly the rows with another key. */
  lemma {:induction false} DeleteKeyRows(rows: seq<ItemRow>, key: Key)
    ensures forall x :: x in DeleteKey(rows, key) <==> x in rows && KeyOf(x) != key
  {
    if rows != [] {
      DeleteKeyRows(rows[1..], key);
      assert rows == [rows[0]] + rows[1..];
    }
  }

  /** The delete keeps the unique key and removes exactly its key from the key set. */
  lemma {:induction false} DeleteKeyKeepsUnique(rows: seq<ItemRow>, key: Key)
    ensures KeysOf(DeleteKey(rows, key)) == KeysOf(rows) - {key}
    ensures NoDuplicateKeys(rows) ==> NoDuplicateKeys(DeleteKey(rows, key))
  {
    if rows != [] {
      DeleteKeyKeepsUnique(rows[1..], key);
    }
  }

  /** In the map view, the upsert sets exactly one key. */
  lemma {:induction false} UpsertCounts(rows: seq<ItemRow>, row: ItemRow)
    ensures Counts(Upsert(rows, row)) == Counts(rows)[KeyOf(row) := row.count]
  {
    if rows != [] && KeyOf(rows[0]) != KeyOf(row) {
      UpsertCounts(rows[1..], row);
      var r := Upsert(rows, row);
      var m := Counts(rows[1..]);
      assert r[1..] == Upsert(rows[1..], row);
      assert Counts(r) == m[KeyOf(row) := row.count][KeyOf(rows[0]) := rows[0].count];
      assert m[KeyOf(row) := row.count][KeyOf(rows[0]) := rows[0].count]
          == m[KeyOf(rows[0]) := rows[0].count][KeyOf(row) := row.count];
    }
  }

  /** In the map view, the delete removes exactly one key, present or not. */
  lemma {:induction false} DeleteKeyCounts(rows: seq<ItemRow>, key: Key)
    ensures Counts(DeleteKey(rows, key)) == Counts(rows) - {key}
  {
    if rows != [] {
      DeleteKeyCounts(rows[1..], key);
      if KeyOf(rows[0]) != key {
        var r := DeleteKey(rows, key);
        assert r[1..] == DeleteKey(rows[1..], key);
      }
    }
  }

  /** Repeating an upsert changes nothing further. */
  lemma {:induction false} UpsertIdempotent(rows: seq<ItemRow>, row: ItemRow)
    ensures Upsert(Upsert(rows, row), row) == Upsert(rows, row)
  {
    if rows != [] && KeyOf(rows[0]) != KeyOf(row) {
      UpsertIdempotent(rows[1..], row);
      var r := Upsert(rows, row);
      assert r[1..] == Upsert(rows[1..], row);
    }
  }

  /** Repeating a delete changes nothing further. */
  lemma {:induction false} DeleteKeyIdempotent(rows: seq<ItemRow>, key: Key)
    ensures DeleteKey(DeleteKey(rows, key), key) == DeleteKey(rows, key)
  {
    if rows != [] {
      DeleteKeyIdempotent(rows[1..], key);
      if KeyOf(rows[0]) != key {
        var r := DeleteKey(rows, key);
        assert r[1..] == DeleteKey(rows[1..], key);
      }
    }
  }

  /** The upsert never stores a non-positive count unless asked to. */
  lemma UpsertKeepsPositive(rows: seq<ItemRow>, row: ItemRow)
    requires PositiveCounts(rows) && row.count > 0.0
    ensures PositiveCounts(Upsert(rows, row))
  {
  }

  /** Under the unique key, the map view holds each stored row's count at its key. */
  lemma {:induction false} CountsOfRow(rows: seq<ItemRow>, x: ItemRow)
    requires NoDuplicateKeys(rows) && x in rows
    ensures KeyOf(x) in Counts(rows) && Counts(rows)[KeyOf(x)] == x.count
  {
    if rows[0] != x {
      assert rows == [rows[0]] + rows[1..];
      assert x in rows[1..];
      CountsOfRow(rows[1..], x);
    }
  }

  /**
   * Under the unique key the join yields one item per product: the items of a
   * cart have distinct product ids.
   */
  lemma {:induction false} JoinItemsDistinct(rows: seq<ItemRow>, cartId: CartId, catalog: map<ProductId, CatalogEntry>)
    requires NoDuplicateKeys(rows)
    ensures DistinctProducts(JoinItems(rows, cartId, catalog))
  {
    if rows != [] {
      JoinItemsDistinct(rows[1..], cartId, catalog);
      var rest := JoinItems(rows[1..], cartId, catalog);
      var r := JoinItems(rows, cartId, catalog);
      if rows[0].cartId == cartId && rows[0].productId in catalog {
        assert r == [ItemOf(rows[0], catalog[rows[0].productId])] + rest;
        forall x | x in rest ensures x.product.id != rows[0].productId {
          var src :| src in rows[1..] && src.cartId == cartId && src.productId in catalog
                     && x == ItemOf(src, catalog[src.productId]);
          assert KeyOf(src) in KeysOf(rows[1..]);
        }
        forall i, j | 0 <= i < j < |r| ensures r[i].product.id != r[j].product.id {
          assert r[j] == rest[j - 1] && rest[j - 1] in rest;
          if i == 0 {
            assert r[i].product.id == rows[0].productId;
          } else {
            assert r[i] == rest[i - 1];
            assert rest[i - 1].product.id != rest[j - 1].product.id;
          }
        }
      } else {
        assert r == rest;
        forall i, j | 0 <= i < j < |r| ensures r[i].product.id != r[j].product.id {
          assert rest[i].product.id != rest[j].product.id;
        }
      }
    }
  }

  /** A cart no item row refers to joins to an empty item list. */
  lemma {:induction false} JoinNoRows(rows: seq<ItemRow>, cartId: CartId, catalog: map<ProductId, CatalogEntry>)
    requires forall x :: x in rows ==> x.cartId != cartId
    ensures JoinItems(rows, cartId, catalog) == []
  {
    if rows != [] {
      assert rows[0] in rows;
      JoinNoRows(rows[1..], cartId, catalog);
    }
  }
}
