/**
 * The item list `updateByUserId` returns, rebuilt in memory from the list the
 * cart was resolved with and the one update, not read back from `cart_items`.
 */
module ItemList {
  import opened Tables

  /** `items.filter(item => item.product.id !== productId)`. */
  function WithoutProduct(items: seq<CartItem>, productId: ProductId): (r: seq<CartItem>)
    ensures |r| <= |items|
    ensures forall x :: x in r <==> x in items && x.product.id != productId
  {
    if items == [] then []
    else if items[0].product.id == productId then WithoutProduct(items[1..], productId)
    else [items[0]] + WithoutProduct(items[1..], productId)
  }

  /**
   * The returned list: `[update, ...items.filter(...)]` when the count is positive,
   * `[...items.filter(...)]` otherwise.
   */
  function UpdatedItems(prior: seq<CartItem>, update: CartItem): seq<CartItem> {
    var others := WithoutProduct(prior, update.product.id);
    if update.count > 0.0 then [update] + others else others
  }

  /** The filter keeps the order: it distributes over concatenation. */
  lemma {:induction false} WithoutProductAppend(a: seq<CartItem>, b: seq<CartItem>, productId: ProductId)
    ensures WithoutProduct(a + b, productId) == WithoutProduct(a, productId) + WithoutProduct(b, productId)
  {
    if a != [] {
      WithoutProductAppend(a[1..], b, productId);
      assert (a + b)[0] == a[0];
      assert (a + b)[1..] == a[1..] + b;
    } else {
      assert a + b == b;
    }
  }

  /** A list without the product is left as it is. */
  lemma {:induction false} WithoutAbsentProduct(items: seq<CartItem>, productId: ProductId)
    requires forall x :: x in items ==> x.product.id != productId
    ensures WithoutProduct(items, productId) == items
  {
    if items != [] {
      assert items[0] in items;
      WithoutAbsentProduct(items[1..], productId);
    }
  }

  /**
   * The shape of the returned list: with a positive count the update comes first
   * and is the only item for its product; otherwise no item has that product.
   * Every other item is a prior item of another product, and every prior item of
   * another product is kept.
   */
  lemma UpdatedItemsShape(prior: seq<CartItem>, update: CartItem)
    ensures var r := UpdatedItems(prior, update);
      && (update.count > 0.0 ==> |r| > 0 && r[0] == update)
      && (forall i :: 0 <= i < |r| && r[i].product.id == update.product.id ==> i == 0 && update.count > 0.0)
      && (forall x :: x in r && x.product.id != update.product.id <==> x in prior && x.product.id != update.product.id)
  {
  }

  /** Rebuilding the list twice with the same update gives the list rebuilt once. */
  lemma UpdatedItemsIdempotent(prior: seq<CartItem>, update: CartItem)
    ensures UpdatedItems(UpdatedItems(prior, update), update) == UpdatedItems(prior, update)
  {
    var p := update.product.id;
    var others := WithoutProduct(prior, p);
    WithoutAbsentProduct(others, p);
    if update.count > 0.0 {
      assert WithoutProduct([update] + others, p) == others by {
        assert ([update] + others)[1..] == others;
      }
    }
  }

  /** The rebuilt list keeps product ids distinct. */
  lemma UpdatedItemsDistinct(prior: seq<CartItem>, update: CartItem)
    requires DistinctProducts(prior)
    ensures DistinctProducts(UpdatedItems(prior, update))
  {
    WithoutProductDistinct(prior, update.product.id);
    UpdatedItemsShape(prior, update);
  }

  lemma {:induction false} WithoutProductDistinct(items: seq<CartItem>, productId: ProductId)
    requires DistinctProducts(items)
    ensures DistinctProducts(WithoutProduct(items, productId))
  {
    if items != [] {
      WithoutProductDistinct(items[1..], productId);
      var rest := WithoutProduct(items[1..], productId);
      forall x | x in rest ensures x.product.id != items[0].product.id {
        var k :| 0 <= k < |items[1..]| && items[1..][k] == x;
        assert items[k + 1] == x;
      }
    }
  }
}
