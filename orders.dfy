/** An order message once decoded, and what applying its items does to the
    "Products" table: the inventory loop of ProcessOrderAsync as a function of
    the table before it. */
module Orders {
  import opened Int32Math
  import opened TableStorage

  datatype OrderItem = OrderItem(productId: string, quantity: Int32)

  datatype Order = Order(orderId: string, items: seq<OrderItem>)

  /** What deserialising a message text into an Order yields. */
  datatype Decoded =
    | Decoded(order: Order)  // a non-null Order whose Items list is non-null
    | JsonError              // the JSON library raised a JsonException (syntax, wrong types, int overflow)
    | NullOrderOrItems       // the text decoded to null, or Items was missing or null

  /** Every product row the worker reads lives in this partition. */
  const ProductsPartition: string := "Products"

  /** The row the worker reads for a product id. */
  function ProductAddress(productId: string): Key {
    Key(ProductsPartition, productId)
  }

  /** The test the worker makes before writing: the row exists and holds at
      least the quantity asked for. */
  predicate Fills(products: map<Key, ProductEntity>, item: OrderItem) {
    var k := ProductAddress(item.productId);
    k in products && products[k].quantityInStock >= item.quantity
  }

  /** One iteration of the inventory loop: re-read the row, and when it fills
      the item, write it back with its stock lowered by the quantity. */
  function ApplyItem(products: map<Key, ProductEntity>, item: OrderItem): (r: map<Key, ProductEntity>)
    ensures r.Keys == products.Keys
    ensures !Fills(products, item) ==> r == products
    ensures forall k :: k in products && k != ProductAddress(item.productId) ==> r[k] == products[k]
    ensures Fills(products, item) ==>
              var k := ProductAddress(item.productId);
              var before := products[k].quantityInStock;
              && r[k] == products[k].(quantityInStock := r[k].quantityInStock)
              && (r[k].quantityInStock - (before - item.quantity)) % Modulus == 0
              && (before - item.quantity <= MaxInt32 ==> r[k].quantityInStock == before - item.quantity)
              && (r[k].quantityInStock >= 0 <==> before - item.quantity <= MaxInt32)
    ensures WellKeyed(products, ProductKeyOf) ==> WellKeyed(r, ProductKeyOf)
  {
    var k := ProductAddress(item.productId);
    if Fills(products, item) then
      products[k := products[k].(quantityInStock := Sub32(products[k].quantityInStock, item.quantity))]
    else
      products
  }

  /** The whole inventory loop: the items applied one after the other, in list
      order, each seeing the writes of the ones before it. */
  function ApplyItems(products: map<Key, ProductEntity>, items: seq<OrderItem>): (r: map<Key, ProductEntity>)
    ensures r.Keys == products.Keys
    ensures WellKeyed(products, ProductKeyOf) ==> WellKeyed(r, ProductKeyOf)
    decreases |items|
  {
    if items == [] then products
    else ApplyItem(ApplyItems(products, items[..|items| - 1]), items[|items| - 1])
  }

  /** Applying one more item continues from the table the earlier items left. */
  lemma ApplyItemsStep(products: map<Key, ProductEntity>, items: seq<OrderItem>, i: nat)
    requires i < |items|
    ensures ApplyItems(products, items[..i + 1]) == ApplyItem(ApplyItems(products, items[..i]), items[i])
  {
    assert items[..i + 1][..i] == items[..i];
  }

  /** Items are applied in order and compound: applying a list split in two is
      applying the second part to what the first part left. */
  lemma {:induction false} ApplyItemsAppend(products: map<Key, ProductEntity>, a: seq<OrderItem>, b: seq<OrderItem>)
    ensures ApplyItems(products, a + b) == ApplyItems(ApplyItems(products, a), b)
    decreases |b|
  {
    if b == [] {
      assert a + b == a;
    } else {
      var front := b[..|b| - 1];
      assert (a + b)[..|a + b| - 1] == a + front;
      assert (a + b)[|a + b| - 1] == b[|b| - 1];
      ApplyItemsAppend(products, a, front);
    }
  }

  /** A row that no item names comes out exactly as it went in. */
  lemma {:induction false} UnnamedRowUnchanged(products: map<Key, ProductEntity>, items: seq<OrderItem>, k: Key)
    requires k in products
    requires forall i :: 0 <= i < |items| ==> ProductAddress(items[i].productId) != k
    ensures ApplyItems(products, items)[k] == products[k]
    decreases |items|
  {
    if items != [] {
      UnnamedRowUnchanged(products, items[..|items| - 1], k);
    }
  }

  /** In particular no row outside the "Products" partition ever changes. */
  lemma OtherPartitionUnchanged(products: map<Key, ProductEntity>, items: seq<OrderItem>, k: Key)
    requires k in products && k.partitionKey != ProductsPartition
    ensures ApplyItems(products, items)[k] == products[k]
  {
    UnnamedRowUnchanged(products, items, k);
  }

  /** Of a named row, only QuantityInStock changes. */
  lemma {:induction false} OnlyStockChanges(products: map<Key, ProductEntity>, items: seq<OrderItem>, k: Key)
    requires k in products
    ensures ApplyItems(products, items)[k] == products[k].(quantityInStock := ApplyItems(products, items)[k].quantityInStock)
    decreases |items|
  {
    if items != [] {
      OnlyStockChanges(products, items[..|items| - 1], k);
    }
  }

  ghost predicate StockNonNegative(products: map<Key, ProductEntity>) {
    forall k :: k in products ==> products[k].quantityInStock >= 0
  }

  ghost predicate QuantitiesNonNegative(items: seq<OrderItem>) {
    forall i :: 0 <= i < |items| ==> items[i].quantity >= 0
  }

  /** A write happens only when the stock covers the quantity, so with
      non-negative quantities no stock goes below zero and none goes up. */
  lemma {:induction false} StockStaysNonNegative(products: map<Key, ProductEntity>, items: seq<OrderItem>)
    requires StockNonNegative(products)
    requires QuantitiesNonNegative(items)
    ensures StockNonNegative(ApplyItems(products, items))
    ensures forall k :: k in products ==> ApplyItems(products, items)[k].quantityInStock <= products[k].quantityInStock
    decreases |items|
  {
    if items != [] {
      var front := items[..|items| - 1];
      StockStaysNonNegative(products, front);
    }
  }

  /** The quantity the items ask of one product in total. */
  function Demand(items: seq<OrderItem>, productId: string): (d: int)
    ensures QuantitiesNonNegative(items) ==> d >= 0
    decreases |items|
  {
    if items == [] then 0
    else
      var last := items[|items| - 1];
      Demand(items[..|items| - 1], productId) + (if last.productId == productId then last.quantity else 0)
  }

  /** Repeated items for one product compound: when the stock covers what the
      order asks of that product in total, every one of them is applied and
      the stock drops by exactly that total. */
  lemma {:induction false} DemandMet(products: map<Key, ProductEntity>, items: seq<OrderItem>, productId: string)
    requires ProductAddress(productId) in products
    requires QuantitiesNonNegative(items)
    requires Demand(items, productId) <= products[ProductAddress(productId)].quantityInStock
    ensures ApplyItems(products, items)[ProductAddress(productId)].quantityInStock
            == products[ProductAddress(productId)].quantityInStock - Demand(items, productId)
    decreases |items|
  {
    if items != [] {
      var front := items[..|items| - 1];
      var last := items[|items| - 1];
      assert QuantitiesNonNegative(front) by {
        forall i | 0 <= i < |front| ensures front[i].quantity >= 0 {
          assert front[i] == items[i];
        }
      }
      assert Demand(front, productId) <= Demand(items, productId) by {
        assert last.quantity >= 0;
      }
      DemandMet(products, front, productId);
      if last.productId != productId {
        assert ProductAddress(last.productId) != ProductAddress(productId);
      }
    }
  }

  /** Each item re-reads the row: a second item for a product sees the first
      one's decrement, and is skipped when what is left no longer covers it,
      even though the stock before the order would have. */
  lemma SecondItemSeesFirstDecrement(products: map<Key, ProductEntity>, productId: string, first: Int32, second: Int32)
    requires ProductAddress(productId) in products
    requires 0 <= first <= products[ProductAddress(productId)].quantityInStock
    requires products[ProductAddress(productId)].quantityInStock - first < second
    ensures ApplyItems(products, [OrderItem(productId, first), OrderItem(productId, second)])[ProductAddress(productId)].quantityInStock
            == products[ProductAddress(productId)].quantityInStock - first
  {
    var items := [OrderItem(productId, first), OrderItem(productId, second)];
    var k := ProductAddress(productId);
    ApplyItemsStep(products, items, 0);
    ApplyItemsStep(products, items, 1);
    assert items[..0] == [] && items[..2] == items;
    var afterFirst := ApplyItem(products, items[0]);
    assert afterFirst[k].quantityInStock == products[k].quantityInStock - first;
    assert !Fills(afterFirst, items[1]);
  }

  /** The quantity is never checked to be positive: a negative quantity that
      the row "covers" raises the stock. */
  lemma NegativeQuantityRaisesStock(products: map<Key, ProductEntity>, item: OrderItem)
    requires ProductAddress(item.productId) in products
    requires item.quantity < 0
    requires products[ProductAddress(item.productId)].quantityInStock >= 0
    requires products[ProductAddress(item.productId)].quantityInStock - item.quantity <= MaxInt32
    ensures ApplyItem(products, item)[ProductAddress(item.productId)].quantityInStock
            > products[ProductAddress(item.productId)].quantityInStock
  {
  }

  /** ...and because `-=` on an int wraps, a quantity of int.MinValue against
      an empty row drives the stored stock to int.MinValue. */
  lemma MinValueQuantityWrapsStockNegative(product: ProductEntity)
    requires product.partitionKey == ProductsPartition && product.quantityInStock == 0
    ensures var products := map[ProductKeyOf(product) := product];
            var item := OrderItem(product.rowKey, MinInt32);
            Fills(products, item) && ApplyItem(products, item)[ProductKeyOf(product)].quantityInStock == MinInt32
  {
  }
}
