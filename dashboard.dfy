/**
 * The admin dashboard's figures: orders per status, revenue without
 * cancelled orders, products per category and units sold per product over
 * delivered orders. The two dictionaries the page fills in `forEach` loops
 * are methods with loops; the rest are functions.
 */
module Dashboard {
  import opened Domain
  import opened Catalog
  import opened Ledger

  // ---------------------------------------------------------------- status counts and revenue

  /** How many orders carry the status (src/App.js:582-584). */
  function CountStatus(orders: seq<Order>, status: Status): (n: nat)
    ensures n <= |orders|
    ensures n == 0 <==> forall i :: 0 <= i < |orders| ==> orders[i].status != status
    ensures n == |orders| <==> forall i :: 0 <= i < |orders| ==> orders[i].status == status
  {
    if orders == [] then 0 else (if orders[0].status == status then 1 else 0) + CountStatus(orders[1..], status)
  }

  /**
   * A status count is additive over the ledger: one order counts 1 when it
   * has the status and 0 otherwise, and two parts of a ledger add up.
   * Together these fix the count of every ledger.
   */
  lemma CountStatusAppend(a: seq<Order>, b: seq<Order>, status: Status)
    ensures forall o :: CountStatus([o], status) == if o.status == status then 1 else 0
    ensures CountStatus(a + b, status) == CountStatus(a, status) + CountStatus(b, status)
  {
    forall o ensures CountStatus([o], status) == if o.status == status then 1 else 0 {
      CountStatusOne(o, status);
    }
    CountStatusConcat(a, b, status);
  }

  lemma CountStatusOne(o: Order, status: Status)
    ensures CountStatus([o], status) == if o.status == status then 1 else 0
  {
    assert [o][1..] == [];
  }

  lemma {:induction false} CountStatusConcat(a: seq<Order>, b: seq<Order>, status: Status)
    ensures CountStatus(a + b, status) == CountStatus(a, status) + CountStatus(b, status)
  {
    if a == [] {
      assert a + b == b;
    } else {
      var c := a + b;
      assert c[0] == a[0] && c[1..] == a[1..] + b;
      CountStatusConcat(a[1..], b, status);
      var head := if a[0].status == status then 1 else 0;
      assert CountStatus(c, status) == head + CountStatus(a[1..] + b, status);
    }
  }

  /** Every order has exactly one of the three statuses, so the three counts add up to the ledger size. */
  lemma {:induction false} StatusCountsCoverLedger(orders: seq<Order>)
    ensures CountStatus(orders, Placed) + CountStatus(orders, Delivered) + CountStatus(orders, Cancelled) == |orders|
  {
    if orders != [] {
      StatusCountsCoverLedger(orders[1..]);
    }
  }

  /** The sum of the totals of the orders that are not cancelled (src/App.js:585-587). */
  function Revenue(orders: seq<Order>): int
  {
    if orders == [] then 0
    else (if orders[0].status != Cancelled then orders[0].total else 0) + Revenue(orders[1..])
  }

  /** Sum of the totals of the orders with one status. */
  function StatusTotal(orders: seq<Order>, status: Status): int
  {
    if orders == [] then 0
    else (if orders[0].status == status then orders[0].total else 0) + StatusTotal(orders[1..], status)
  }

  /** Revenue is what placed and delivered orders are worth; cancelled orders add nothing. */
  lemma {:induction false} RevenueExcludesCancelled(orders: seq<Order>)
    ensures Revenue(orders) == StatusTotal(orders, Placed) + StatusTotal(orders, Delivered)
  {
    if orders != [] {
      RevenueExcludesCancelled(orders[1..]);
    }
  }

  /** A new order counts at once as placed and towards revenue, with its total. */
  lemma NewOrderFigures(o: Order, orders: seq<Order>)
    requires o.status == Placed
    ensures Revenue([o] + orders) == o.total + Revenue(orders)
    ensures CountStatus([o] + orders, Placed) == CountStatus(orders, Placed) + 1
    ensures CountStatus([o] + orders, Delivered) == CountStatus(orders, Delivered)
  {
    assert ([o] + orders)[1..] == orders;
  }

  // ---------------------------------------------------------------- products per category

  /** How many catalog entries carry the category `c`. */
  function CategoryCount(products: seq<Product>, c: string): nat
  {
    if products == [] then 0
    else CategoryCount(products[..|products| - 1], c) + (if products[|products| - 1].category == c then 1 else 0)
  }

  /**
   * The `categories` dictionary: one key per category seen (the empty
   * category included), mapped to the number of products carrying it.
   */
  method CategoryCounts(products: seq<Product>) returns (counts: map<string, nat>)
    ensures forall c :: c in counts <==> c in CategoriesOf(products)
    ensures forall c :: (if c in counts then counts[c] else 0) == CategoryCount(products, c)
  {
    counts := map[];
    var i := 0;
    while i < |products|
      invariant 0 <= i <= |products|
      invariant forall c :: c in counts <==> c in CategoriesOf(products[..i])
      invariant forall c :: (if c in counts then counts[c] else 0) == CategoryCount(products[..i], c)
    {
      var c := products[i].category;
      counts := counts[c := (if c in counts then counts[c] else 0) + 1];
      assert products[..i + 1][..i] == products[..i];
      assert CategoriesOf(products[..i + 1]) == CategoriesOf(products[..i]) + [c];
      forall x ensures CategoryCount(products[..i + 1], x) == CategoryCount(products[..i], x) + (if x == c then 1 else 0) {
        assert products[..i + 1][i] == products[i];
      }
      i := i + 1;
    }
    assert products[..i] == products;
  }

  /** Sum of the counts of the categories in `keys`. */
  function SumCounts(keys: seq<string>, products: seq<Product>): nat
  {
    if keys == [] then 0 else CategoryCount(products, keys[0]) + SumCounts(keys[1..], products)
  }

  /** Occurrences of `c` in `keys`. */
  function Occurrences(keys: seq<string>, c: string): nat
  {
    if keys == [] then 0 else (if keys[0] == c then 1 else 0) + Occurrences(keys[1..], c)
  }

  lemma {:induction false} SumCountsSnoc(keys: seq<string>, products: seq<Product>, p: Product)
    ensures SumCounts(keys, products + [p]) == SumCounts(keys, products) + Occurrences(keys, p.category)
  {
    assert (products + [p])[..|products + [p]| - 1] == products;
    if keys != [] {
      SumCountsSnoc(keys[1..], products, p);
    }
  }

  lemma {:induction false} OccurrencesOfDistinct(keys: seq<string>, c: string)
    requires NoDuplicates(keys) && c in keys
    ensures Occurrences(keys, c) == 1
  {
    if keys[0] == c {
      OccurrencesAbsent(keys[1..], c);
    } else {
      OccurrencesOfDistinct(keys[1..], c);
    }
  }

  lemma {:induction false} OccurrencesAbsent(keys: seq<string>, c: string)
    requires c !in keys
    ensures Occurrences(keys, c) == 0
  {
    if keys != [] {
      OccurrencesAbsent(keys[1..], c);
    }
  }

  lemma {:induction false} SumCountsCover(keys: seq<string>, products: seq<Product>)
    requires NoDuplicates(keys)
    requires forall p :: p in products ==> p.category in keys
    ensures SumCounts(keys, products) == |products|
  {
    if products == [] {
      SumCountsEmpty(keys);
    } else {
      var n := |products| - 1;
      var prefix := products[..n];
      assert products == prefix + [products[n]];
      SumCountsCover(keys, prefix);
      SumCountsSnoc(keys, prefix, products[n]);
      OccurrencesOfDistinct(keys, products[n].category);
    }
  }

  lemma {:induction false} SumCountsEmpty(keys: seq<string>)
    ensures SumCounts(keys, []) == 0
  {
    if keys != [] {
      SumCountsEmpty(keys[1..]);
    }
  }

  /** The per-category counts, over the distinct categories (the keys of the dictionary), add up to the catalog size. */
  lemma CategoryCountsTotal(products: seq<Product>)
    ensures SumCounts(Distinct(CategoriesOf(products)), products) == |products|
  {
    var cats := CategoriesOf(products);
    forall p | p in products ensures p.category in Distinct(cats) {
      var i :| 0 <= i < |products| && products[i] == p;
      assert cats[i] == p.category;
    }
    SumCountsCover(Distinct(cats), products);
  }

  // ---------------------------------------------------------------- units sold per product

  /** Units of a product in an order's items. */
  function ItemUnits(items: seq<OrderItem>, productId: int): int
  {
    if items == [] then 0
    else ItemUnits(items[..|items| - 1], productId) +
         (if items[|items| - 1].productId == productId then items[|items| - 1].qty else 0)
  }

  /** Units of a product over the delivered orders only. */
  function UnitsSold(orders: seq<Order>, productId: int): int
  {
    if orders == [] then 0
    else UnitsSold(orders[..|orders| - 1], productId) +
         (if orders[|orders| - 1].status == Delivered then ItemUnits(orders[|orders| - 1].items, productId) else 0)
  }

  predicate Mentions(items: seq<OrderItem>, productId: int)
  {
    exists j :: 0 <= j < |items| && items[j].productId == productId
  }

  /** Some delivered order has an item for the product. */
  predicate Sold(orders: seq<Order>, productId: int)
  {
    exists k :: 0 <= k < |orders| && orders[k].status == Delivered && Mentions(orders[k].items, productId)
  }

  /**
   * The `sales` dictionary: a key for each product some delivered order
   * holds, mapped to the units sold; the page shows the entry or 0 when there
   * is none (src/App.js:697), which is the units sold for every product.
   */
  method SalesPerProduct(orders: seq<Order>) returns (sales: map<int, int>)
    ensures forall id :: id in sales <==> Sold(orders, id)
    ensures forall id :: (if id in sales then sales[id] else 0) == UnitsSold(orders, id)
  {
    sales := map[];
    var i := 0;
    while i < |orders|
      invariant 0 <= i <= |orders|
      invariant forall id :: id in sales <==> Sold(orders[..i], id)
      invariant forall id :: (if id in sales then sales[id] else 0) == UnitsSold(orders[..i], id)
    {
      var o := orders[i];
      if o.status == Delivered {
        var j := 0;
        while j < |o.items|
          invariant 0 <= j <= |o.items|
          invariant forall id :: id in sales <==> Sold(orders[..i], id) || Mentions(o.items[..j], id)
          invariant forall id :: (if id in sales then sales[id] else 0) ==
                      UnitsSold(orders[..i], id) + ItemUnits(o.items[..j], id)
        {
          var it := o.items[j];
          sales := sales[it.productId := (if it.productId in sales then sales[it.productId] else 0) + it.qty];
          ItemStep(o.items, j);
          j := j + 1;
        }
        assert o.items[..j] == o.items;
      }
      OrderStep(orders, i);
      i := i + 1;
    }
    assert orders[..i] == orders;
  }

  /** One more item: its product becomes mentioned and gains its quantity. */
  lemma ItemStep(items: seq<OrderItem>, j: nat)
    requires j < |items|
    ensures forall id :: Mentions(items[..j + 1], id) <==> Mentions(items[..j], id) || id == items[j].productId
    ensures forall id :: ItemUnits(items[..j + 1], id) ==
              ItemUnits(items[..j], id) + (if items[j].productId == id then items[j].qty else 0)
  {
    var p := items[..j + 1];
    assert p[..j] == items[..j] && p[j] == items[j];
    forall id ensures Mentions(p, id) <==> Mentions(items[..j], id) || id == items[j].productId {
      if Mentions(p, id) {
        var k :| 0 <= k < j + 1 && p[k].productId == id;
        if k < j { assert items[..j][k].productId == id; }
      }
      if Mentions(items[..j], id) {
        var k :| 0 <= k < j && items[..j][k].productId == id;
        assert p[k].productId == id;
      }
    }
  }

  /** One more order: only a delivered one adds its items to what is sold. */
  lemma OrderStep(orders: seq<Order>, i: nat)
    requires i < |orders|
    ensures forall id :: Sold(orders[..i + 1], id) <==>
              Sold(orders[..i], id) || (orders[i].status == Delivered && Mentions(orders[i].items, id))
    ensures forall id :: UnitsSold(orders[..i + 1], id) ==
              UnitsSold(orders[..i], id) + (if orders[i].status == Delivered then ItemUnits(orders[i].items, id) else 0)
  {
    var p := orders[..i + 1];
    assert p[..i] == orders[..i] && p[i] == orders[i];
    assert forall k :: 0 <= k < i ==> p[k] == orders[..i][k];
  }

  /** A new (placed) order sells nothing until an admin marks it delivered. */
  lemma {:induction false} NewOrderSellsNothing(o: Order, orders: seq<Order>, productId: int)
    requires o.status != Delivered
    ensures UnitsSold([o] + orders, productId) == UnitsSold(orders, productId)
  {
    if orders != [] {
      var n := |orders| - 1;
      NewOrderSellsNothing(o, orders[..n], productId);
      assert ([o] + orders)[..|[o] + orders| - 1] == [o] + orders[..n];
    }
  }

  // ---------------------------------------------------------------- fixture

  /** One delivered order of 120 and one cancelled order of 50: revenue 120, one delivery. */
  lemma RevenueExample(a: Order, b: Order)
    requires a.status == Delivered && a.total == 120
    requires b.status == Cancelled && b.total == 50
    ensures Revenue([a, b]) == 120
    ensures CountStatus([a, b], Delivered) == 1 && CountStatus([a, b], Cancelled) == 1
  {
    var ab := [a, b];
    assert ab[1..] == [b];
    assert [b][1..] == [];
    assert Revenue([b]) == 0 && CountStatus([b], Delivered) == 0 && CountStatus([b], Cancelled) == 1;
  }
}
