/**
 * The order ledger: the price snapshot and total built at checkout, the
 * admin's status overwrite, and the "my orders" view.
 */
module Ledger {
  import opened Domain
  import opened Catalog
  import opened Carts

  /** Each cart line with the product's current price recorded beside it, 0 for a product no longer listed (src/App.js:470-473). */
  function Snapshot(cart: seq<CartLine>, products: seq<Product>): (items: seq<OrderItem>)
    ensures |items| == |cart|
    ensures forall i :: 0 <= i < |cart| ==>
              && items[i].productId == cart[i].productId
              && items[i].qty == cart[i].qty
              && items[i].priceAtPurchase == PriceOf(products, cart[i].productId)
  {
    if cart == [] then []
    else [OrderItem(cart[0].productId, cart[0].qty, PriceOf(products, cart[0].productId))] + Snapshot(cart[1..], products)
  }

  /** The sum of quantity times recorded price over the items: reads only the snapshot, never the catalog (src/App.js:474). */
  function ItemsTotal(items: seq<OrderItem>): int
  {
    if items == [] then 0 else items[0].qty * items[0].priceAtPurchase + ItemsTotal(items[1..])
  }

  /** The item sum is additive: one item is worth its quantity times its recorded price, and two parts of an order add up. */
  lemma {:induction false} ItemsTotalAppend(a: seq<OrderItem>, b: seq<OrderItem>)
    ensures forall item :: ItemsTotal([item]) == item.qty * item.priceAtPurchase
    ensures ItemsTotal(a + b) == ItemsTotal(a) + ItemsTotal(b)
  {
    forall item ensures ItemsTotal([item]) == item.qty * item.priceAtPurchase {
      ItemsTotalOne(item);
    }
    if a == [] {
      assert a + b == b;
    } else {
      ItemsTotalAppend(a[1..], b);
      assert (a + b)[1..] == a[1..] + b;
    }
  }

  lemma ItemsTotalOne(item: OrderItem)
    ensures ItemsTotal([item]) == item.qty * item.priceAtPurchase
  {
    assert [item][1..] == [];
  }

  /** The order's total equals the cart total the customer was shown at checkout. */
  lemma {:induction false} SnapshotTotal(cart: seq<CartLine>, products: seq<Product>)
    ensures ItemsTotal(Snapshot(cart, products)) == CartTotal(cart, products)
  {
    if cart != [] {
      var items := Snapshot(cart, products);
      SnapshotTotal(cart[1..], products);
      assert items[1..] == Snapshot(cart[1..], products);
    }
  }

  /** The order built at checkout from a cart (ids and timestamps are supplied by the caller). */
  function NewOrder(id: int, username: string, address: string, phone: string, createdAt: string,
                    cart: seq<CartLine>, products: seq<Product>): (o: Order)
    ensures o.status == Placed && o.user == username && o.paymentMethod == CashOnDelivery
    ensures o.total == ItemsTotal(o.items) == CartTotal(cart, products)
    ensures o.items == Snapshot(cart, products) && |o.items| == |cart|
    ensures o.id == id && o.address == address && o.phone == phone && o.createdAt == createdAt
  {
    var items := Snapshot(cart, products);
    SnapshotTotal(cart, products);
    Order(id, username, address, phone, Placed, createdAt, items, ItemsTotal(items), CashOnDelivery)
  }

  /** The ledger invariant: every order's total is the sum over its own snapshot. */
  predicate TotalsConsistent(orders: seq<Order>)
  {
    forall i :: 0 <= i < |orders| ==> orders[i].total == ItemsTotal(orders[i].items)
  }

  // ---------------------------------------------------------------- status overwrite

  /** Every order carrying the id gets the new status; the others, and the order of the ledger, stay as they are (src/App.js:800). */
  function SetStatus(orders: seq<Order>, id: int, status: Status): (r: seq<Order>)
    ensures |r| == |orders|
    ensures forall i :: 0 <= i < |orders| ==>
              r[i] == if orders[i].id == id then orders[i].(status := status) else orders[i]
  {
    if orders == [] then []
    else [if orders[0].id == id then orders[0].(status := status) else orders[0]] + SetStatus(orders[1..], id, status)
  }

  /** An id that no order carries leaves the ledger as it was. */
  lemma SetStatusUnknownId(orders: seq<Order>, id: int, status: Status)
    requires forall o :: o in orders ==> o.id != id
    ensures SetStatus(orders, id, status) == orders
  {
    var r := SetStatus(orders, id, status);
    assert forall i :: 0 <= i < |orders| ==> r[i] == orders[i];
  }

  /** Of two overwrites of the same id, the later one wins; in particular repeating one changes nothing. */
  lemma SetStatusLastWins(orders: seq<Order>, id: int, s1: Status, s2: Status)
    ensures SetStatus(SetStatus(orders, id, s1), id, s2) == SetStatus(orders, id, s2)
  {
  }

  lemma SetStatusIdempotent(orders: seq<Order>, id: int, status: Status)
    ensures SetStatus(SetStatus(orders, id, status), id, status) == SetStatus(orders, id, status)
  {
    SetStatusLastWins(orders, id, status, status);
  }

  /** A status overwrite keeps every snapshot, hence keeps the ledger invariant. */
  lemma SetStatusKeepsTotals(orders: seq<Order>, id: int, status: Status)
    requires TotalsConsistent(orders)
    ensures TotalsConsistent(SetStatus(orders, id, status))
  {
  }

  // ---------------------------------------------------------------- my orders

  /** The orders placed by the user, newest first as in the ledger (src/App.js:530). */
  function OrdersOf(orders: seq<Order>, username: string): (r: seq<Order>)
    ensures IsSubseq(r, orders)
    ensures forall o :: o in r ==> o.user == username
    ensures forall o: Order :: o.user == username ==> multiset(r)[o] == multiset(orders)[o]
  {
    if orders == [] then []
    else
      var rest := OrdersOf(orders[1..], username);
      assert orders == [orders[0]] + orders[1..];
      if orders[0].user == username then [orders[0]] + rest else rest
  }

  /** A new order shows at the head of its owner's list and in nobody else's. */
  lemma OrdersOfAfterPlace(o: Order, orders: seq<Order>, username: string)
    ensures OrdersOf([o] + orders, username) ==
              if o.user == username then [o] + OrdersOf(orders, username) else OrdersOf(orders, username)
  {
    assert ([o] + orders)[1..] == orders;
  }
}
