/**
 * A user's cart as stored under its per-user key: the add-to-cart merge, the
 * remove-line filter and the cart total with its price-0 rule for products
 * the catalog no longer has.
 */
module Carts {
  import opened Domain
  import opened Catalog

  /** The cart stored under the user's key, or the empty cart when nothing is stored there (src/App.js:11, 27). */
  function CartOf(carts: map<string, seq<CartLine>>, username: string): seq<CartLine>
  {
    if username in carts then carts[username] else []
  }

  /** Storing a cart under one user's key changes what that key reads and no other key. */
  lemma CartOfUpdate(carts: map<string, seq<CartLine>>, username: string, cart: seq<CartLine>, other: string)
    ensures CartOf(carts[username := cart], username) == cart
    ensures other != username ==> CartOf(carts[username := cart], other) == CartOf(carts, other)
  {
  }

  predicate HasLine(cart: seq<CartLine>, productId: int)
  {
    exists i :: 0 <= i < |cart| && cart[i].productId == productId
  }

  /** At most one line per product. */
  predicate UniqueLines(cart: seq<CartLine>)
  {
    forall i, j :: 0 <= i < j < |cart| ==> cart[i].productId != cart[j].productId
  }

  /** Total quantity the cart holds of one product, over all its lines. */
  function QtyOf(cart: seq<CartLine>, productId: int): int
  {
    if cart == [] then 0
    else (if cart[0].productId == productId then cart[0].qty else 0) + QtyOf(cart[1..], productId)
  }

  // ---------------------------------------------------------------- add to cart

  /**
   * The cart after adding `qty` of a product: the first line for that product
   * grows by `qty`, and without such a line a new one is appended.
   */
  function MergeLine(cart: seq<CartLine>, productId: int, qty: int): seq<CartLine>
  {
    if cart == [] then [CartLine(productId, qty)]
    else if cart[0].productId == productId then [cart[0].(qty := cart[0].qty + qty)] + cart[1..]
    else [cart[0]] + MergeLine(cart[1..], productId, qty)
  }

  /** With a line for the product, only the first such line changes, and only in its quantity. */
  lemma {:induction false} MergeAtFirstMatch(cart: seq<CartLine>, productId: int, qty: int, i: nat)
    requires i < |cart| && cart[i].productId == productId
    requires forall k :: 0 <= k < i ==> cart[k].productId != productId
    ensures MergeLine(cart, productId, qty) == cart[i := CartLine(productId, cart[i].qty + qty)]
  {
    if i > 0 {
      MergeAtFirstMatch(cart[1..], productId, qty, i - 1);
    }
  }

  /** Without a line for the product, one new line is appended at the end. */
  lemma {:induction false} MergeWithoutMatch(cart: seq<CartLine>, productId: int, qty: int)
    requires !HasLine(cart, productId)
    ensures MergeLine(cart, productId, qty) == cart + [CartLine(productId, qty)]
  {
    if cart != [] {
      assert cart[0].productId != productId;
      assert !HasLine(cart[1..], productId);
      MergeWithoutMatch(cart[1..], productId, qty);
      assert cart == [cart[0]] + cart[1..];
    }
  }

  /** Adding raises the quantity held of that product by `qty` and of no other product. */
  lemma {:induction false} MergeQty(cart: seq<CartLine>, productId: int, qty: int, other: int)
    ensures QtyOf(MergeLine(cart, productId, qty), other) == QtyOf(cart, other) + (if other == productId then qty else 0)
  {
    if cart != [] && cart[0].productId != productId {
      MergeQty(cart[1..], productId, qty, other);
      assert ([cart[0]] + MergeLine(cart[1..], productId, qty))[1..] == MergeLine(cart[1..], productId, qty);
    } else if cart != [] {
      assert ([cart[0].(qty := cart[0].qty + qty)] + cart[1..])[1..] == cart[1..];
    } else {
      assert [CartLine(productId, qty)][1..] == [];
    }
  }

  lemma {:induction false} MergeLineIds(cart: seq<CartLine>, productId: int, qty: int)
    ensures forall l :: l in MergeLine(cart, productId, qty) ==> l.productId == productId || l in cart
  {
    if cart != [] && cart[0].productId != productId {
      MergeLineIds(cart[1..], productId, qty);
    }
  }

  /** Adding never creates a second line for a product. */
  lemma {:induction false} MergeKeepsUnique(cart: seq<CartLine>, productId: int, qty: int)
    requires UniqueLines(cart)
    ensures UniqueLines(MergeLine(cart, productId, qty))
  {
    if cart != [] {
      var r := MergeLine(cart, productId, qty);
      if cart[0].productId == productId {
        assert forall k :: 0 < k < |r| ==> r[k] == cart[k];
      } else {
        var rest := MergeLine(cart[1..], productId, qty);
        MergeKeepsUnique(cart[1..], productId, qty);
        MergeLineIds(cart[1..], productId, qty);
        assert HasLine(cart, productId) ==> HasLine(cart[1..], productId) by {
          if HasLine(cart, productId) {
            var i :| 0 <= i < |cart| && cart[i].productId == productId;
            assert cart[1..][i - 1].productId == productId;
          }
        }
        forall k | 0 < k < |r| ensures r[0].productId != r[k].productId {
          assert r[k] == rest[k - 1];
          assert rest[k - 1] in rest;
          if rest[k - 1] in cart[1..] {
            var m :| 0 <= m < |cart[1..]| && cart[1..][m] == rest[k - 1];
            assert cart[m + 1] == rest[k - 1];
          }
        }
      }
    }
  }

  /** `qtys` added to a cart one after another, first to last. */
  function AddAll(cart: seq<CartLine>, productId: int, qtys: seq<int>): seq<CartLine>
  {
    if qtys == [] then cart
    else MergeLine(AddAll(cart, productId, qtys[..|qtys| - 1]), productId, qtys[|qtys| - 1])
  }

  function Sum(qtys: seq<int>): int
  {
    if qtys == [] then 0 else Sum(qtys[..|qtys| - 1]) + qtys[|qtys| - 1]
  }

  /** Any number of adds of one product to an empty cart leave one line holding the sum of the quantities. */
  lemma {:induction false} RepeatedAdds(productId: int, qtys: seq<int>)
    requires qtys != []
    ensures AddAll([], productId, qtys) == [CartLine(productId, Sum(qtys))]
  {
    var n := |qtys| - 1;
    if n > 0 {
      RepeatedAdds(productId, qtys[..n]);
    } else {
      assert qtys[..n] == [];
    }
  }

  // ---------------------------------------------------------------- remove from cart

  /** The cart without any line for the product, the other lines kept in order (src/App.js:403). */
  function RemoveLines(cart: seq<CartLine>, productId: int): (r: seq<CartLine>)
    ensures IsSubseq(r, cart)
    ensures forall l :: l in r ==> l.productId != productId
    ensures forall l: CartLine :: l.productId != productId ==> multiset(r)[l] == multiset(cart)[l]
  {
    if cart == [] then []
    else
      var rest := RemoveLines(cart[1..], productId);
      assert cart == [cart[0]] + cart[1..];
      if cart[0].productId == productId then rest else [cart[0]] + rest
  }

  lemma {:induction false} RemoveLinesIdempotent(cart: seq<CartLine>, productId: int)
    ensures RemoveLines(RemoveLines(cart, productId), productId) == RemoveLines(cart, productId)
  {
    if cart != [] {
      RemoveLinesIdempotent(cart[1..], productId);
    }
  }

  /** Removing drops every unit of that product and no unit of any other. */
  lemma {:induction false} RemoveLinesQty(cart: seq<CartLine>, productId: int, other: int)
    ensures QtyOf(RemoveLines(cart, productId), other) == if other == productId then 0 else QtyOf(cart, other)
  {
    if cart != [] {
      var rest := RemoveLines(cart[1..], productId);
      RemoveLinesQty(cart[1..], productId, other);
      if cart[0].productId != productId {
        assert ([cart[0]] + rest)[1..] == rest;
      }
    }
  }

  /** Removing only drops lines: every line left was in the cart. */
  lemma {:induction false} RemoveLinesFrom(cart: seq<CartLine>, productId: int)
    ensures forall l :: l in RemoveLines(cart, productId) ==> l in cart
  {
    if cart != [] {
      RemoveLinesFrom(cart[1..], productId);
    }
  }

  lemma {:induction false} RemoveLinesKeepsUnique(cart: seq<CartLine>, productId: int)
    requires UniqueLines(cart)
    ensures UniqueLines(RemoveLines(cart, productId))
  {
    if cart != [] {
      var tail := cart[1..];
      RemoveLinesKeepsUnique(tail, productId);
      if cart[0].productId != productId {
        RemoveLinesFrom(tail, productId);
        forall l | l in tail ensures l.productId != cart[0].productId {
          var m :| 0 <= m < |tail| && tail[m] == l;
          assert cart[m + 1] == l;
        }
        ConsKeepsUnique(cart[0], RemoveLines(tail, productId), tail);
      }
    }
  }

  /** A line put in front of unique lines drawn from lines without its product keeps the lines unique. */
  lemma ConsKeepsUnique(line: CartLine, rest: seq<CartLine>, from: seq<CartLine>)
    requires UniqueLines(rest)
    requires forall l :: l in rest ==> l in from
    requires forall l :: l in from ==> l.productId != line.productId
    ensures UniqueLines([line] + rest)
  {
    var r := [line] + rest;
    forall i, j | 0 <= i < j < |r| ensures r[i].productId != r[j].productId {
      assert r[j] == rest[j - 1] && rest[j - 1] in rest;
      if i > 0 {
        assert r[i] == rest[i - 1];
      }
    }
  }

  // ---------------------------------------------------------------- total

  /** The cart page's total: each line's quantity times the product's current catalog price, 0 for a product no longer listed (src/App.js:408-411). */
  function CartTotal(cart: seq<CartLine>, products: seq<Product>): int
  {
    if cart == [] then 0
    else PriceOf(products, cart[0].productId) * cart[0].qty + CartTotal(cart[1..], products)
  }

  /**
   * The total is additive over the lines: a single line is worth its current
   * price times its quantity, and two parts of a cart add up. Together these
   * fix the total of every cart.
   */
  lemma CartTotalAppend(a: seq<CartLine>, b: seq<CartLine>, products: seq<Product>)
    ensures forall line :: CartTotal([line], products) == PriceOf(products, line.productId) * line.qty
    ensures CartTotal(a + b, products) == CartTotal(a, products) + CartTotal(b, products)
  {
    forall line ensures CartTotal([line], products) == PriceOf(products, line.productId) * line.qty {
      CartTotalLine(line, products);
    }
    CartTotalConcat(a, b, products);
  }

  lemma {:induction false} CartTotalConcat(a: seq<CartLine>, b: seq<CartLine>, products: seq<Product>)
    ensures CartTotal(a + b, products) == CartTotal(a, products) + CartTotal(b, products)
  {
    if a == [] {
      assert a + b == b;
    } else {
      var c := a + b;
      assert c[0] == a[0] && c[1..] == a[1..] + b;
      CartTotalConcat(a[1..], b, products);
      var head := PriceOf(products, a[0].productId) * a[0].qty;
      assert CartTotal(c, products) == head + CartTotal(a[1..] + b, products);
    }
  }

  /** Adding `qty` of a product raises the total by its current price times `qty` (by 0 when it is not in the catalog). */
  lemma {:induction false} CartTotalAfterMerge(cart: seq<CartLine>, products: seq<Product>, productId: int, qty: int)
    ensures CartTotal(MergeLine(cart, productId, qty), products) ==
              CartTotal(cart, products) + PriceOf(products, productId) * qty
  {
    var price := PriceOf(products, productId);
    if cart == [] {
      assert [CartLine(productId, qty)][1..] == [];
    } else if cart[0].productId == productId {
      assert ([cart[0].(qty := cart[0].qty + qty)] + cart[1..])[1..] == cart[1..];
      Distribute(price, cart[0].qty, qty);
    } else {
      var rest := MergeLine(cart[1..], productId, qty);
      CartTotalAfterMerge(cart[1..], products, productId, qty);
      assert ([cart[0]] + rest)[1..] == rest;
    }
  }

  lemma CartTotalLine(line: CartLine, products: seq<Product>)
    ensures CartTotal([line], products) == PriceOf(products, line.productId) * line.qty
  {
    assert [line][1..] == [];
  }

  lemma Distribute(a: int, b: int, c: int)
    ensures a * (b + c) == a * b + a * c
  {
  }

  /** Removing a product's lines lowers the total by its current price times the quantity that was held. */
  lemma {:induction false} CartTotalAfterRemove(cart: seq<CartLine>, products: seq<Product>, productId: int)
    ensures CartTotal(RemoveLines(cart, productId), products) ==
              CartTotal(cart, products) - PriceOf(products, productId) * QtyOf(cart, productId)
  {
    if cart != [] {
      var c0 := cart[0];
      var price := PriceOf(products, productId);
      var rest := RemoveLines(cart[1..], productId);
      var q := QtyOf(cart[1..], productId);
      var t := CartTotal(cart[1..], products);
      assert CartTotal(cart, products) == PriceOf(products, c0.productId) * c0.qty + t;
      CartTotalAfterRemove(cart[1..], products, productId);
      assert CartTotal(rest, products) == t - price * q;
      if c0.productId == productId {
        assert RemoveLines(cart, productId) == rest;
        assert QtyOf(cart, productId) == c0.qty + q;
        Distribute(price, c0.qty, q);
      } else {
        assert RemoveLines(cart, productId) == [c0] + rest;
        assert ([c0] + rest)[1..] == rest;
        assert CartTotal([c0] + rest, products) == PriceOf(products, c0.productId) * c0.qty + CartTotal(rest, products);
        assert QtyOf(cart, productId) == q;
      }
    }
  }

  /** Lines of a product the catalog does not have add nothing: the total is that of the other lines. */
  lemma MissingProductAddsNothing(cart: seq<CartLine>, products: seq<Product>, productId: int)
    requires forall p :: p in products ==> p.id != productId
    ensures CartTotal(cart, products) == CartTotal(RemoveLines(cart, productId), products)
  {
    CartTotalAfterRemove(cart, products, productId);
  }

  /**
   * Deleting a product from the catalog leaves the cart untouched but its
   * lines now count 0; every other line keeps its price.
   */
  lemma {:induction false} CartTotalAfterProductDeleted(cart: seq<CartLine>, products: seq<Product>, productId: int)
    ensures CartTotal(cart, RemoveProduct(products, productId)) ==
              CartTotal(cart, products) - PriceOf(products, productId) * QtyOf(cart, productId)
  {
    if cart != [] {
      var c0 := cart[0];
      var after := RemoveProduct(products, productId);
      var price := PriceOf(products, productId);
      var q := QtyOf(cart[1..], productId);
      var t := CartTotal(cart[1..], products);
      CartTotalAfterProductDeleted(cart[1..], products, productId);
      assert CartTotal(cart[1..], after) == t - price * q;
      PriceAfterRemoveProduct(products, productId, c0.productId);
      assert CartTotal(cart, after) == PriceOf(after, c0.productId) * c0.qty + CartTotal(cart[1..], after);
      assert CartTotal(cart, products) == PriceOf(products, c0.productId) * c0.qty + t;
      if c0.productId == productId {
        assert QtyOf(cart, productId) == c0.qty + q;
        Distribute(price, c0.qty, q);
      } else {
        assert QtyOf(cart, productId) == q;
      }
    }
  }
}
