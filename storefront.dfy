/**
 * The storefront's state and the event handlers that change it. The four
 * stored lists, the per-user carts and the session, which the source keeps
 * under keys of the browser's local storage, are fields here; a key that was
 * never written reads as the empty list (or as no session). Ids and
 * timestamps, which the source takes from the clock, are parameters.
 */
module Storefront {
  import opened Domain
  import opened Catalog
  import opened Accounts
  import opened Carts
  import opened Ledger

  class Store {
    var users: seq<User>
    var products: seq<Product>
    var orders: seq<Order>
    var carts: map<string, seq<CartLine>>
    var session: Option<User>

    /**
     * What the handlers keep true: no username twice, at most one line per
     * product in every cart, and every order's total equal to the sum over
     * its own price snapshot.
     */
    ghost predicate Valid()
      reads this
    {
      && UniqueUsernames(users)
      && (forall u :: u in carts ==> UniqueLines(carts[u]))
      && TotalsConsistent(orders)
    }

    /** A profile with nothing stored yet. */
    constructor ()
      ensures users == [] && products == [] && orders == [] && carts == map[] && session == None
      ensures Valid()
    {
      users, products, orders, carts, session := [], [], [], map[], None;
    }

    /** `seed()`: an empty catalog gets the four demo products, an empty directory the admin account. */
    method Seed()
      modifies this
      ensures products == if old(products) == [] then SeedProducts else old(products)
      ensures users == if old(users) == [] then [SeedAdmin] else old(users)
      ensures orders == old(orders) && carts == old(carts) && session == old(session)
      ensures old(Valid()) ==> Valid()
    {
      if products == [] {
        products := SeedProducts;
      }
      if users == [] {
        users := [SeedAdmin];
      }
    }

    // ------------------------------------------------------------ accounts

    /** `handleSignup`: refuses a taken username, otherwise appends the new account. */
    method Signup(username: string, password: string, role: Role) returns (ok: bool)
      modifies this
      ensures ok == !UsernameTaken(old(users), username)
      ensures users == Register(old(users), username, password, role)
      ensures products == old(products) && orders == old(orders) && carts == old(carts) && session == old(session)
      ensures old(Valid()) ==> Valid()
    {
      if UsernameTaken(users, username) {
        ok := false;
        return;
      }
      users := users + [User(username, password, role)];
      ok := true;
    }

    /** `handleLogin`: a successful login stores the matched account as the session; a refused one leaves the session alone. */
    method Login(username: string, password: string, asAdmin: bool) returns (result: LoginResult)
      modifies this
      ensures result == CheckLogin(users, username, password, asAdmin)
      ensures session == if result.LoggedIn? then Some(result.user) else old(session)
      ensures users == old(users) && products == old(products) && orders == old(orders) && carts == old(carts)
      ensures old(Valid()) ==> Valid()
    {
      result := CheckLogin(users, username, password, asAdmin);
      if result.LoggedIn? {
        session := Some(result.user);
      }
    }

    /** `go("logout")`: forgets the session. */
    method Logout()
      modifies this
      ensures session == None
      ensures users == old(users) && products == old(products) && orders == old(orders) && carts == old(carts)
      ensures old(Valid()) ==> Valid()
    {
      session := None;
    }

    // ------------------------------------------------------------ cart

    /** `addToCart`: finds the first line for the product and raises its quantity, or appends a new line. */
    method AddToCart(username: string, productId: int, qty: int)
      modifies this
      ensures carts == old(carts)[username := MergeLine(CartOf(old(carts), username), productId, qty)]
      ensures users == old(users) && products == old(products) && orders == old(orders) && session == old(session)
      ensures old(Valid()) ==> Valid()
    {
      var cart := CartOf(carts, username);
      var i := 0;
      while i < |cart| && cart[i].productId != productId
        invariant 0 <= i <= |cart|
        invariant forall k :: 0 <= k < i ==> cart[k].productId != productId
      {
        i := i + 1;
      }
      var next;
      if i < |cart| {
        next := cart[i := CartLine(productId, cart[i].qty + qty)];
        MergeAtFirstMatch(cart, productId, qty, i);
      } else {
        next := cart + [CartLine(productId, qty)];
        MergeWithoutMatch(cart, productId, qty);
      }
      if UniqueLines(cart) {
        MergeKeepsUnique(cart, productId, qty);
      }
      carts := carts[username := next];
    }

    /** `removeItem`: drops every line of the product from the user's cart. */
    method RemoveFromCart(username: string, productId: int)
      modifies this
      ensures carts == old(carts)[username := RemoveLines(CartOf(old(carts), username), productId)]
      ensures users == old(users) && products == old(products) && orders == old(orders) && session == old(session)
      ensures old(Valid()) ==> Valid()
    {
      var cart := CartOf(carts, username);
      if UniqueLines(cart) {
        RemoveLinesKeepsUnique(cart, productId);
      }
      carts := carts[username := RemoveLines(cart, productId)];
    }

    // ------------------------------------------------------------ orders

    /**
     * `placeOrder`: an empty cart changes nothing; otherwise the order, with
     * its price snapshot and total, goes to the head of the ledger and then
     * the user's cart is emptied.
     */
    method PlaceOrder(username: string, id: int, createdAt: string, address: string, phone: string)
      returns (placed: Option<Order>)
      modifies this
      ensures var cart := CartOf(old(carts), username);
              if cart == [] then placed == None && orders == old(orders) && carts == old(carts)
              else && placed == Some(NewOrder(id, username, address, phone, createdAt, cart, old(products)))
                   && orders == [placed.value] + old(orders)
                   && carts == old(carts)[username := []]
      ensures placed.Some? ==> placed.value.status == Placed && CartOf(carts, username) == [] &&
                               placed.value.total == CartTotal(CartOf(old(carts), username), old(products))
      ensures users == old(users) && products == old(products) && session == old(session)
      ensures old(Valid()) ==> Valid()
    {
      var cart := CartOf(carts, username);
      if cart == [] {
        placed := None;
        return;
      }
      var order := NewOrder(id, username, address, phone, createdAt, cart, products);
      orders := [order] + orders;
      carts := carts[username := []];
      placed := Some(order);
    }

    /** `updateStatus`: overwrites the status of the orders with that id and nothing else. */
    method UpdateStatus(id: int, status: Status)
      modifies this
      ensures orders == SetStatus(old(orders), id, status)
      ensures users == old(users) && products == old(products) && carts == old(carts) && session == old(session)
      ensures old(Valid()) ==> Valid()
    {
      if TotalsConsistent(orders) {
        SetStatusKeepsTotals(orders, id, status);
      }
      orders := SetStatus(orders, id, status);
    }

    // ------------------------------------------------------------ products

    /**
     * `addProduct`: refused when the name or the price text is empty;
     * otherwise the new product goes to the head of the catalog. `price` is
     * the number the price text parses to.
     */
    method AddProduct(id: int, name: string, priceText: string, price: int,
                      description: string, category: string, image: string) returns (ok: bool)
      modifies this
      ensures ok == (name != "" && priceText != "")
      ensures products == if ok then [Product(id, name, price, category, image, description)] + old(products)
                          else old(products)
      ensures users == old(users) && orders == old(orders) && carts == old(carts) && session == old(session)
      ensures old(Valid()) ==> Valid()
    {
      if name == "" || priceText == "" {
        ok := false;
        return;
      }
      products := [Product(id, name, price, category, image, description)] + products;
      ok := true;
    }

    /**
     * `deleteProduct`: once the admin confirms, drops the products with that
     * id; carts and orders keep their references. The page is then reloaded
     * (src/App.js:627), and the remounted app runs `seed()` again
     * (src/App.js:907-908): a catalog left empty gets the demo products back.
     * `confirmed` is the answer to the confirmation dialog.
     */
    method DeleteProduct(id: int, confirmed: bool)
      modifies this
      ensures products == if !confirmed then old(products)
                          else if RemoveProduct(old(products), id) == [] then SeedProducts
                          else RemoveProduct(old(products), id)
      ensures users == if confirmed && old(users) == [] then [SeedAdmin] else old(users)
      ensures orders == old(orders) && carts == old(carts) && session == old(session)
      ensures old(Valid()) ==> Valid()
    {
      if !confirmed {
        return;
      }
      products := RemoveProduct(products, id);
      Seed();
    }
  }

  /**
   * Checkout followed by the deletion of a product: the order keeps its
   * snapshot and total, and the cart it came from stays empty.
   */
  method SnapshotSurvivesDeletion(store: Store, username: string, productId: int, id: int)
    requires store.Valid()
    requires CartOf(store.carts, username) != []
    modifies store
    ensures store.Valid()
    ensures |store.orders| == |old(store.orders)| + 1 && store.orders[1..] == old(store.orders)
    ensures store.orders[0].total == ItemsTotal(store.orders[0].items) ==
            CartTotal(CartOf(old(store.carts), username), old(store.products))
    ensures CartOf(store.carts, username) == []
  {
    var placed := store.PlaceOrder(username, id, "createdAt", "address", "phone");
    var before := store.orders;
    store.DeleteProduct(productId, true);
    assert store.orders == before;
  }
}
