/** The records the storefront keeps in its local key-value store, as values. */
module Domain {

  datatype Option<+T> = None | Some(value: T)

  /** The two roles a signup form offers ("user" and "admin"). */
  datatype Role = UserRole | AdminRole

  /** An account: identity key is the case-sensitive username; the password is kept in plain text. */
  datatype User = User(username: string, password: string, role: Role)

  /** A catalog entry. Prices are whole numbers (the model does not use floating point). */
  datatype Product = Product(id: int, name: string, price: int, category: string, image: string, description: string)

  /** One line of a user's cart; the product id is a foreign key that is not enforced. */
  datatype CartLine = CartLine(productId: int, qty: int)

  /** The three status strings an order ever carries: "Placed", "Delivered", "Cancelled". */
  datatype Status = Placed | Delivered | Cancelled

  /** An order line with the price snapshot taken when the order was placed. */
  datatype OrderItem = OrderItem(productId: int, qty: int, priceAtPurchase: int)

  datatype Order = Order(
    id: int,
    user: string,
    address: string,
    phone: string,
    status: Status,
    createdAt: string,
    items: seq<OrderItem>,
    total: int,
    paymentMethod: string)

  const CashOnDelivery: string := "Cash on Delivery"

  /** `a` can be obtained from `b` by deleting elements: what a filter keeps, in the order it keeps it. */
  predicate IsSubseq<T(==)>(a: seq<T>, b: seq<T>)
  {
    if a == [] then true
    else if b == [] then false
    else (a[0] == b[0] && IsSubseq(a[1..], b[1..])) || IsSubseq(a, b[1..])
  }

  lemma {:induction false} SubseqTrans<T>(a: seq<T>, b: seq<T>, c: seq<T>)
    requires IsSubseq(a, b) && IsSubseq(b, c)
    ensures IsSubseq(a, c)
    decreases |c|
  {
    if a == [] {
    } else if IsSubseq(b, c[1..]) {
      SubseqTrans(a, b, c[1..]);
    } else {
      assert b[0] == c[0] && IsSubseq(b[1..], c[1..]);
      if a[0] == b[0] && IsSubseq(a[1..], b[1..]) {
        SubseqTrans(a[1..], b[1..], c[1..]);
      } else {
        SubseqTrans(a, b[1..], c[1..]);
      }
    }
  }

  /** No element occurs twice. */
  predicate NoDuplicates<T(==)>(s: seq<T>)
  {
    forall i, j :: 0 <= i < j < |s| ==> s[i] != s[j]
  }
}
