/**
 * The product catalog: lookup by id (with the missing-product price of 0),
 * deletion by id, and the customer's browse view (category list, filter and
 * stable price sort) from src/App.js.
 */
module Catalog {
  import opened Domain

  // ---------------------------------------------------------------- lookup

  /** The first product carrying that id, if any (src/App.js:409, 471). */
  function FindProduct(products: seq<Product>, id: int): (r: Option<Product>)
    ensures r.None? <==> forall p :: p in products ==> p.id != id
    ensures r.Some? ==> exists i :: 0 <= i < |products| && products[i] == r.value && r.value.id == id &&
                          forall j :: 0 <= j < i ==> products[j].id != id
  {
    if products == [] then None
    else if products[0].id == id then Some(products[0])
    else
      var r := FindProduct(products[1..], id);
      FirstIdBehindHead(products, id, r);
      r
  }

  /** A first match in the tail, behind a head with another id, is the first match of the whole catalog. */
  lemma FirstIdBehindHead(products: seq<Product>, id: int, r: Option<Product>)
    requires products != [] && products[0].id != id
    requires r.Some? ==> exists i :: 0 <= i < |products[1..]| && products[1..][i] == r.value && r.value.id == id &&
                           forall j :: 0 <= j < i ==> products[1..][j].id != id
    ensures r.Some? ==> exists i :: 0 <= i < |products| && products[i] == r.value && r.value.id == id &&
                          forall j :: 0 <= j < i ==> products[j].id != id
  {
    if r.Some? {
      var i :| 0 <= i < |products[1..]| && products[1..][i] == r.value && r.value.id == id &&
               forall j :: 0 <= j < i ==> products[1..][j].id != id;
      assert products[i + 1] == r.value;
    }
  }

  /** The price of the product with that id, and 0 when the catalog has none (src/App.js:410, 472). */
  function PriceOf(products: seq<Product>, id: int): (price: int)
    ensures (forall p :: p in products ==> p.id != id) ==> price == 0
    ensures (exists p :: p in products && p.id == id) ==>
              exists i :: 0 <= i < |products| && products[i].id == id && price == products[i].price &&
                forall j :: 0 <= j < i ==> products[j].id != id
  {
    match FindProduct(products, id)
    case Some(p) => p.price
    case None => 0
  }

  // ---------------------------------------------------------------- deletion

  /** The catalog without the products carrying that id, the others kept in order (src/App.js:624). */
  function RemoveProduct(products: seq<Product>, id: int): (r: seq<Product>)
    ensures IsSubseq(r, products)
    ensures forall p :: p in r ==> p.id != id
    ensures forall p: Product :: p.id != id ==> multiset(r)[p] == multiset(products)[p]
  {
    if products == [] then []
    else
      var rest := RemoveProduct(products[1..], id);
      assert products == [products[0]] + products[1..];
      if products[0].id == id then rest else [products[0]] + rest
  }

  lemma {:induction false} RemoveProductIdempotent(products: seq<Product>, id: int)
    ensures RemoveProduct(RemoveProduct(products, id), id) == RemoveProduct(products, id)
  {
    if products != [] {
      RemoveProductIdempotent(products[1..], id);
    }
  }

  lemma {:induction false} RemoveAbsentProduct(products: seq<Product>, id: int)
    requires forall p :: p in products ==> p.id != id
    ensures RemoveProduct(products, id) == products
  {
    if products != [] {
      RemoveAbsentProduct(products[1..], id);
    }
  }

  lemma {:induction false} FindAfterRemoveProduct(products: seq<Product>, removed: int, id: int)
    ensures FindProduct(RemoveProduct(products, removed), id) ==
              if id == removed then None else FindProduct(products, id)
  {
    if products != [] {
      var rest := RemoveProduct(products[1..], removed);
      FindAfterRemoveProduct(products[1..], removed, id);
      if products[0].id != removed {
        assert ([products[0]] + rest)[1..] == rest;
      }
    }
  }

  /** After a deletion the deleted id prices at 0 and every other id keeps its price. */
  lemma PriceAfterRemoveProduct(products: seq<Product>, removed: int, id: int)
    ensures PriceOf(RemoveProduct(products, removed), id) == if id == removed then 0 else PriceOf(products, id)
  {
    FindAfterRemoveProduct(products, removed, id);
  }

  // ---------------------------------------------------------------- category list

  /** The category of each product, in catalog order (src/App.js:290). */
  function CategoriesOf(products: seq<Product>): (cats: seq<string>)
    ensures |cats| == |products|
    ensures forall i :: 0 <= i < |products| ==> cats[i] == products[i].category
  {
    seq(|products|, i requires 0 <= i < |products| => products[i].category)
  }

  /** Each value once, in the order of its first occurrence, as a JavaScript set keeps them (src/App.js:290). */
  function Distinct(s: seq<string>): (r: seq<string>)
    ensures forall x :: x in r <==> x in s
    ensures NoDuplicates(r)
  {
    if s == [] then []
    else
      var r := Distinct(s[..|s| - 1]);
      assert forall x :: x in s <==> x in s[..|s| - 1] || x == s[|s| - 1] by {
        assert s == s[..|s| - 1] + [s[|s| - 1]];
      }
      if s[|s| - 1] in r then r else r + [s[|s| - 1]]
  }

  /** Drops the empty string, the only string JavaScript treats as false (src/App.js:290). */
  function DropEmpty(s: seq<string>): (r: seq<string>)
  {
    if s == [] then []
    else if s[|s| - 1] == "" then DropEmpty(s[..|s| - 1])
    else DropEmpty(s[..|s| - 1]) + [s[|s| - 1]]
  }

  /** The category options of the browse page. */
  function CategoryList(products: seq<Product>): seq<string>
  {
    DropEmpty(Distinct(CategoriesOf(products)))
  }

  /** Index of the first occurrence of `x`. */
  function FirstIndex(s: seq<string>, x: string): (k: nat)
    requires x in s
    ensures k < |s| && s[k] == x && x !in s[..k]
  {
    if s[0] == x then 0 else 1 + FirstIndex(s[1..], x)
  }

  lemma FirstIndexUnique(s: seq<string>, x: string, k: nat)
    requires k < |s| && s[k] == x && x !in s[..k]
    ensures FirstIndex(s, x) == k
  {
    var f := FirstIndex(s, x);
  }

  /** In a prefix, first occurrences are where they are in the whole sequence. */
  lemma FirstIndexPrefix(s: seq<string>, n: nat, x: string)
    requires n <= |s| && x in s[..n]
    ensures FirstIndex(s[..n], x) == FirstIndex(s, x)
  {
    var k := FirstIndex(s[..n], x);
    assert s[..n][..k] == s[..k];
    FirstIndexUnique(s, x, k);
  }

  /** Pure step of the category list: how it grows by one more catalog entry. */
  lemma CategoryStep(cats: seq<string>)
    requires cats != []
    ensures var p := cats[..|cats| - 1]; var x := cats[|cats| - 1];
            DropEmpty(Distinct(cats)) ==
              if x == "" || x in p then DropEmpty(Distinct(p)) else DropEmpty(Distinct(p)) + [x]
  {
    var p := cats[..|cats| - 1];
    var x := cats[|cats| - 1];
    var d := Distinct(p);
    if x !in d {
      assert (d + [x])[..|d + [x]| - 1] == d;
    }
  }

  lemma {:induction false} DropEmptyFacts(s: seq<string>)
    ensures forall x :: x in DropEmpty(s) <==> x in s && x != ""
    ensures NoDuplicates(s) ==> NoDuplicates(DropEmpty(s))
  {
    if s != [] {
      var p := s[..|s| - 1];
      var x := s[|s| - 1];
      DropEmptyFacts(p);
      assert s == p + [x];
      assert forall y :: y in s <==> y in p || y == x;
      if NoDuplicates(s) {
        assert NoDuplicates(p);
        assert x !in p;
      }
    }
  }

  /**
   * The category list holds every non-empty category of the catalog exactly
   * once, and lists them in the order in which the catalog first shows them.
   */
  lemma {:induction false} CategoryListSpec(products: seq<Product>)
    ensures var r := CategoryList(products);
            && NoDuplicates(r)
            && (forall c :: c in r ==> c in CategoriesOf(products))
            && (forall c :: c in r <==> c != "" && exists p :: p in products && p.category == c)
            && forall i, j :: 0 <= i < j < |r| ==>
                 FirstIndex(CategoriesOf(products), r[i]) < FirstIndex(CategoriesOf(products), r[j])
  {
    var cats := CategoriesOf(products);
    DropEmptyFacts(Distinct(cats));
    forall c ensures c in cats <==> exists p :: p in products && p.category == c {
      if c in cats {
        var i :| 0 <= i < |cats| && cats[i] == c;
        assert products[i] in products;
      }
      if exists p :: p in products && p.category == c {
        var p :| p in products && p.category == c;
        var i :| 0 <= i < |products| && products[i] == p;
        assert cats[i] == c;
      }
    }
    FirstSeenOrder(cats);
    var r := CategoryList(products);
    assert NoDuplicates(r);
    assert forall c :: c in r ==> c in cats;
    assert forall c :: c in r <==> c != "" && exists p :: p in products && p.category == c;
    assert r == DropEmpty(Distinct(cats));
    forall i, j | 0 <= i < j < |r| ensures FirstIndex(cats, r[i]) < FirstIndex(cats, r[j]) {
    }
  }

  lemma {:induction false} FirstSeenOrder(cats: seq<string>)
    ensures FirstSeenOrdered(DropEmpty(Distinct(cats)), cats)
  {
    if cats != [] {
      var n := |cats| - 1;
      FirstSeenOrder(cats[..n]);
      CategoryStep(cats);
      DropEmptyFacts(Distinct(cats[..n]));
      if cats[n] == "" || cats[n] in cats[..n] {
        OrderKept(cats);
      } else {
        OrderExtended(cats);
      }
    }
  }

  /** The values of `r` occur in `cats`, each seen first before the values after it. */
  predicate FirstSeenOrdered(r: seq<string>, cats: seq<string>)
  {
    forall i, j :: 0 <= i < j < |r| ==>
      r[i] in cats && r[j] in cats && FirstIndex(cats, r[i]) < FirstIndex(cats, r[j])
  }

  /** A last value that adds no category keeps the order of the prefix's list. */
  lemma OrderKept(cats: seq<string>)
    requires cats != []
    requires var n := |cats| - 1;
             DropEmpty(Distinct(cats)) == DropEmpty(Distinct(cats[..n])) &&
             FirstSeenOrdered(DropEmpty(Distinct(cats[..n])), cats[..n])
    ensures FirstSeenOrdered(DropEmpty(Distinct(cats)), cats)
  {
    var n := |cats| - 1;
    var r := DropEmpty(Distinct(cats));
    forall i, j | 0 <= i < j < |r|
      ensures r[i] in cats && r[j] in cats && FirstIndex(cats, r[i]) < FirstIndex(cats, r[j])
    {
      OrderInPrefix(cats, n, r[i], r[j]);
    }
  }

  /** A last value that adds a category puts it after every category of the prefix. */
  lemma OrderExtended(cats: seq<string>)
    requires cats != []
    requires var n := |cats| - 1;
             cats[n] !in cats[..n] &&
             DropEmpty(Distinct(cats)) == DropEmpty(Distinct(cats[..n])) + [cats[n]] &&
             (forall y :: y in DropEmpty(Distinct(cats[..n])) ==> y in cats[..n]) &&
             FirstSeenOrdered(DropEmpty(Distinct(cats[..n])), cats[..n])
    ensures FirstSeenOrdered(DropEmpty(Distinct(cats)), cats)
  {
    var n := |cats| - 1;
    var rp := DropEmpty(Distinct(cats[..n]));
    var r := DropEmpty(Distinct(cats));
    forall i, j | 0 <= i < j < |r|
      ensures r[i] in cats && r[j] in cats && FirstIndex(cats, r[i]) < FirstIndex(cats, r[j])
    {
      if j < |rp| {
        OrderInPrefix(cats, n, rp[i], rp[j]);
      } else {
        assert rp[i] in rp;
        OrderBeforeLast(cats, rp[i]);
      }
    }
  }

  /** First-occurrence order inside a prefix is first-occurrence order in the whole sequence. */
  lemma OrderInPrefix(cats: seq<string>, n: nat, a: string, b: string)
    requires n <= |cats| && a in cats[..n] && b in cats[..n]
    requires FirstIndex(cats[..n], a) < FirstIndex(cats[..n], b)
    ensures a in cats && b in cats && FirstIndex(cats, a) < FirstIndex(cats, b)
  {
    FirstIndexPrefix(cats, n, a);
    FirstIndexPrefix(cats, n, b);
  }

  /** A value first seen at the last position comes after every value seen earlier. */
  lemma OrderBeforeLast(cats: seq<string>, a: string)
    requires cats != [] && a in cats[..|cats| - 1] && cats[|cats| - 1] !in cats[..|cats| - 1]
    ensures a in cats && cats[|cats| - 1] in cats && FirstIndex(cats, a) < FirstIndex(cats, cats[|cats| - 1])
  {
    var n := |cats| - 1;
    FirstIndexPrefix(cats, n, a);
    FirstIndexUnique(cats, cats[n], n);
  }

  // ---------------------------------------------------------------- filter

  /** Lower case for ASCII letters; other characters are kept (src/App.js:295). */
  function LowerChar(c: char): char
  {
    if 'A' <= c <= 'Z' then (c as int + 32) as char else c
  }

  function Lower(s: string): (r: string)
    ensures |r| == |s| && forall i :: 0 <= i < |s| ==> r[i] == LowerChar(s[i])
  {
    seq(|s|, i requires 0 <= i < |s| => LowerChar(s[i]))
  }

  /** `part` occurs in `text` at some offset (src/App.js:295). */
  predicate Includes(text: string, part: string)
  {
    part <= text || (text != [] && Includes(text[1..], part))
  }

  lemma {:induction false} IncludesAt(text: string, part: string)
    ensures Includes(text, part) <==> exists k :: 0 <= k <= |text| && part <= text[k..]
  {
    if text != [] {
      IncludesAt(text[1..], part);
      if exists k :: 0 <= k <= |text| && part <= text[k..] {
        var k :| 0 <= k <= |text| && part <= text[k..];
        if k > 0 { assert text[1..][k - 1..] == text[k..]; }
      }
      if Includes(text[1..], part) {
        var k :| 0 <= k <= |text[1..]| && part <= text[1..][k..];
        assert text[k + 1..] == text[1..][k..];
      }
    } else {
      assert text[0..] == text;
    }
  }

  /** The browse predicate: the category is "all" or equal, and the search is empty or occurs in the name, ignoring case. */
  predicate Matches(p: Product, category: string, search: string)
  {
    && (category == "all" || p.category == category)
    && (search == "" || Includes(Lower(p.name), Lower(search)))
  }

  /**
   * With the default category and an empty search every product shows; a
   * chosen category must equal the product's; the search must occur in the
   * name at some offset once both are lower-cased, so its own case does not
   * matter.
   */
  lemma MatchesSpec(p: Product, category: string, search: string)
    ensures Matches(p, "all", "")
    ensures Matches(p, category, search) <==>
              && (category == "all" || p.category == category)
              && (search == "" || exists k :: 0 <= k <= |p.name| && Lower(search) <= Lower(p.name)[k..])
    ensures Matches(p, category, search) <==> Matches(p, category, Lower(search))
  {
    IncludesAt(Lower(p.name), Lower(search));
    LowerIdempotent(search);
  }

  lemma LowerIdempotent(s: string)
    ensures Lower(Lower(s)) == Lower(s)
  {
    assert forall i :: 0 <= i < |s| ==> LowerChar(LowerChar(s[i])) == LowerChar(s[i]);
  }

  function FilterProducts(products: seq<Product>, category: string, search: string): (r: seq<Product>)
    ensures IsSubseq(r, products)
    ensures forall p :: p in r ==> Matches(p, category, search)
    ensures forall p: Product :: multiset(r)[p] == if Matches(p, category, search) then multiset(products)[p] else 0
  {
    if products == [] then []
    else
      var rest := FilterProducts(products[1..], category, search);
      assert products == [products[0]] + products[1..];
      if Matches(products[0], category, search) then [products[0]] + rest else rest
  }

  // ---------------------------------------------------------------- sort

  /** The three options of the sort box: "default", "price_asc", "price_desc". */
  datatype SortMode = Unsorted | PriceAsc | PriceDesc

  /** Ascending order of this key is the order the comparator asks for. */
  function SortKey(p: Product, mode: SortMode): int
  {
    if mode == PriceDesc then -p.price else p.price
  }

  predicate SortedBy(s: seq<Product>, mode: SortMode)
  {
    forall i, j :: 0 <= i < j < |s| ==> SortKey(s[i], mode) <= SortKey(s[j], mode)
  }

  /** Products of `s` with price `v`, in their order in `s`. */
  function Ties(s: seq<Product>, v: int): seq<Product>
  {
    if s == [] then [] else (if s[0].price == v then [s[0]] else []) + Ties(s[1..], v)
  }

  /** Puts `x` before the first element whose key is not smaller: ahead of its ties, which come later in the input. */
  function Insert(x: Product, s: seq<Product>, mode: SortMode): seq<Product>
  {
    if s == [] || SortKey(x, mode) <= SortKey(s[0], mode) then [x] + s
    else [s[0]] + Insert(x, s[1..], mode)
  }

  function InsertionSort(s: seq<Product>, mode: SortMode): seq<Product>
  {
    if s == [] then [] else Insert(s[0], InsertionSort(s[1..], mode), mode)
  }

  /**
   * The page's stable sort with the comparator of the chosen option
   * (src/App.js:298-302): a permutation that keeps products of equal price in
   * their input order; the price options order by price, and "default",
   * whose comparator calls every pair equal, keeps the input order.
   */
  function SortProducts(s: seq<Product>, mode: SortMode): (r: seq<Product>)
    ensures multiset(r) == multiset(s)
    ensures mode != Unsorted ==> SortedBy(r, mode)
    ensures mode == Unsorted ==> r == s
    ensures forall v :: Ties(r, v) == Ties(s, v)
  {
    if mode == Unsorted then s
    else
      InsertionSortSpec(s, mode);
      InsertionSort(s, mode)
  }

  lemma {:induction false} InsertPerm(x: Product, s: seq<Product>, mode: SortMode)
    ensures multiset(Insert(x, s, mode)) == multiset{x} + multiset(s)
  {
    if s != [] && SortKey(x, mode) > SortKey(s[0], mode) {
      InsertPerm(x, s[1..], mode);
      assert s == [s[0]] + s[1..];
    }
  }

  lemma {:induction false} InsertSorted(x: Product, s: seq<Product>, mode: SortMode)
    requires SortedBy(s, mode)
    ensures SortedBy(Insert(x, s, mode), mode)
  {
    if s == [] || SortKey(x, mode) <= SortKey(s[0], mode) {
      forall z | z in s ensures SortKey(x, mode) <= SortKey(z, mode) {
        var k :| 0 <= k < |s| && s[k] == z;
      }
      ConsSorted(x, s, mode);
    } else {
      var tail := s[1..];
      var rest := Insert(x, tail, mode);
      InsertSorted(x, tail, mode);
      InsertPerm(x, tail, mode);
      forall z | z in rest ensures SortKey(s[0], mode) <= SortKey(z, mode) {
        assert z in multiset(rest);
        if z != x {
          assert z in multiset(tail);
          var k :| 0 <= k < |tail| && tail[k] == z;
          assert s[k + 1] == z;
        }
      }
      ConsSorted(s[0], rest, mode);
    }
  }

  /** An element no larger than everything after it extends a sorted sequence at the front. */
  lemma ConsSorted(y: Product, s: seq<Product>, mode: SortMode)
    requires SortedBy(s, mode)
    requires forall z :: z in s ==> SortKey(y, mode) <= SortKey(z, mode)
    ensures SortedBy([y] + s, mode)
  {
    var r := [y] + s;
    forall i, j | 0 <= i < j < |r| ensures SortKey(r[i], mode) <= SortKey(r[j], mode) {
      assert r[j] == s[j - 1] && s[j - 1] in s;
      if i > 0 {
        assert r[i] == s[i - 1];
      }
    }
  }

  lemma {:induction false} InsertTies(x: Product, s: seq<Product>, mode: SortMode, v: int)
    ensures Ties(Insert(x, s, mode), v) == (if x.price == v then [x] else []) + Ties(s, v)
  {
    if s == [] || SortKey(x, mode) <= SortKey(s[0], mode) {
      assert ([x] + s)[1..] == s;
    } else {
      var rest := Insert(x, s[1..], mode);
      InsertTies(x, s[1..], mode, v);
      assert ([s[0]] + rest)[1..] == rest;
      assert s[0].price != x.price;
    }
  }

  /** The insertion sort is a permutation, is ordered by the key, and keeps equal prices in input order. */
  lemma InsertionSortSpec(s: seq<Product>, mode: SortMode)
    ensures multiset(InsertionSort(s, mode)) == multiset(s)
    ensures SortedBy(InsertionSort(s, mode), mode)
    ensures forall v :: Ties(InsertionSort(s, mode), v) == Ties(s, v)
  {
    InsertionSortPerm(s, mode);
    InsertionSortSorted(s, mode);
    forall v ensures Ties(InsertionSort(s, mode), v) == Ties(s, v) {
      InsertionSortTies(s, mode, v);
    }
  }

  lemma {:induction false} InsertionSortPerm(s: seq<Product>, mode: SortMode)
    ensures multiset(InsertionSort(s, mode)) == multiset(s)
  {
    if s != [] {
      InsertionSortPerm(s[1..], mode);
      InsertPerm(s[0], InsertionSort(s[1..], mode), mode);
      assert s == [s[0]] + s[1..];
    }
  }

  lemma {:induction false} InsertionSortSorted(s: seq<Product>, mode: SortMode)
    ensures SortedBy(InsertionSort(s, mode), mode)
  {
    if s != [] {
      InsertionSortSorted(s[1..], mode);
      InsertSorted(s[0], InsertionSort(s[1..], mode), mode);
    }
  }

  lemma {:induction false} InsertionSortTies(s: seq<Product>, mode: SortMode, v: int)
    ensures Ties(InsertionSort(s, mode), v) == Ties(s, v)
  {
    if s != [] {
      InsertionSortTies(s[1..], mode, v);
      InsertTies(s[0], InsertionSort(s[1..], mode), mode, v);
    }
  }

  lemma {:induction false} TiesSubseq(s: seq<Product>, v: int)
    ensures IsSubseq(Ties(s, v), s)
  {
    if s != [] {
      var t := Ties(s[1..], v);
      TiesSubseq(s[1..], v);
      if s[0].price == v {
        assert Ties(s, v) == [s[0]] + t;
        assert ([s[0]] + t)[1..] == t;
      } else {
        assert Ties(s, v) == t;
      }
    }
  }

  // ---------------------------------------------------------------- browse

  /** The product grid of the customer dashboard. */
  function Browse(products: seq<Product>, category: string, search: string, mode: SortMode): seq<Product>
  {
    SortProducts(FilterProducts(products, category, search), mode)
  }

  /**
   * Every product shown passes the filter, every product that passes is
   * shown as often as the catalog holds it; "default" keeps catalog order,
   * the price sorts order by price, and products of equal price keep their
   * catalog order.
   */
  lemma BrowseSpec(products: seq<Product>, category: string, search: string, mode: SortMode)
    ensures var r := Browse(products, category, search, mode);
            && (forall p :: p in r ==> Matches(p, category, search))
            && (forall p: Product :: multiset(r)[p] == if Matches(p, category, search) then multiset(products)[p] else 0)
            && (mode == Unsorted ==> IsSubseq(r, products))
            && (mode == PriceAsc ==> forall i, j :: 0 <= i < j < |r| ==> r[i].price <= r[j].price)
            && (mode == PriceDesc ==> forall i, j :: 0 <= i < j < |r| ==> r[i].price >= r[j].price)
            && (forall v :: IsSubseq(Ties(r, v), products))
  {
    var f := FilterProducts(products, category, search);
    var r := Browse(products, category, search, mode);
    if mode != Unsorted {
      InsertionSortSpec(f, mode);
      assert multiset(r) == multiset(f);
      forall p | p in r ensures Matches(p, category, search) {
        assert p in multiset(f);
      }
    }
    forall v ensures IsSubseq(Ties(r, v), products) {
      TiesSubseq(f, v);
      SubseqTrans(Ties(r, v), f, products);
    }
  }

  // ---------------------------------------------------------------- seed fixture

  /** The four products written on first load. */
  const SeedProducts: seq<Product> := [
    Product(1, "Laptop Pro 14", 1200, "electronics",
            "https://via.placeholder.com/600x400?text=Laptop+Pro+14", "Powerful 14\" laptop for creators."),
    Product(2, "Smartphone X", 699, "electronics",
            "https://via.placeholder.com/600x400?text=Smartphone+X", "Edge-to-edge OLED display with great camera."),
    Product(3, "Noise-cancel Headphones", 199, "accessories",
            "https://via.placeholder.com/600x400?text=Headphones", "Over-ear ANC headphones for focus."),
    Product(4, "Gaming Mouse", 59, "accessories",
            "https://via.placeholder.com/600x400?text=Gaming+Mouse", "RGB ergonomic mouse with 8k sensor.")
  ]
}
