/** The store page's derived values: the search and category filter, the category
    list and the cart total. */
module Storefront {
  import opened Common
  import opened Seqs
  import opened Text
  import opened Types
  import opened Catalog
  import opened Cart

  /** The category choice that disables the category filter. */
  const ALL_CATEGORIES: string := "ALL"

  /** The filter test: the category is the chosen one (or the choice is ALL), and the lower-cased
      query occurs in the lower-cased title or description. */
  predicate Matches(p: Product, query: string, category: string)
    ensures query == [] ==> (Matches(p, query, category) <==> category == ALL_CATEGORIES || p.category == category)
  {
    && (category == ALL_CATEGORIES || p.category == category)
    && (Includes(Lower(p.title), Lower(query)) || Includes(Lower(p.description), Lower(query)))
  }

  function Matcher(query: string, category: string): Product -> bool {
    (p: Product) => Matches(p, query, category)
  }

  /** The products the store lists: catalog entries that pass the filter, in catalog order. */
  function FilteredProducts(products: seq<Product>, query: string, category: string): (r: seq<Product>)
    ensures forall i :: 0 <= i < |r| ==> r[i] in products && Matches(r[i], query, category)
    ensures forall i :: 0 <= i < |products| && Matches(products[i], query, category) ==> products[i] in r
  {
    Filter(products, Matcher(query, category))
  }

  /** The filter test spelled out with substring positions. */
  lemma MatchesSpec(p: Product, query: string, category: string)
    ensures Matches(p, query, category) <==>
            && (category == ALL_CATEGORIES || p.category == category)
            && ((exists i: nat :: OccursAt(Lower(query), Lower(p.title), i))
                || (exists i: nat :: OccursAt(Lower(query), Lower(p.description), i)))
  {
    IncludesSpec(Lower(p.title), Lower(query));
    IncludesSpec(Lower(p.description), Lower(query));
  }

  /** Choosing a category other than ALL lists only products of that category. */
  lemma FilteredCategory(products: seq<Product>, query: string, category: string)
    requires category != ALL_CATEGORIES
    ensures forall p :: p in FilteredProducts(products, query, category) ==> p.category == category
  {
    var r := FilteredProducts(products, query, category);
    forall p | p in r ensures p.category == category {
      var i :| 0 <= i < |r| && r[i] == p;
    }
  }

  /** Filtering works piecewise, so the listed products keep their catalog order. */
  lemma FilteredKeepsOrder(a: seq<Product>, b: seq<Product>, query: string, category: string)
    ensures FilteredProducts(a + b, query, category) == FilteredProducts(a, query, category) + FilteredProducts(b, query, category)
  {
    FilterConcat(a, b, Matcher(query, category));
  }

  /** The initial page state (empty query, ALL) lists the whole catalog. */
  lemma FilteredInitially(products: seq<Product>)
    ensures FilteredProducts(products, "", ALL_CATEGORIES) == products
  {
    forall i | 0 <= i < |products| ensures Matches(products[i], "", ALL_CATEGORIES) {
      assert Lower("") == "";
      assert [] <= Lower(products[i].title);
    }
    FilterKeepsAll(products, Matcher("", ALL_CATEGORIES));
  }

  /** `products.map(p => p.category)`. */
  function CategoryNames(products: seq<Product>): (r: seq<string>)
    ensures |r| == |products| && forall i :: 0 <= i < |r| ==> r[i] == products[i].category
  {
    seq(|products|, i requires 0 <= i < |products| => products[i].category)
  }

  /** `['ALL', ...Array.from(new Set(categories))]`. */
  function Categories(products: seq<Product>): (r: seq<string>)
    ensures |r| >= 1 && r[0] == ALL_CATEGORIES
  {
    [ALL_CATEGORIES] + FirstOccurrences(CategoryNames(products), {})
  }

  /** After ALL, the category list names every category of the catalog once, in order of first appearance. */
  lemma CategoriesSpec(products: seq<Product>)
    ensures var r := Categories(products);
            && Distinct(r[1..])
            && (forall i :: 0 <= i < |products| ==> products[i].category in r[1..])
            && (forall c :: c in r[1..] ==> exists i :: 0 <= i < |products| && products[i].category == c)
            && InFirstOccurrenceOrder(CategoryNames(products), r[1..])
  {
    var names := CategoryNames(products);
    var r := Categories(products);
    assert r[1..] == FirstOccurrences(names, {});
    FirstOccurrencesOrder(names, {});
    forall i | 0 <= i < |products| ensures products[i].category in r[1..] {
      assert names[i] == products[i].category;
    }
    forall c | c in r[1..] ensures exists i :: 0 <= i < |products| && products[i].category == c {
      var k :| 0 <= k < |r[1..]| && r[1..][k] == c;
      assert c in names;
      var i :| 0 <= i < |names| && names[i] == c;
      assert products[i].category == c;
    }
  }

  /** One line's share of the total: the first catalog product with the line's id prices it, a line
      whose product is gone adds nothing, and with non-negative prices and quantity the share is non-negative. */
  function LineTotal(products: seq<Product>, line: CartLine): (r: int)
    ensures FreshProductId(products, line.productId) ==> r == 0
    ensures forall k ::
              (0 <= k < |products| && products[k].id == line.productId && FreshProductId(products[..k], line.productId))
              ==> r == products[k].price * line.qty
    ensures line.qty >= 0 && (forall i :: 0 <= i < |products| ==> products[i].price >= 0) ==> r >= 0
  {
    match FindProduct(products, line.productId)
    case Some(p) => p.price * line.qty
    case None => 0
  }

  /** The cart total shown in the side panel (in cents): 0 when no line resolves, and non-negative
      while prices and quantities are. */
  function CartTotal(products: seq<Product>, cart: seq<CartLine>): (r: int)
    ensures (forall i :: 0 <= i < |cart| ==> FreshProductId(products, cart[i].productId)) ==> r == 0
    ensures ((forall i :: 0 <= i < |products| ==> products[i].price >= 0)
             && (forall i :: 0 <= i < |cart| ==> cart[i].qty >= 0)) ==> r >= 0
  {
    if cart == [] then 0 else LineTotal(products, cart[0]) + CartTotal(products, cart[1..])
  }

  lemma {:induction false} CartTotalConcat(products: seq<Product>, a: seq<CartLine>, b: seq<CartLine>)
    ensures CartTotal(products, a + b) == CartTotal(products, a) + CartTotal(products, b)
  {
    if a == [] {
      assert a + b == b;
    } else {
      assert (a + b)[1..] == a[1..] + b;
      CartTotalConcat(products, a[1..], b);
    }
  }

  /** The line's product is in the catalog. */
  function Resolves(products: seq<Product>): CartLine -> bool {
    (line: CartLine) => FindProduct(products, line.productId).Some?
  }

  /** Dangling lines are skipped: the total is the total over the lines whose product resolves. */
  lemma {:induction false} CartTotalSkipsDangling(products: seq<Product>, cart: seq<CartLine>)
    ensures CartTotal(products, cart) == CartTotal(products, Filter(cart, Resolves(products)))
  {
    if cart != [] {
      CartTotalSkipsDangling(products, cart[1..]);
      var rest := Filter(cart[1..], Resolves(products));
      if Resolves(products)(cart[0]) {
        assert ([cart[0]] + rest)[1..] == rest;
      }
    }
  }

  /** The keep-test of lines that do not reference this product. */
  function NotFor(productId: Id): CartLine -> bool {
    (line: CartLine) => line.productId != productId
  }

  /** After deleteProduct, the total is the old total over the lines that do not reference the product:
      its lines contribute 0, while the badge count (which ignores the catalog) still includes them. */
  lemma {:induction false} CartTotalAfterDelete(products: seq<Product>, productId: Id, cart: seq<CartLine>)
    ensures CartTotal(DeleteProduct(products, productId), cart) == CartTotal(products, Filter(cart, NotFor(productId)))
    ensures forall i :: 0 <= i < |cart| && cart[i].productId == productId ==>
              LineTotal(DeleteProduct(products, productId), cart[i]) == 0
  {
    if cart != [] {
      CartTotalAfterDelete(products, productId, cart[1..]);
      DeleteProductFind(products, productId, cart[0].productId);
      var rest := Filter(cart[1..], NotFor(productId));
      if NotFor(productId)(cart[0]) {
        assert ([cart[0]] + rest)[1..] == rest;
      }
      forall i | 0 <= i < |cart| && cart[i].productId == productId
        ensures LineTotal(DeleteProduct(products, productId), cart[i]) == 0
      {
        DeleteProductFind(products, productId, cart[i].productId);
      }
    }
  }
}
