/** The cart actions (addToCart, updateCartItem, removeCartItem) and the badge count.
    Cart lines are kept one per (product, size) pair and with unique line ids. */
module Cart {
  import opened Common
  import opened Seqs
  import opened Types

  datatype CartError = InsufficientStock

  /** The line is for this product and size. */
  predicate SameItem(line: CartLine, productId: Id, size: string) {
    line.productId == productId && line.size == size
  }

  predicate DistinctItems(a: CartLine, b: CartLine) {
    a.productId != b.productId || a.size != b.size
  }

  predicate DistinctLineIds(a: CartLine, b: CartLine) {
    a.id != b.id
  }

  /** The cart invariant: at most one line per (product, size) pair, and no two lines share an id. */
  ghost predicate Valid(cart: seq<CartLine>) {
    Pairwise(cart, DistinctItems) && Pairwise(cart, DistinctLineIds)
  }

  /** No line has this id. */
  predicate FreshLineId(cart: seq<CartLine>, id: Id) {
    forall i :: 0 <= i < |cart| ==> cart[i].id != id
  }

  /** `prev.find(i => i.productId === productId && i.size === size)`, as a position. */
  function FindLine(cart: seq<CartLine>, productId: Id, size: string): (r: Option<nat>)
    ensures r.Some? ==> r.value < |cart| && SameItem(cart[r.value], productId, size)
    ensures r.Some? ==> forall j :: 0 <= j < r.value ==> !SameItem(cart[j], productId, size)
    ensures r.None? ==> forall j :: 0 <= j < |cart| ==> !SameItem(cart[j], productId, size)
  {
    if cart == [] then None
    else if SameItem(cart[0], productId, size) then Some(0)
    else match FindLine(cart[1..], productId, size)
      case None => None
      case Some(k) => Some(k + 1)
  }

  /** addToCart: rejected when the product's stock is below qty; otherwise the line for
      (product, size) grows by qty, or a new line with freshId is appended. */
  function AddToCart(cart: seq<CartLine>, product: Product, size: string, qty: int, freshId: Id)
    : (r: Result<seq<CartLine>, CartError>)
    ensures r.Err? <==> product.stock < qty
  {
    if product.stock < qty then Err(InsufficientStock)
    else match FindLine(cart, product.id, size)
      case Some(k) => Ok(cart[k := cart[k].(qty := cart[k].qty + qty)])
      case None => Ok(cart + [CartLine(freshId, product.id, size, qty)])
  }

  /** When line k is the first for the pair, its qty grows by qty; length, order and every other line stay. */
  lemma AddToCartMerges(cart: seq<CartLine>, product: Product, size: string, qty: int, freshId: Id, k: nat)
    requires product.stock >= qty
    requires k < |cart| && SameItem(cart[k], product.id, size)
    requires forall j :: 0 <= j < k ==> !SameItem(cart[j], product.id, size)
    ensures AddToCart(cart, product, size, qty, freshId).Ok?
    ensures var r := AddToCart(cart, product, size, qty, freshId).value;
            && |r| == |cart|
            && r[k] == CartLine(cart[k].id, cart[k].productId, cart[k].size, cart[k].qty + qty)
            && forall j :: 0 <= j < |cart| && j != k ==> r[j] == cart[j]
  {
    var f := FindLine(cart, product.id, size);
    assert f == Some(k);
  }

  /** With no line for the pair, exactly one line {freshId, product.id, size, qty} is appended. */
  lemma AddToCartAppends(cart: seq<CartLine>, product: Product, size: string, qty: int, freshId: Id)
    requires product.stock >= qty
    requires forall j :: 0 <= j < |cart| ==> !SameItem(cart[j], product.id, size)
    ensures AddToCart(cart, product, size, qty, freshId) == Ok(cart + [CartLine(freshId, product.id, size, qty)])
  {
  }

  /** addToCart with a fresh id preserves the cart invariant. */
  lemma AddToCartKeepsValid(cart: seq<CartLine>, product: Product, size: string, qty: int, freshId: Id)
    requires Valid(cart) && FreshLineId(cart, freshId)
    ensures AddToCart(cart, product, size, qty, freshId).Ok? ==> Valid(AddToCart(cart, product, size, qty, freshId).value)
  {
    if product.stock >= qty {
      var r := AddToCart(cart, product, size, qty, freshId).value;
      match FindLine(cart, product.id, size)
      case Some(k) =>
        // only the qty of line k changes, so every pair of lines compares as before
        forall i, j | 0 <= i < j < |r| ensures DistinctItems(r[i], r[j]) && DistinctLineIds(r[i], r[j]) {
          assert DistinctItems(cart[i], cart[j]) && DistinctLineIds(cart[i], cart[j]);
        }
      case None =>
        forall i, j | 0 <= i < j < |r| ensures DistinctItems(r[i], r[j]) && DistinctLineIds(r[i], r[j]) {
          if j < |cart| {
            assert DistinctItems(cart[i], cart[j]) && DistinctLineIds(cart[i], cart[j]);
          } else {
            assert r[i] == cart[i];
          }
        }
    }
  }

  /** `cart.reduce((s, i) => s + i.qty, 0)`: the badge count, dangling lines included.
      While every quantity is positive, the badge (shown when the count is above 0) appears exactly for a non-empty cart. */
  function CartCount(cart: seq<CartLine>): (r: int)
    ensures (forall i :: 0 <= i < |cart| ==> cart[i].qty > 0) ==> (r > 0 <==> cart != [])
    ensures (forall i :: 0 <= i < |cart| ==> cart[i].qty >= 0) ==> r >= 0
  {
    if cart == [] then 0 else cart[0].qty + CartCount(cart[1..])
  }

  lemma {:induction false} CartCountConcat(a: seq<CartLine>, b: seq<CartLine>)
    ensures CartCount(a + b) == CartCount(a) + CartCount(b)
  {
    if a == [] {
      assert a + b == b;
    } else {
      assert (a + b)[1..] == a[1..] + b;
      CartCountConcat(a[1..], b);
    }
  }

  lemma CartCountAround(cart: seq<CartLine>, k: nat)
    requires k < |cart|
    ensures CartCount(cart) == CartCount(cart[..k]) + cart[k].qty + CartCount(cart[k + 1..])
  {
    var a, b := cart[..k], cart[k + 1..];
    assert cart == (a + [cart[k]]) + b;
    CartCountConcat(a + [cart[k]], b);
    CartCountConcat(a, [cart[k]]);
    assert [cart[k]][1..] == [];
  }

  /** The keep-test selecting the lines for one (product, size) pair. */
  function ForItem(productId: Id, size: string): CartLine -> bool {
    (line: CartLine) => SameItem(line, productId, size)
  }

  /** Total quantity in the cart for one (product, size) pair. */
  function ItemQty(cart: seq<CartLine>, productId: Id, size: string): int {
    CartCount(Filter(cart, ForItem(productId, size)))
  }

  lemma ItemQtyAround(cart: seq<CartLine>, k: nat, productId: Id, size: string)
    requires k < |cart|
    ensures ItemQty(cart, productId, size) ==
            ItemQty(cart[..k], productId, size) + (if SameItem(cart[k], productId, size) then cart[k].qty else 0)
            + ItemQty(cart[k + 1..], productId, size)
  {
    var keep := ForItem(productId, size);
    assert cart == cart[..k] + [cart[k]] + cart[k + 1..];
    FilterConcat(cart[..k] + [cart[k]], cart[k + 1..], keep);
    FilterConcat(cart[..k], [cart[k]], keep);
    CartCountConcat(Filter(cart[..k], keep) + Filter([cart[k]], keep), Filter(cart[k + 1..], keep));
    CartCountConcat(Filter(cart[..k], keep), Filter([cart[k]], keep));
  }

  /** A successful addToCart raises the badge count, and the quantity held for (product, size), by exactly qty;
      every other pair's quantity is unchanged. */
  lemma AddToCartCounts(cart: seq<CartLine>, product: Product, size: string, qty: int, freshId: Id,
                        productId: Id, otherSize: string)
    requires product.stock >= qty
    ensures var r := AddToCart(cart, product, size, qty, freshId).value;
            && CartCount(r) == CartCount(cart) + qty
            && ItemQty(r, productId, otherSize) ==
               ItemQty(cart, productId, otherSize) + (if productId == product.id && otherSize == size then qty else 0)
  {
    var r := AddToCart(cart, product, size, qty, freshId).value;
    match FindLine(cart, product.id, size)
    case Some(k) =>
      assert r[..k] == cart[..k] && r[k + 1..] == cart[k + 1..];
      CartCountAround(cart, k);
      CartCountAround(r, k);
      ItemQtyAround(cart, k, productId, otherSize);
      ItemQtyAround(r, k, productId, otherSize);
    case None =>
      var line := CartLine(freshId, product.id, size, qty);
      CartCountConcat(cart, [line]);
      FilterConcat(cart, [line], ForItem(productId, otherSize));
      CartCountConcat(Filter(cart, ForItem(productId, otherSize)), Filter([line], ForItem(productId, otherSize)));
  }

  /** Adding the same pair twice to an empty cart gives a single line holding both quantities. */
  lemma AddTwice(product: Product, size: string, a: int, b: int, id1: Id, id2: Id)
    requires a <= product.stock && b <= product.stock
    ensures AddToCart([], product, size, a, id1) == Ok([CartLine(id1, product.id, size, a)])
    ensures AddToCart([CartLine(id1, product.id, size, a)], product, size, b, id2)
            == Ok([CartLine(id1, product.id, size, a + b)])
  {
    var line := CartLine(id1, product.id, size, a);
    assert [] + [line] == [line];
    assert FindLine([line], product.id, size) == Some(0);
    assert [line][0 := line.(qty := a + b)] == [CartLine(id1, product.id, size, a + b)];
  }

  /** updateCartItem: lines with this id get the new qty; nothing else changes. */
  function UpdateCartItem(cart: seq<CartLine>, id: Id, qty: int): (r: seq<CartLine>)
    ensures |r| == |cart|
    ensures forall i :: 0 <= i < |r| ==>
              r[i].id == cart[i].id && r[i].productId == cart[i].productId && r[i].size == cart[i].size
    ensures forall i :: 0 <= i < |r| ==> r[i].qty == if cart[i].id == id then qty else cart[i].qty
  {
    seq(|cart|, i requires 0 <= i < |cart| => if cart[i].id == id then cart[i].(qty := qty) else cart[i])
  }

  lemma UpdateCartItemAbsent(cart: seq<CartLine>, id: Id, qty: int)
    requires FreshLineId(cart, id)
    ensures UpdateCartItem(cart, id, qty) == cart
  {
  }

  lemma UpdateCartItemKeepsValid(cart: seq<CartLine>, id: Id, qty: int)
    requires Valid(cart)
    ensures Valid(UpdateCartItem(cart, id, qty))
  {
    var r := UpdateCartItem(cart, id, qty);
    forall i, j | 0 <= i < j < |r| ensures DistinctItems(r[i], r[j]) && DistinctLineIds(r[i], r[j]) {
      assert DistinctItems(cart[i], cart[j]) && DistinctLineIds(cart[i], cart[j]);
    }
  }

  /** With unique line ids, setting line k's qty moves the badge count by the difference. */
  lemma UpdateCartItemCount(cart: seq<CartLine>, k: nat, qty: int)
    requires Pairwise(cart, DistinctLineIds) && k < |cart|
    ensures CartCount(UpdateCartItem(cart, cart[k].id, qty)) == CartCount(cart) - cart[k].qty + qty
  {
    var r := UpdateCartItem(cart, cart[k].id, qty);
    forall i | 0 <= i < |cart| && i != k ensures r[i] == cart[i] {
      if i < k {
        assert DistinctLineIds(cart[i], cart[k]);
      } else {
        assert DistinctLineIds(cart[k], cart[i]);
      }
    }
    assert r[..k] == cart[..k] && r[k + 1..] == cart[k + 1..];
    CartCountAround(cart, k);
    CartCountAround(r, k);
  }

  /** The keep-test of removeCartItem's filter. */
  function OtherLine(id: Id): CartLine -> bool {
    (line: CartLine) => line.id != id
  }

  /** removeCartItem: exactly the lines whose id differs, in their order. */
  function RemoveCartItem(cart: seq<CartLine>, id: Id): (r: seq<CartLine>)
    ensures FreshLineId(r, id)
    ensures forall i :: 0 <= i < |cart| && cart[i].id != id ==> cart[i] in r
    ensures forall i :: 0 <= i < |r| ==> r[i] in cart
  {
    Filter(cart, OtherLine(id))
  }

  lemma RemoveCartItemIdempotent(cart: seq<CartLine>, id: Id)
    ensures RemoveCartItem(RemoveCartItem(cart, id), id) == RemoveCartItem(cart, id)
  {
    FilterIdempotent(cart, OtherLine(id));
  }

  lemma RemoveCartItemAbsent(cart: seq<CartLine>, id: Id)
    requires FreshLineId(cart, id)
    ensures RemoveCartItem(cart, id) == cart
  {
    FilterKeepsAll(cart, OtherLine(id));
  }

  /** Removal works piecewise, so the surviving lines keep their relative order. */
  lemma RemoveCartItemKeepsOrder(a: seq<CartLine>, b: seq<CartLine>, id: Id)
    ensures RemoveCartItem(a + b, id) == RemoveCartItem(a, id) + RemoveCartItem(b, id)
  {
    FilterConcat(a, b, OtherLine(id));
  }

  lemma RemoveCartItemKeepsValid(cart: seq<CartLine>, id: Id)
    requires Valid(cart)
    ensures Valid(RemoveCartItem(cart, id))
  {
    FilterPairwise(cart, OtherLine(id), DistinctItems);
    FilterPairwise(cart, OtherLine(id), DistinctLineIds);
  }

  /** With unique line ids, removing line k's id drops exactly that line and its quantity from the count. */
  lemma RemoveCartItemRemovesOne(cart: seq<CartLine>, k: nat)
    requires Pairwise(cart, DistinctLineIds) && k < |cart|
    ensures RemoveCartItem(cart, cart[k].id) == cart[..k] + cart[k + 1..]
    ensures CartCount(RemoveCartItem(cart, cart[k].id)) == CartCount(cart) - cart[k].qty
  {
    RemoveLineAt(cart, k);
    CartCountAround(cart, k);
    CartCountConcat(cart[..k], cart[k + 1..]);
  }

  lemma RemoveLineAt(cart: seq<CartLine>, k: nat)
    requires Pairwise(cart, DistinctLineIds) && k < |cart|
    ensures RemoveCartItem(cart, cart[k].id) == cart[..k] + cart[k + 1..]
  {
    forall i | 0 <= i < |cart| && i != k ensures OtherLine(cart[k].id)(cart[i]) {
      if i < k {
        assert DistinctLineIds(cart[i], cart[k]);
      } else {
        assert DistinctLineIds(cart[k], cart[i]);
      }
    }
    FilterRemovesAt(cart, OtherLine(cart[k].id), k);
  }
}
