/** The admin's catalog actions (addProduct, updateProduct, deleteProduct) and product lookup. */
module Catalog {
  import opened Common
  import opened Seqs
  import opened Types

  predicate DistinctProductIds(a: Product, b: Product) {
    a.id != b.id
  }

  /** No two products share an id. */
  ghost predicate UniqueProductIds(products: seq<Product>) {
    Pairwise(products, DistinctProductIds)
  }

  /** No product has this id. */
  predicate FreshProductId(products: seq<Product>, id: Id) {
    forall i :: 0 <= i < |products| ==> products[i].id != id
  }

  /** `products.find(x => x.id === id)`: the first product with this id, if any. */
  function FindProduct(products: seq<Product>, id: Id): (r: Option<Product>)
    ensures r.Some? ==> r.value in products && r.value.id == id
    ensures r.None? <==> FreshProductId(products, id)
    ensures r.Some? ==> exists k :: 0 <= k < |products| && products[k] == r.value && FreshProductId(products[..k], id)
  {
    if products == [] then None
    else if products[0].id == id then
      assert FreshProductId(products[..0], id);
      Some(products[0])
    else
      var r := FindProduct(products[1..], id);
      if r.Some? then
        var k :| 0 <= k < |products[1..]| && products[1..][k] == r.value && FreshProductId(products[1..][..k], id);
        assert products[..k + 1] == [products[0]] + products[1..][..k];
        assert products[k + 1] == r.value && FreshProductId(products[..k + 1], id);
        r
      else r
  }

  /** With unique ids, looking a product's id up finds that product. */
  lemma {:induction false} FindProductUnique(products: seq<Product>, k: nat)
    requires UniqueProductIds(products) && k < |products|
    ensures FindProduct(products, products[k].id) == Some(products[k])
  {
    if k > 0 {
      PairwiseTail(products, DistinctProductIds);
      assert DistinctProductIds(products[0], products[k]);
      assert products[1..][k - 1] == products[k];
      FindProductUnique(products[1..], k - 1);
    }
  }

  /** The three-item catalog installed when nothing is stored (prices in cents; uid() ids as parameters). */
  function SeedProducts(id1: Id, id2: Id, id3: Id): (r: seq<Product>)
    requires id1 != id2 && id1 != id3 && id2 != id3
    ensures |r| == 3 && UniqueProductIds(r)
  {
    [ Product(id1, "T-shirt básica unissex", "Malha leve, disponível em várias cores. Corte regular.",
              1999, "Adulto - Unissex", ["S", "M", "L", "XL"], 20, ""),
      Product(id2, "Vestido floral (feminino)", "Vestido midi com estampado floral. 100% algodão.",
              4990, "Feminino", ["S", "M", "L"], 10, ""),
      Product(id3, "Casaco infantil", "Casaco quentinho para crianças. Forro macio.",
              3450, "Infantil", ["2", "3", "4", "5"], 15, "") ]
  }

  /** `{...draft, id}`: the product with this id whose remaining fields are the draft's. */
  function FromDraft(d: Draft, id: Id): (r: Product)
    ensures r.id == id && DraftOf(r) == d
  {
    Product(id, d.title, d.description, d.price, d.category, d.sizes, d.stock, d.image)
  }

  /** Every field of a product but its id. */
  function DraftOf(p: Product): Draft {
    Draft(p.title, p.description, p.price, p.category, p.sizes, p.stock, p.image)
  }

  /** A product is determined by its id and its remaining fields. */
  lemma FromDraftOf(p: Product)
    ensures FromDraft(DraftOf(p), p.id) == p
  {
  }

  /** The form payload seen as a patch: every field present except id. */
  function DraftPatch(d: Draft): Patch {
    Patch(None, Some(d.title), Some(d.description), Some(d.price), Some(d.category),
          Some(d.sizes), Some(d.stock), Some(d.image))
  }

  /** `{...p, ...patch}`: the patch's present fields win; the id is kept unless the patch carries one,
      and the empty patch changes nothing. */
  function Merge(p: Product, patch: Patch): (r: Product)
    ensures patch.id.None? ==> r.id == p.id
    ensures patch == Patch(None, None, None, None, None, None, None, None) ==> r == p
  {
    Product(GetOr(patch.id, p.id), GetOr(patch.title, p.title), GetOr(patch.description, p.description),
            GetOr(patch.price, p.price), GetOr(patch.category, p.category), GetOr(patch.sizes, p.sizes),
            GetOr(patch.stock, p.stock), GetOr(patch.image, p.image))
  }

  /** Spreading the same patch a second time changes nothing. */
  lemma MergeIdempotent(p: Product, patch: Patch)
    ensures Merge(Merge(p, patch), patch) == Merge(p, patch)
  {
  }

  /** Saving the form over a product replaces every field but the id. */
  lemma MergeDraftPatch(p: Product, d: Draft)
    ensures Merge(p, DraftPatch(d)) == FromDraft(d, p.id)
  {
  }

  /** addProduct: the new product, with a fresh id, goes first. */
  function AddProduct(products: seq<Product>, d: Draft, freshId: Id): (r: seq<Product>)
    ensures |r| == |products| + 1
    ensures r[0].id == freshId && r[1..] == products
  {
    [FromDraft(d, freshId)] + products
  }

  /** Adding with a fresh id keeps ids unique, makes the new product findable and leaves every other lookup alone. */
  lemma AddProductSpec(products: seq<Product>, d: Draft, freshId: Id, x: Id)
    requires FreshProductId(products, freshId)
    ensures UniqueProductIds(products) ==> UniqueProductIds(AddProduct(products, d, freshId))
    ensures FindProduct(AddProduct(products, d, freshId), freshId) == Some(FromDraft(d, freshId))
    ensures x != freshId ==> FindProduct(AddProduct(products, d, freshId), x) == FindProduct(products, x)
  {
    var r := AddProduct(products, d, freshId);
    assert r[1..] == products;
    if UniqueProductIds(products) {
      forall i, j | 0 <= i < j < |r| ensures DistinctProductIds(r[i], r[j]) {
        assert r[j] == products[j - 1];
        if i > 0 {
          assert r[i] == products[i - 1];
        }
      }
    }
  }

  /** updateProduct: every product with this id gets the patch merged onto it. */
  function UpdateProduct(products: seq<Product>, id: Id, patch: Patch): (r: seq<Product>)
    ensures |r| == |products|
    ensures forall i :: 0 <= i < |r| && products[i].id != id ==> r[i] == products[i]
    ensures forall i :: 0 <= i < |r| && products[i].id == id ==> r[i] == Merge(products[i], patch)
  {
    seq(|products|, i requires 0 <= i < |products| =>
      if products[i].id == id then Merge(products[i], patch) else products[i])
  }

  /** Updating an id no product has changes nothing. */
  lemma UpdateProductAbsent(products: seq<Product>, id: Id, patch: Patch)
    requires FreshProductId(products, id)
    ensures UpdateProduct(products, id, patch) == products
  {
  }

  /** A patch without an id keeps every position's id, hence uniqueness of ids. */
  lemma UpdateProductKeepsIds(products: seq<Product>, id: Id, patch: Patch)
    requires patch.id.None?
    ensures forall i :: 0 <= i < |products| ==> UpdateProduct(products, id, patch)[i].id == products[i].id
    ensures UniqueProductIds(products) ==> UniqueProductIds(UpdateProduct(products, id, patch))
  {
    var r := UpdateProduct(products, id, patch);
    if UniqueProductIds(products) {
      forall i, j | 0 <= i < j < |r| ensures DistinctProductIds(r[i], r[j]) {
        assert DistinctProductIds(products[i], products[j]);
      }
    }
  }

  /** After an update without an id, looking up the updated id finds the merged product; other lookups are unchanged. */
  lemma {:induction false} UpdateProductFind(products: seq<Product>, id: Id, patch: Patch, x: Id)
    requires patch.id.None?
    ensures FindProduct(UpdateProduct(products, id, patch), x) ==
            match FindProduct(products, x)
            case None => None
            case Some(p) => Some(if x == id then Merge(p, patch) else p)
  {
    if products != [] {
      assert UpdateProduct(products, id, patch)[1..] == UpdateProduct(products[1..], id, patch);
      UpdateProductFind(products[1..], id, patch, x);
    }
  }

  /** The keep-test of deleteProduct's filter. */
  function OtherProduct(id: Id): Product -> bool {
    (p: Product) => p.id != id
  }

  /** deleteProduct: the products whose id differs, in their order. */
  function DeleteProduct(products: seq<Product>, id: Id): (r: seq<Product>)
    ensures FreshProductId(r, id)
    ensures forall i :: 0 <= i < |products| && products[i].id != id ==> products[i] in r
    ensures forall i :: 0 <= i < |r| ==> r[i] in products
  {
    Filter(products, OtherProduct(id))
  }

  /** After a delete the id resolves to nothing, other ids resolve as before, and ids stay unique. */
  lemma {:induction false} DeleteProductFind(products: seq<Product>, id: Id, x: Id)
    ensures FindProduct(DeleteProduct(products, id), id) == None
    ensures x != id ==> FindProduct(DeleteProduct(products, id), x) == FindProduct(products, x)
  {
    if products != [] {
      DeleteProductFind(products[1..], id, x);
    }
  }

  lemma DeleteProductKeepsUniqueIds(products: seq<Product>, id: Id)
    requires UniqueProductIds(products)
    ensures UniqueProductIds(DeleteProduct(products, id))
  {
    FilterPairwise(products, OtherProduct(id), DistinctProductIds);
  }

  /** With unique ids, deleting an existing product removes exactly that one and keeps the others in order. */
  lemma DeleteProductRemovesOne(products: seq<Product>, k: nat)
    requires UniqueProductIds(products) && k < |products|
    ensures DeleteProduct(products, products[k].id) == products[..k] + products[k + 1..]
  {
    forall i | 0 <= i < |products| && i != k ensures OtherProduct(products[k].id)(products[i]) {
      if i < k {
        assert DistinctProductIds(products[i], products[k]);
      } else {
        assert DistinctProductIds(products[k], products[i]);
      }
    }
    FilterRemovesAt(products, OtherProduct(products[k].id), k);
  }
}
