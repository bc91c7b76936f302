/** The App component's state: the catalog, the cart and the admin record. Each action
    replaces one of them and leaves the other two as they were. */
module App {
  import opened Common
  import opened Types
  import Catalog
  import Cart
  import Admin

  class Store {
    var products: seq<Product>
    var cart: seq<CartLine>
    var admin: AdminSession

    /** Product ids are unique, and the cart has one line per (product, size) with unique line ids. */
    ghost predicate Valid()
      reads this
    {
      Catalog.UniqueProductIds(products) && Cart.Valid(cart)
    }

    /** Startup: each aggregate comes from its stored snapshot when there is one, else from its fallback
        (the seed catalog, the empty cart, the default admin record). */
    constructor Load(storedProducts: Option<seq<Product>>, storedCart: Option<seq<CartLine>>,
                     storedAdmin: Option<AdminSession>, seedId1: Id, seedId2: Id, seedId3: Id)
      requires seedId1 != seedId2 && seedId1 != seedId3 && seedId2 != seedId3
      ensures products == GetOr(storedProducts, Catalog.SeedProducts(seedId1, seedId2, seedId3))
      ensures cart == GetOr(storedCart, [])
      ensures admin == GetOr(storedAdmin, Admin.DEFAULT_ADMIN)
      ensures ((storedProducts.None? || Catalog.UniqueProductIds(storedProducts.value))
               && (storedCart.None? || Cart.Valid(storedCart.value))) ==> Valid()
    {
      products := GetOr(storedProducts, Catalog.SeedProducts(seedId1, seedId2, seedId3));
      cart := GetOr(storedCart, []);
      admin := GetOr(storedAdmin, Admin.DEFAULT_ADMIN);
    }

    method AddToCart(product: Product, size: string, qty: int, freshId: Id) returns (error: Option<Cart.CartError>)
      requires Cart.FreshLineId(cart, freshId)
      modifies this
      ensures error.Some? <==> product.stock < qty
      ensures var r := Cart.AddToCart(old(cart), product, size, qty, freshId);
              if r.Ok? then cart == r.value else cart == old(cart) && error == Some(r.error)
      ensures products == old(products) && admin == old(admin)
      ensures old(Valid()) ==> Valid()
    {
      var r := Cart.AddToCart(cart, product, size, qty, freshId);
      if r.Ok? {
        if Valid() {
          Cart.AddToCartKeepsValid(cart, product, size, qty, freshId);
        }
        cart := r.value;
        error := None;
      } else {
        error := Some(r.error);
      }
    }

    method UpdateCartItem(id: Id, qty: int)
      modifies this
      ensures cart == Cart.UpdateCartItem(old(cart), id, qty)
      ensures products == old(products) && admin == old(admin)
      ensures old(Valid()) ==> Valid()
    {
      if Valid() {
        Cart.UpdateCartItemKeepsValid(cart, id, qty);
      }
      cart := Cart.UpdateCartItem(cart, id, qty);
    }

    method RemoveCartItem(id: Id)
      modifies this
      ensures cart == Cart.RemoveCartItem(old(cart), id)
      ensures products == old(products) && admin == old(admin)
      ensures old(Valid()) ==> Valid()
    {
      if Valid() {
        Cart.RemoveCartItemKeepsValid(cart, id);
      }
      cart := Cart.RemoveCartItem(cart, id);
    }

    method ClearCart()
      modifies this
      ensures cart == []
      ensures products == old(products) && admin == old(admin)
      ensures old(Valid()) ==> Valid()
    {
      cart := [];
    }

    method AddProduct(d: Draft, freshId: Id)
      requires Catalog.FreshProductId(products, freshId)
      modifies this
      ensures products == Catalog.AddProduct(old(products), d, freshId)
      ensures cart == old(cart) && admin == old(admin)
      ensures old(Valid()) ==> Valid()
    {
      Catalog.AddProductSpec(products, d, freshId, freshId);
      products := Catalog.AddProduct(products, d, freshId);
    }

    method UpdateProduct(id: Id, patch: Patch)
      modifies this
      ensures products == Catalog.UpdateProduct(old(products), id, patch)
      ensures cart == old(cart) && admin == old(admin)
      ensures old(Valid()) && patch.id.None? ==> Valid()
    {
      if patch.id.None? {
        Catalog.UpdateProductKeepsIds(products, id, patch);
      }
      products := Catalog.UpdateProduct(products, id, patch);
    }

    method DeleteProduct(id: Id)
      modifies this
      ensures products == Catalog.DeleteProduct(old(products), id)
      ensures cart == old(cart) && admin == old(admin)
      ensures old(Valid()) ==> Valid()
    {
      if Valid() {
        Catalog.DeleteProductKeepsUniqueIds(products, id);
      }
      products := Catalog.DeleteProduct(products, id);
    }

    method Login(candidate: string) returns (error: Option<Admin.AdminError>)
      modifies this
      ensures error.None? <==> candidate == old(admin).password
      ensures admin == if error.None? then old(admin).(logged := true) else old(admin)
      ensures error.Some? ==> error == Some(Admin.IncorrectPassword)
      ensures products == old(products) && cart == old(cart)
      ensures old(Valid()) ==> Valid()
    {
      var r := Admin.Login(admin, candidate);
      if r.Ok? {
        admin := r.value;
        error := None;
      } else {
        error := Some(r.error);
      }
    }

    method Logout()
      modifies this
      ensures admin == old(admin).(logged := false)
      ensures products == old(products) && cart == old(cart)
      ensures old(Valid()) ==> Valid()
    {
      admin := Admin.Logout(admin);
    }

    method ChangePassword(current: string, newPassword: string) returns (error: Option<Admin.AdminError>)
      modifies this
      ensures error.None? <==> current == old(admin).password && |newPassword| >= Admin.MIN_PASSWORD_LENGTH
      ensures admin == if error.None? then old(admin).(password := newPassword) else old(admin)
      ensures error.Some? ==> error == Some(Admin.ChangePassword(old(admin), current, newPassword).error)
      ensures error == Some(Admin.WrongCurrentPassword) <==> current != old(admin).password
      ensures products == old(products) && cart == old(cart)
      ensures old(Valid()) ==> Valid()
    {
      var r := Admin.ChangePassword(admin, current, newPassword);
      if r.Ok? {
        admin := r.value;
        error := None;
      } else {
        error := Some(r.error);
      }
    }
  }
}
