/** The store's records. Prices are whole cents; quantities and stock are integers. */
module Types {
  import opened Common

  /** The opaque string identifiers uid() produces. */
  type Id = string

  datatype Product = Product(
    id: Id,
    title: string,
    description: string,
    price: int,
    category: string,
    sizes: seq<string>,
    stock: int,
    image: string)

  /** The product form's payload: every field of a product except its id. */
  datatype Draft = Draft(
    title: string,
    description: string,
    price: int,
    category: string,
    sizes: seq<string>,
    stock: int,
    image: string)

  /** An object spread over a product: a field is overwritten exactly when it is present. */
  datatype Patch = Patch(
    id: Option<Id>,
    title: Option<string>,
    description: Option<string>,
    price: Option<int>,
    category: Option<string>,
    sizes: Option<seq<string>>,
    stock: Option<int>,
    image: Option<string>)

  /** One cart entry: a product and size selection with a quantity. */
  datatype CartLine = CartLine(id: Id, productId: Id, size: string, qty: int)

  datatype AdminSession = AdminSession(logged: bool, password: string)
}
