# LojaSimples store state, modelled in Dafny

LojaSimples is a single-file React storefront (`loja_admin_react_single_file.jsx`) that sells clothes.
It has a public catalog with search and a category filter, a shopping cart, and a password-gated admin panel
for adding, editing and removing products. This project models the state logic behind those screens.
That logic is three aggregates held by the `App` component (the product list, the cart and the admin record),
the actions that replace them, and the values the page derives from them.

Layout (one module per concern):

- `types.dfy` (`Types`): the records `Product`, `Draft` (the form payload, a product without its id),
  `Patch` (an object spread, with each field present or not), `CartLine` and `AdminSession`.
- `catalog.dfy` (`Catalog`): `addProduct`, `updateProduct` and `deleteProduct`, plus product lookup (`find` by id)
  and the seed catalog. Deleting always keeps product ids unique. Adding keeps them unique when the new id is fresh,
  and updating keeps them unique when the patch carries no id.
- `cart.dfy` (`Cart`): `addToCart`, `updateCartItem` and `removeCartItem`, plus the badge count. The invariant
  `Cart.Valid` says there is at most one line per (product, size) pair and that line ids are unique.
  Every action preserves it.
- `storefront.dfy` (`Storefront`): the search/category filter, the category list and the cart total,
  which skips lines whose product was deleted.
- `admin.dfy` (`Admin`): `doLogin`, `doLogout` and the settings tab's password change.
- `forms.dfy` (`Forms`): the product form's initial values, the `save` payload (including the sizes text parsing)
  and the reset after adding a product.
- `app.dfy` (`App`): class `Store` with fields `products`, `cart` and `admin`. Each method has `modifies this`
  and says the other two fields are unchanged. The cart and catalog methods other than `ClearCart` state the new
  field as the value of the matching pure function. `ClearCart` and `Logout` state the new value directly.
  `Login` and `ChangePassword` state it in terms of the old admin record and the returned error.
  Every method but `UpdateProduct` keeps `Valid()`; `UpdateProduct` keeps it when the patch has no id.
- `text.dfy` (`Text`) and `seqs.dfy` (`Seqs`): the JavaScript built-ins the code relies on. These are
  `trim`, lower-casing, `includes`, `split`, `join`, `Array.prototype.filter`, and the insertion order of `new Set(...)`.

Modelling choices:

- `uid()` is replaced by an id parameter. Members that need it fresh require it to be unused.
- Prices are integers (cents). Stock and quantities are integers.
- A rejection (`alert` in the source) becomes an error value, and the state is left as it was.

## Model

| member | source | states |
|---|---|---|
| `Catalog.FindProduct` | loja_admin_react_single_file.jsx:247 | the result is the first catalog product with the requested id (no earlier product has it); it is absent exactly when no product has that id |
| `Catalog.FindProductUnique` | loja_admin_react_single_file.jsx:264 | with unique ids, looking up a product's id yields that very product |
| `Catalog.SeedProducts` | loja_admin_react_single_file.jsx:38-69 | the fallback catalog has three products, and their ids are distinct when the three uid() values are |
| `Catalog.FromDraft` | loja_admin_react_single_file.jsx:126 | the new product carries the given id, and its other fields are exactly the payload's |
| `Catalog.FromDraftOf` | loja_admin_react_single_file.jsx:126 | a product is rebuilt from its id and its other fields |
| `Catalog.Merge` | loja_admin_react_single_file.jsx:127 | the product keeps its id unless the patch carries one, and an empty patch changes nothing |
| `Catalog.MergeIdempotent` | loja_admin_react_single_file.jsx:127 | spreading the same patch twice gives the same product as once |
| `Catalog.MergeDraftPatch` | loja_admin_react_single_file.jsx:127 | spreading the form payload over a product replaces every field except the id |
| `Catalog.AddProduct` | loja_admin_react_single_file.jsx:126 | the catalog grows by one; the new product is first and carries the given id; the old products follow in order |
| `Catalog.AddProductSpec` | loja_admin_react_single_file.jsx:126 | with a fresh id, ids stay unique, the new id finds the new product, and every other id resolves as before |
| `Catalog.UpdateProduct` | loja_admin_react_single_file.jsx:127 | length is kept, products with other ids are untouched, and each product with the id becomes that product merged with the patch |
| `Catalog.UpdateProductAbsent` | loja_admin_react_single_file.jsx:127 | updating an id no product has is a no-op |
| `Catalog.UpdateProductKeepsIds` | loja_admin_react_single_file.jsx:127 | a patch without an id field keeps every position's id, so ids stay unique |
| `Catalog.UpdateProductFind` | loja_admin_react_single_file.jsx:127 | after an id-less patch the updated id resolves to the merged product and all other lookups are unchanged |
| `Catalog.DeleteProduct` | loja_admin_react_single_file.jsx:128 | no product with the id remains; every product with another id is kept; nothing new appears |
| `Catalog.DeleteProductFind` | loja_admin_react_single_file.jsx:128 | after a delete the id resolves to nothing and every other id resolves as before |
| `Catalog.DeleteProductKeepsUniqueIds` | loja_admin_react_single_file.jsx:128 | deleting keeps product ids unique |
| `Catalog.DeleteProductRemovesOne` | loja_admin_react_single_file.jsx:128 | with unique ids, deleting an existing product removes exactly it and keeps the rest in order |
| `Cart.FindLine` | loja_admin_react_single_file.jsx:111 | returns the first line for the (product, size) pair, or none exactly when no line is for it |
| `Cart.AddToCart` | loja_admin_react_single_file.jsx:108-117 | rejected with InsufficientStock exactly when the product's stock is below the requested qty |
| `Cart.AddToCartMerges` | loja_admin_react_single_file.jsx:111-113 | when a line for the pair exists, its qty grows by qty; length, order and all other lines are unchanged |
| `Cart.AddToCartAppends` | loja_admin_react_single_file.jsx:115 | when no line for the pair exists, exactly one line {freshId, product.id, size, qty} is appended at the end |
| `Cart.AddToCartKeepsValid` | loja_admin_react_single_file.jsx:108-117 | a successful add with a fresh id keeps one line per (product, size) and unique line ids |
| `Cart.AddToCartCounts` | loja_admin_react_single_file.jsx:108-117 | a successful add raises the badge count and the pair's held quantity by qty; other pairs are unchanged |
| `Cart.AddTwice` | loja_admin_react_single_file.jsx:111-115 | adding the same pair twice to an empty cart yields one line with the summed qty |
| `Cart.CartCount` | loja_admin_react_single_file.jsx:133 | while every quantity is positive the count is positive exactly when the cart is non-empty, so the badge shows exactly then; non-negative quantities give a non-negative count |
| `Cart.CartCountConcat` | loja_admin_react_single_file.jsx:133 | the badge count of two carts joined is the sum of their counts |
| `Cart.UpdateCartItem` | loja_admin_react_single_file.jsx:120 | length, order, ids, products and sizes are preserved; only matching lines take the new qty |
| `Cart.UpdateCartItemAbsent` | loja_admin_react_single_file.jsx:120 | updating an id no line has is a no-op |
| `Cart.UpdateCartItemKeepsValid` | loja_admin_react_single_file.jsx:120 | updating a quantity keeps the cart invariant |
| `Cart.UpdateCartItemCount` | loja_admin_react_single_file.jsx:120 | with unique ids, setting line k's qty moves the badge count by the difference |
| `Cart.RemoveCartItem` | loja_admin_react_single_file.jsx:122 | no line with the id remains; every line with another id is kept; nothing new appears |
| `Cart.RemoveCartItemIdempotent` | loja_admin_react_single_file.jsx:122 | removing twice is the same as removing once |
| `Cart.RemoveCartItemAbsent` | loja_admin_react_single_file.jsx:122 | removing an id no line has is a no-op |
| `Cart.RemoveCartItemKeepsOrder` | loja_admin_react_single_file.jsx:122 | removal distributes over concatenation, so surviving lines keep their relative order |
| `Cart.RemoveCartItemKeepsValid` | loja_admin_react_single_file.jsx:122 | removal keeps the cart invariant |
| `Cart.RemoveCartItemRemovesOne` | loja_admin_react_single_file.jsx:122 | with unique ids, removing line k yields the cart without line k, and the count drops by its qty |
| `Storefront.Matches` | loja_admin_react_single_file.jsx:200-203 | with an empty query the test passes exactly when the category is the choice or the choice is ALL |
| `Storefront.FilteredProducts` | loja_admin_react_single_file.jsx:200-203 | lists exactly the catalog products that pass the category and text test |
| `Storefront.MatchesSpec` | loja_admin_react_single_file.jsx:200-203 | the test: category is the choice or the choice is ALL, and the lower-cased query occurs at some position of the lower-cased title or description |
| `Storefront.FilteredCategory` | loja_admin_react_single_file.jsx:201 | a choice other than ALL lists only products of that category |
| `Storefront.FilteredKeepsOrder` | loja_admin_react_single_file.jsx:200 | filtering distributes over concatenation, so the listing keeps catalog order |
| `Storefront.FilteredInitially` | loja_admin_react_single_file.jsx:194-203 | the initial query "" with ALL lists the whole catalog |
| `Storefront.Categories` | loja_admin_react_single_file.jsx:198 | the category list starts with ALL |
| `Storefront.CategoriesSpec` | loja_admin_react_single_file.jsx:198 | after ALL, every catalog category appears exactly once, nothing else appears, and the order is order of first appearance |
| `Storefront.LineTotal` | loja_admin_react_single_file.jsx:263-265 | a line whose product is gone adds 0; otherwise it adds the first matching product's price times its qty; non-negative prices and qty give a non-negative share |
| `Storefront.CartTotal` | loja_admin_react_single_file.jsx:263-265 | the total is 0 when no line's product is in the catalog, and non-negative while prices and quantities are |
| `Storefront.CartTotalConcat` | loja_admin_react_single_file.jsx:263-265 | the total over two carts joined is the sum of their totals |
| `Storefront.CartTotalSkipsDangling` | loja_admin_react_single_file.jsx:263-265 | the total equals the total over the lines whose product still resolves |
| `Storefront.CartTotalAfterDelete` | loja_admin_react_single_file.jsx:263-265 | after deleting a product, its lines contribute 0 and the total is the old total without them |
| `Admin.Login` | loja_admin_react_single_file.jsx:324-327 | logs in exactly when the candidate equals the stored password, else reports IncorrectPassword; the password is kept |
| `Admin.Logout` | loja_admin_react_single_file.jsx:328 | logged is false and the password is kept |
| `Admin.ChangePassword` | loja_admin_react_single_file.jsx:464-468 | succeeds exactly when the current password matches and the new one has at least 4 characters; errors name the failed check, the current password first; success changes only the password |
| `Admin.ChangeThenLogin` | loja_admin_react_single_file.jsx:464-468 | after a change the new password logs in, and a different old password is rejected |
| `Admin.DefaultRejectsWrongPassword` | loja_admin_react_single_file.jsx:324-327 | against the default record a wrong password is rejected and the session stays logged out |
| `Forms.InitialForm` | loja_admin_react_single_file.jsx:420-426 | category and sizes text are never empty; editing a product copies its title, description, price, stock and image, and a non-empty category |
| `Forms.Save` | loja_admin_react_single_file.jsx:434-435 | every size in the payload is well formed, and title, category, price and stock come from the fields |
| `Forms.ParseSizes` | loja_admin_react_single_file.jsx:435 | every parsed size is non-empty, trimmed and free of commas |
| `Forms.ParseJoinedSizes` | loja_admin_react_single_file.jsx:424-435 | parsing the comma-joined text of well-formed sizes gives the same sizes back |
| `Forms.AfterSave` | loja_admin_react_single_file.jsx:437 | an edit keeps the fields; a new product resets all fields but the category to the new-form values |
| `Forms.EditUntouchedKeepsProduct` | loja_admin_react_single_file.jsx:418-436 | opening a product with a category and well-formed sizes for editing and saving it unchanged leaves it equal |
| `Forms.EditUntouchedFillsSizes` | loja_admin_react_single_file.jsx:424 | a product without sizes comes back from an untouched edit with sizes M and L |
| `Forms.NewFormDefaults` | loja_admin_react_single_file.jsx:420-435 | the untouched new-product form saves an Uncategorized product with sizes M and L |
| `Forms.DefaultSizesParse` | loja_admin_react_single_file.jsx:424 | the default sizes text "M,L" parses to M and L |
| `Text.Trim` | loja_admin_react_single_file.jsx:435 | the result is a slice of the input with only white space before and after it, and itself has no white space at either end; an already trimmed input is unchanged |
| `Text.Lower` | loja_admin_react_single_file.jsx:202 | keeps the length; each ASCII capital becomes the letter 32 code points later and every other character is kept |
| `Text.Includes` | loja_admin_react_single_file.jsx:202 | the empty needle is included in every string, and an included needle is no longer than the haystack |
| `Text.IncludesSpec` | loja_admin_react_single_file.jsx:202 | includes holds exactly when the needle occurs at some position of the haystack |
| `Text.Split` | loja_admin_react_single_file.jsx:435 | at least one piece, and no piece contains the separator |
| `Text.Join` | loja_admin_react_single_file.jsx:424 | the first piece leads the text, no pieces give the empty text, and every character is the separator or comes from a piece |
| `Text.JoinSplit` | loja_admin_react_single_file.jsx:435 | joining the pieces of a split restores the text |
| `Text.SplitJoin` | loja_admin_react_single_file.jsx:424 | splitting the join of separator-free pieces gives the pieces back |
| `Seqs.Filter` | loja_admin_react_single_file.jsx:122 | keeps exactly the elements that pass the test, and never more than the input |
| `Seqs.FilterRemovesAt` | loja_admin_react_single_file.jsx:122 | when exactly one position fails the test, filtering removes just that position |
| `Seqs.FirstOccurrences` | loja_admin_react_single_file.jsx:198 | the distinct values not yet seen, each once |
| `Seqs.FirstOccurrencesOrder` | loja_admin_react_single_file.jsx:198 | the values come in order of first occurrence, as a Set built from the array iterates |
| `App.Store.Load` | loja_admin_react_single_file.jsx:74-93 | each aggregate is its stored snapshot or its fallback; the invariant holds when the snapshots satisfy it |
| `App.Store.AddToCart` | loja_admin_react_single_file.jsx:108-117 | reports an error exactly when stock is below qty, with the cart unchanged; else the cart is the new cart; the invariant is kept |
| `App.Store.UpdateCartItem` | loja_admin_react_single_file.jsx:119-121 | the cart is replaced by the updated cart, the rest is unchanged, and the invariant is kept |
| `App.Store.RemoveCartItem` | loja_admin_react_single_file.jsx:122 | the cart is replaced by the filtered cart, the rest is unchanged, and the invariant is kept |
| `App.Store.ClearCart` | loja_admin_react_single_file.jsx:123 | the cart becomes empty, the rest is unchanged, and the invariant is kept |
| `App.Store.AddProduct` | loja_admin_react_single_file.jsx:126 | the catalog gets the new product in front; the cart and admin record are unchanged; the invariant is kept |
| `App.Store.UpdateProduct` | loja_admin_react_single_file.jsx:127 | the catalog is replaced by the updated one; the invariant is kept when the patch has no id |
| `App.Store.DeleteProduct` | loja_admin_react_single_file.jsx:128 | the catalog loses the product; the cart is left as is, so its lines may dangle |
| `App.Store.Login` | loja_admin_react_single_file.jsx:324-327 | logged becomes true exactly when the candidate is the password; otherwise the error is IncorrectPassword and the admin record is unchanged |
| `App.Store.Logout` | loja_admin_react_single_file.jsx:328 | logged becomes false, the password and the other fields are unchanged, and the invariant is kept |
| `App.Store.ChangePassword` | loja_admin_react_single_file.jsx:464-468 | the password becomes the new one exactly when both checks pass; otherwise the admin record is unchanged and the error names the failed check, WrongCurrentPassword exactly when the current password is wrong |

Behaviour of the code that the model keeps as it is:

- `updateCartItem` neither clamps nor rejects a non-positive quantity.
- `removeCartItem` removes every line with the id, not just one.
- The cart keeps insertion order: new lines go at the end.
- The stock check compares against the product's `stock` field only. It ignores quantity already in the cart,
  and stock is never decremented.
- When some product's category is itself `ALL`, the category list shows `ALL` twice. `CategoriesSpec` only claims
  distinctness after the leading entry.

## Left out

- Rendering (JSX markup, the header, product modal, admin tabs, the store/admin view toggle): presentation only.
- The admin gate: the catalog actions and the password change are only reachable while `AdminArea` shows the
  logged-in view (the password form sits in the settings tab, loja_admin_react_single_file.jsx:368-374).
  That is a rendering condition, so `Store.AddProduct`, the other catalog methods and `Store.ChangePassword`
  do not check `admin.logged`.
  The component's `isLogged` mirror of `admin.logged` is also not modelled.
- `localStorage` and `JSON.stringify`/`JSON.parse` (the `useEffect` writes after every change and the startup reads):
  browser I/O and foreign serialisation. There is no snapshot round trip. Startup appears only as `Store.Load`,
  which takes the stored snapshots, if any, as parameters. A malformed snapshot is not modelled.
- `uid()` (`Date.now`, `Math.random`): replaced by fresh-id parameters that are required to be unused.
- `alert` and `confirm`: rejections are returned as error values. Confirming a delete is up to the caller.
- The checkout button: a placeholder `alert` with no state change.
- `FileReader` image upload: an asynchronous browser API. The image is an opaque string field.
- Floating-point prices, `toFixed(2)` and `Number(...)` coercion of form text: prices are integer cents,
  and the form holds price and stock as integers, so `NaN` cannot arise.
- Callers' defaults (`qty = 1`, the modal's first size `product.sizes[0] || ''`): the size and quantity are parameters.
- Cart.AddToCart: the source updates the line that is identical (`===`) to the one `find` returned. The model updates
  the first matching position, which is the same thing because each line object occurs in the array once.
- Text.Lower: lower-cases ASCII letters only, because Unicode case mapping is not modelled.
- Admin.ChangePassword: counts Unicode scalar values where JavaScript's `length` counts UTF-16 code units,
  so a password with characters outside the Basic Multilingual Plane is measured shorter than in the browser.
