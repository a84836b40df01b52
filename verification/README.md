# Inventory API core, modelled in Dafny

The inventory API is a FastAPI/SQLAlchemy service with two resources:
categories and products. Each resource has five routes: list, create, get,
update and delete. This project models the business rules those routes apply
before they reach the database. The database becomes two immutable maps from
id to row. Each route is a pure function from a `State` and a request to a
`Reply(state, result)`. The `result` is either `Ok(status, body)` or
`Err(status, detail)`, where `detail` is the message of the raised
`HTTPException`. An error reply always carries the input state, because the
exception is raised before anything is committed.

Modules:

- `Fields` (`fields.dfy`) holds the building blocks for fields:
  - `Option` is a nullable value.
  - `Patch` is one key of a body. It is `Unset` when the key is omitted and
    `Set(v)` when it is sent, where `v` may be null.
  - `Apply` is the effect of `model_dump(exclude_unset=True)` followed by
    `setattr`.
  - `Truthy` is Python truthiness of an `Optional[int]`.
- `Http` (`http.dfy`) holds the status codes and the `Result` type.
- `Schemas` (`schemas.dfy`) holds the request and response schemas:
  - the create, update and response models;
  - the field constraints, as validity predicates;
  - validation of create bodies, with their defaults.
- `Store` (`store.dfy`) holds the rest of the shared data model:
  - the two row types and `State`;
  - the `OFFSET`/`LIMIT` slice of a listing;
  - the conversion of a stored row into its response schema.
- `Categories` (`categories.dfy`) and `Products` (`products.dfy`) hold the two
  route handlers and the lemmas about them.
- `Api` (`api.dfy`) puts both routers into one state machine (`Step`, `Run`).
  It states how far the invariant "a product references a live category"
  survives.

These behaviours of the code are modelled as written:

- An explicit `null` in an update body is applied, not skipped. For this
  reason, every column an update can reach is nullable in the row types.
- `update_product` checks the category only when `category_id` is truthy.
  When the key is omitted, null or `0`, the check is skipped
  (`Products.ZeroCategorySkipsCheck`, `Api.ZeroCategoryCanOrphan`,
  `Api.NullCategoryDropsReference`).
- `update_product` reports "Product not found" before it looks at the category.
- `update_category` never checks name uniqueness again
  (`Categories.UpdateMayDuplicateNames`).
- Update bodies have no range constraints. A negative stock or an empty name
  is stored, and the row then fails the response schema
  (`Products.NegativeStockIsStored`).
- A duplicate category name is answered with status 400.
- `delete_category` does no dependent-product check of its own
  (`Api.DeleteCategoryCanOrphan`).

## Model

| member | source | states |
|---|---|---|
| Schemas.ParseCategoryCreate | schemas/schemas.py:7-13 | A category body is accepted iff its name is present, non-null and 1 to 100 characters long and `is_active` is not null. `description` defaults to null and `is_active` to true. An accepted request is valid and carries the sent values. A rejected body names each failing field. |
| Schemas.ParseProductCreate | schemas/schemas.py:30-38 | A product body is accepted iff its name is 1 to 100 characters, its price is present and > 0, its stock is omitted or a non-null value >= 0, and `category_id` is present. `stock` defaults to 0 and `description` to null. A rejected body lists "name", "price", "stock" and "category_id" each exactly when that field fails its constraint. |
| Store.CategoryResponseOf | schemas/schemas.py:20-25 | A row converts to a `Category` response iff it satisfies the base-field constraints. The response is the row's base fields plus `id` and `created_at`. |
| Store.ProductResponseOf | schemas/schemas.py:47-51 | A row converts to a `Product` response iff it satisfies the base-field constraints: name length, price > 0, stock >= 0 and a category id. The response is the base fields plus `id`. |
| Store.PageConcat | app/routes/categories.py:14-16 | The page at `skip` of size `a`, followed by the page at `skip + a` of size `b`, is the page at `skip` of size `a + b`. |
| Store.AllPagesTile | routes/products.py:14-16 | For one fixed enumeration order, walking `skip` forward by a positive `limit` returns every row from `skip` on, once each and in order. The queries have no ORDER BY, so the source does not fix that order across requests. |
| Categories.ReadCategories | app/routes/categories.py:13-16 | Returns 200 and the rows from position `skip` in database order, at most `limit` of them, each paired with its stored record. An omitted `skip` is 0 and an omitted `limit` is 100. The state is unchanged. |
| Categories.CreateCategory | app/routes/categories.py:18-28 | Fails with 400 "Category already registered" iff a stored category has the same name, with the state unchanged. Otherwise returns 201 and adds exactly one row, under the fresh id, built from the request. All other rows and the product store are unchanged. |
| Categories.ReadCategory | app/routes/categories.py:30-35 | Fails with 404 "Category not found" iff the id is absent. Otherwise returns 200 and the stored row. The state is unchanged. |
| Categories.UpdateCategory | app/routes/categories.py:37-49 | Fails with 404 iff the id is absent, with the state unchanged. Otherwise only that row changes: exactly the sent keys take the sent values (null included), and `created_at` and all other rows are kept. |
| Categories.DeleteCategory | app/routes/categories.py:51-59 | Fails with 404 iff the id is absent, with the state unchanged. Otherwise returns 204 and removes exactly that id. Every other row is kept. |
| Categories.CreateKeepsNamesDistinct | app/routes/categories.py:19-28 | If category names were pairwise distinct before a create, they still are after it. |
| Categories.UpdateMayDuplicateNames | app/routes/categories.py:43-45 | There is a state with distinct names in which renaming one category to another's name succeeds and leaves a duplicate. |
| Categories.DeleteUndoesCreate | app/routes/categories.py:18-59 | Deleting a category just created restores the previous state and answers 204. |
| Categories.ReadAfterCreate | app/routes/categories.py:24-35 | Reading back a created category returns exactly the row the request described. |
| Categories.UpdateIdempotent | app/routes/categories.py:43-49 | Repeating an update gives the same reply and state as applying it once. |
| Categories.EmptyUpdateChangesNothing | app/routes/categories.py:43-45 | An update that sends no key leaves the state unchanged. |
| Categories.CreatedCategoryResponse | app/routes/categories.py:24-28 | A category created from a valid request is served as the request's fields plus its id and `created_at`. |
| Products.ReadProducts | routes/products.py:13-16 | Returns 200 and the rows from position `skip` in database order, at most `limit` of them, each paired with its stored record. An omitted `skip` is 0 and an omitted `limit` is 100. The state is unchanged. |
| Products.CreateProduct | routes/products.py:18-29 | Fails with 404 "Category not found" iff `category_id` is not a stored category (0 included), with both stores unchanged. Otherwise returns 201 and adds exactly one row, under the fresh id, equal to the request. All other products and all categories are unchanged. |
| Products.ReadProduct | routes/products.py:31-36 | Fails with 404 "Product not found" iff the id is absent. Otherwise returns the stored row. The state is unchanged. |
| Products.UpdateProduct | routes/products.py:38-55 | An absent product gives 404 "Product not found", whatever the category. Otherwise a truthy `category_id` that is not stored gives 404 "Category not found". On both errors nothing changes. On success, exactly the sent keys of that product change (null included), and all other products and all categories are kept. |
| Products.DeleteProduct | routes/products.py:57-65 | Fails with 404 iff the id is absent, with the state unchanged. Otherwise returns 204 and removes exactly that id. All other products and all categories are unchanged. |
| Products.DeleteUndoesCreate | routes/products.py:18-65 | Deleting a product just created restores the previous state and answers 204. |
| Products.ReadAfterCreate | routes/products.py:25-36 | Reading back a created product returns exactly the row the request described. |
| Products.UpdateIdempotent | routes/products.py:49-55 | Repeating an update gives the same reply and state as applying it once. |
| Products.EmptyUpdateChangesNothing | routes/products.py:49-51 | An update that sends no key leaves the state unchanged. |
| Products.ZeroCategorySkipsCheck | routes/products.py:44-51 | Updating an existing product with `category_id` 0 succeeds whether or not category 0 exists, and stores 0. |
| Products.NegativeStockIsStored | routes/products.py:44-55 | A stock of -1 in an update is stored whenever the product exists and any truthy category exists. The resulting row no longer converts to a `Product` response. |
| Products.CreatedProductResponse | routes/products.py:25-29 | A product created from a valid request is served as the request's fields plus its id. |
| Api.StepKeepsReferencesLive | routes/products.py:19-55 | Suppose every product has a non-null `category_id` naming a stored category. After any single request other than a category delete or an update of `category_id` to 0 or null, that still holds. |
| Api.RunKeepsReferencesLive | routes/products.py:19-55 | The same holds for any sequence of such requests. |
| Api.DeleteCategoryCanOrphan | app/routes/categories.py:52-59 | In the model, deleting a category that a product references succeeds, and the product is left with a dangling reference. |
| Api.ZeroCategoryCanOrphan | routes/products.py:44-51 | In the model, updating a product's `category_id` to 0 succeeds without a check and leaves a dangling reference when there is no category 0. |
| Api.NullCategoryDropsReference | routes/products.py:44-51 | In the model, updating a product's `category_id` to null succeeds without a check and leaves the product with no category. |

## Left out

- `app/main.py`: app construction, CORS configuration, table creation and the welcome message at `/`. None of it is route logic.
- Session mechanics (`add`, `commit`, `refresh`, `delete`).
- Id generation. Handlers take the new id as a parameter that is absent from the table. In `Api.Step` a create request carries the generated id. A create whose id is already in use stores nothing, as a failed insert would.
- `created_at` generation: it is a parameter of `CreateCategory`, an opaque `Timestamp`.
- Row order. The queries have no ORDER BY, so listings take the database's order as a parameter `order` that enumerates the table's keys once each.
- Negative `skip` or `limit`: their effect depends on the database engine, so both are natural numbers in the model.
- Products of a deleted category. `models/models.py` and the database's foreign-key configuration are not part of this model. `DeleteCategory` leaves the product table untouched, as the handler itself does. Cascading or refusing the delete is not modelled.
- NOT NULL, UNIQUE and foreign-key constraints that the database might enforce at commit. They live in `models/models.py`, which is not part of this model. A null or duplicate name written by an update is kept in the row. A product may be left referencing a deleted or nonexistent category. Where the database enforces the foreign key, such a commit would fail instead: the state would stay unchanged and the client would get 500.
- Collation: the duplicate-name query is modelled as exact string equality.
- `price` floating-point semantics: it is a real number, used only in the `> 0` comparison.
- HTTP routing and serialisation. The framework's type coercion, extra keys and the exact 422 error payload are not modelled. Validation failures are lists of field names.
- Categories.ReadCategory: keeps status 200 when the row fails the `Category` response schema. The framework's check against `response_model` would answer 500. Only the row-to-response conversion (`Store.CategoryResponseOf`) is modelled.
- Categories.UpdateCategory: keeps status 200 when the updated row fails the `Category` response schema. The framework would answer 500, after the change was committed.
- Products.ReadProduct: keeps status 200 when the row fails the `Product` response schema (`Store.ProductResponseOf`). The framework would answer 500.
- Products.UpdateProduct: keeps status 200 when the updated row fails the `Product` response schema, a negative stock for example. The framework would answer 500, after the change was committed.
- Categories.ReadCategories and Products.ReadProducts: keep status 200 when a listed row fails the response schema. The framework would fail the whole list with 500.
- `Api.Step` keeps only the resulting state of each request. It leaves listings out, since they do not change the state.
