/**
 The product handler: the same five routes as for categories, over the product
 table, plus the check that a referenced category exists on create and update.
 */
module Products {
  import opened Fields
  import opened Http
  import opened Schemas
  import opened Store
  import Categories

  const ProductNotFound: string := "Product not found"

  /** A product row after a partial update: exactly the sent keys changed. */
  predicate ProductPatched(before: ProductRow, after: ProductRow, u: ProductUpdate)
  {
    && FieldPatched(before.name, after.name, u.name)
    && FieldPatched(before.description, after.description, u.description)
    && FieldPatched(before.price, after.price, u.price)
    && FieldPatched(before.stock, after.stock, u.stock)
    && FieldPatched(before.categoryId, after.categoryId, u.categoryId)
  }

  /** `update_product` looks the category up only when the sent `category_id` is
      truthy: an omitted key, `null` and `0` all skip the check. */
  predicate ChecksCategory(u: ProductUpdate)
  {
    u.categoryId.Set? && Truthy(u.categoryId.value)
  }

  /** `GET /products`: the `skip`/`limit` slice of the table in database order;
      an omitted parameter takes its default (0 and 100). */
  function ReadProducts(s: State, order: seq<Id>, skip: Option<nat>, limit: Option<nat>): (r: Reply<seq<(Id, ProductRow)>>)
    requires Enumerates(order, s.products.Keys)
    ensures r.state == s
    ensures r.result.Ok? && r.result.status == StatusOk
    ensures limit.None? ==> |r.result.value| <= DefaultLimit
    ensures var sk, lim := OrDefault(skip, DefaultSkip), OrDefault(limit, DefaultLimit);
      && |r.result.value| <= lim
      && |r.result.value| == (if sk >= |order| then 0 else Min(lim, |order| - sk))
      && forall i :: 0 <= i < |r.result.value| ==>
           sk + i < |order| && r.result.value[i] == (order[sk + i], s.products[order[sk + i]])
  {
    Reply(s, Ok(StatusOk, Listing(s.products, order, OrDefault(skip, DefaultSkip), OrDefault(limit, DefaultLimit))))
  }

  /** `POST /products`: 404 unless the category exists, otherwise the row built
      from the request is stored under the fresh id `id`. */
  function CreateProduct(s: State, product: ProductCreate, id: Id): (r: Reply<(Id, ProductRow)>)
    requires id !in s.products
    ensures r.result.Err? <==> product.categoryId !in s.categories
    ensures r.result.Err? ==> r.state == s && r.result == Err(StatusNotFound, Categories.CategoryNotFound)
    ensures r.result.Ok? ==>
      && r.result.status == StatusCreated
      && r.state.categories == s.categories
      && r.state.products.Keys == s.products.Keys + {id}
      && (forall k :: k in s.products ==> r.state.products[k] == s.products[k])
      && r.state.products[id] == ProductRow(Some(product.name), product.description, Some(product.price),
                                            Some(product.stock), Some(product.categoryId))
      && r.result.value == (id, r.state.products[id])
  {
    if product.categoryId !in s.categories then
      Reply(s, Err(StatusNotFound, Categories.CategoryNotFound))
    else
      var row := ProductRow(Some(product.name), product.description, Some(product.price),
                            Some(product.stock), Some(product.categoryId));
      Reply(s.(products := s.products[id := row]), Ok(StatusCreated, (id, row)))
  }

  /** `GET /products/{id}`. */
  function ReadProduct(s: State, id: Id): (r: Reply<(Id, ProductRow)>)
    ensures r.state == s
    ensures r.result.Ok? <==> id in s.products
    ensures r.result.Ok? ==> r.result.status == StatusOk && r.result.value == (id, s.products[id])
    ensures r.result.Err? ==> r.result == Err(StatusNotFound, ProductNotFound)
  {
    if id !in s.products then
      Reply(s, Err(StatusNotFound, ProductNotFound))
    else
      Reply(s, Ok(StatusOk, (id, s.products[id])))
  }

  /** `PUT /products/{id}`: the product is looked up first, then a truthy
      `category_id` is checked, then the sent keys are merged. */
  function UpdateProduct(s: State, id: Id, u: ProductUpdate): (r: Reply<(Id, ProductRow)>)
    ensures r.result.Ok? <==> id in s.products && (ChecksCategory(u) ==> u.categoryId.value.value in s.categories)
    ensures id !in s.products ==> r.state == s && r.result == Err(StatusNotFound, ProductNotFound)
    ensures id in s.products && ChecksCategory(u) && u.categoryId.value.value !in s.categories ==>
      r.state == s && r.result == Err(StatusNotFound, Categories.CategoryNotFound)
    ensures r.result.Ok? ==>
      && r.result.status == StatusOk
      && r.state.categories == s.categories
      && r.state.products.Keys == s.products.Keys
      && (forall k :: k in s.products && k != id ==> r.state.products[k] == s.products[k])
      && ProductPatched(s.products[id], r.state.products[id], u)
      && r.result.value == (id, r.state.products[id])
  {
    if id !in s.products then
      Reply(s, Err(StatusNotFound, ProductNotFound))
    else if ChecksCategory(u) && u.categoryId.value.value !in s.categories then
      Reply(s, Err(StatusNotFound, Categories.CategoryNotFound))
    else
      var old_ := s.products[id];
      var row := ProductRow(Apply(u.name, old_.name), Apply(u.description, old_.description),
                            Apply(u.price, old_.price), Apply(u.stock, old_.stock),
                            Apply(u.categoryId, old_.categoryId));
      Reply(s.(products := s.products[id := row]), Ok(StatusOk, (id, row)))
  }

  /** `DELETE /products/{id}`: 204 with no body. */
  function DeleteProduct(s: State, id: Id): (r: Reply<()>)
    ensures r.result.Ok? <==> id in s.products
    ensures r.result.Err? ==> r.state == s && r.result == Err(StatusNotFound, ProductNotFound)
    ensures r.result.Ok? ==>
      && r.result.status == StatusNoContent
      && r.state.categories == s.categories
      && r.state.products.Keys == s.products.Keys - {id}
      && (forall k :: k in r.state.products ==> r.state.products[k] == s.products[k])
  {
    if id !in s.products then
      Reply(s, Err(StatusNotFound, ProductNotFound))
    else
      Reply(s.(products := s.products - {id}), Ok(StatusNoContent, ()))
  }

  // ------------------------------------------------------------------- lemmas

  /** Deleting what was just created restores the state. */
  lemma DeleteUndoesCreate(s: State, product: ProductCreate, id: Id)
    requires id !in s.products
    requires CreateProduct(s, product, id).result.Ok?
    ensures DeleteProduct(CreateProduct(s, product, id).state, id) == Reply(s, Ok(StatusNoContent, ()))
  {
  }

  /** Reading back a created product returns the row the request described. */
  lemma ReadAfterCreate(s: State, product: ProductCreate, id: Id)
    requires id !in s.products
    requires CreateProduct(s, product, id).result.Ok?
    ensures ReadProduct(CreateProduct(s, product, id).state, id).result
            == Ok(StatusOk, (id, ProductRow(Some(product.name), product.description, Some(product.price),
                                           Some(product.stock), Some(product.categoryId))))
  {
  }

  /** Applying the same update twice is the same as applying it once. */
  lemma UpdateIdempotent(s: State, id: Id, u: ProductUpdate)
    ensures var r := UpdateProduct(s, id, u);
            UpdateProduct(r.state, id, u) == r
  {
  }

  /** An update that sends no key changes nothing. */
  lemma EmptyUpdateChangesNothing(s: State, id: Id)
    ensures UpdateProduct(s, id, ProductUpdate(Unset, Unset, Unset, Unset, Unset)).state == s
  {
  }

  /** `category_id: 0` is falsy, so the existence check is skipped and the
      product ends up referencing category 0 whether or not it exists. */
  lemma ZeroCategorySkipsCheck(s: State, id: Id, u: ProductUpdate)
    requires id in s.products && u.categoryId == Set(Some(0))
    ensures UpdateProduct(s, id, u).result.Ok?
    ensures UpdateProduct(s, id, u).state.products[id].categoryId == Some(0)
  {
  }

  /** Update bodies carry no range constraints: a negative stock is stored and
      committed, after which the row no longer fits the `Product` response schema. */
  lemma NegativeStockIsStored(s: State, id: Id, u: ProductUpdate)
    requires id in s.products && u.stock == Set(Some(-1))
    ensures UpdateProduct(s, id, u).result.Ok? <==> !ChecksCategory(u) || u.categoryId.value.value in s.categories
    ensures UpdateProduct(s, id, u).result.Ok? ==>
      var row := UpdateProduct(s, id, u).state.products[id];
      row.stock == Some(-1) && ProductResponseOf(id, row) == None
  {
  }

  /** A product created from a valid request is served as the `Product`
      response: the request's fields plus the id. */
  lemma CreatedProductResponse(s: State, product: ProductCreate, id: Id)
    requires id !in s.products && ValidProductCreate(product)
    requires CreateProduct(s, product, id).result.Ok?
    ensures var row := CreateProduct(s, product, id).state.products[id];
            ProductResponseOf(id, row) == Some(ProductResponse(id, product.name, product.description, product.price,
                                                               product.stock, product.categoryId))
  {
  }
}
