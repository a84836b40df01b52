/**
 The two routers mounted side by side as one state machine: a request goes to
 its route, and a sequence of requests is run one after another. Used to state
 how far the "a product references a live category" invariant holds.
 */
module Api {
  import opened Fields
  import opened Schemas
  import opened Store
  import Categories
  import Products

  datatype Request =
    | ListCategories(skip: Option<nat>, limit: Option<nat>)
    | CreateCategory(category: CategoryCreate, newId: Id, now: Timestamp)
    | GetCategory(id: Id)
    | UpdateCategory(id: Id, categoryPatch: CategoryUpdate)
    | DeleteCategory(id: Id)
    | ListProducts(skip: Option<nat>, limit: Option<nat>)
    | CreateProduct(product: ProductCreate, newId: Id)
    | GetProduct(id: Id)
    | UpdateProduct(id: Id, productPatch: ProductUpdate)
    | DeleteProduct(id: Id)

  /** The state after one request. Listings and lookups never change it. A
      create carries the id the database generates for the new row; should
      that id already be in use, the insert fails and nothing is stored. */
  function Step(s: State, req: Request): State
  {
    match req
    case ListCategories(_, _) => s
    case CreateCategory(c, id, now) =>
      if id in s.categories then s else Categories.CreateCategory(s, c, id, now).state
    case GetCategory(id) => Categories.ReadCategory(s, id).state
    case UpdateCategory(id, u) => Categories.UpdateCategory(s, id, u).state
    case DeleteCategory(id) => Categories.DeleteCategory(s, id).state
    case ListProducts(_, _) => s
    case CreateProduct(p, id) =>
      if id in s.products then s else Products.CreateProduct(s, p, id).state
    case GetProduct(id) => Products.ReadProduct(s, id).state
    case UpdateProduct(id, u) => Products.UpdateProduct(s, id, u).state
    case DeleteProduct(id) => Products.DeleteProduct(s, id).state
  }

  /** The state after a sequence of requests, in order. */
  function Run(s: State, reqs: seq<Request>): State
    decreases |reqs|
  {
    if reqs == [] then s else Run(Step(s, reqs[0]), reqs[1..])
  }

  /** Every product has a category id, and it names a stored category. */
  ghost predicate ReferencesLive(s: State)
  {
    forall p :: p in s.products ==> s.products[p].categoryId.Some? && s.products[p].categoryId.value in s.categories
  }

  /** The requests that cannot leave a product without a live category: everything
      except deleting a category and updating a product's `category_id` to 0 or
      to null, the two values the truthiness test lets through unchecked. */
  predicate Benign(req: Request)
  {
    && !req.DeleteCategory?
    && !(req.UpdateProduct? && req.productPatch.categoryId in {Set(Some(0)), Set(None)})
  }

  /** One benign request keeps every product's category reference live. */
  lemma StepKeepsReferencesLive(s: State, req: Request)
    requires ReferencesLive(s) && Benign(req)
    ensures ReferencesLive(Step(s, req))
  {
  }

  /** Any run of benign requests keeps every product's category reference live. */
  lemma {:induction false} RunKeepsReferencesLive(s: State, reqs: seq<Request>)
    requires ReferencesLive(s)
    requires forall i :: 0 <= i < |reqs| ==> Benign(reqs[i])
    ensures ReferencesLive(Run(s, reqs))
    decreases |reqs|
  {
    if reqs != [] {
      StepKeepsReferencesLive(s, reqs[0]);
      RunKeepsReferencesLive(Step(s, reqs[0]), reqs[1..]);
    }
  }

  /** Deleting a category that a product references succeeds and leaves the
      product pointing at a category that no longer exists. */
  lemma DeleteCategoryCanOrphan()
    ensures var s := State(map[1 := CategoryRow(Some("tools"), None, Some(true), Timestamp(0))],
                           map[7 := ProductRow(Some("hammer"), None, Some(9.5), Some(3), Some(1))]);
            && ReferencesLive(s)
            && Categories.DeleteCategory(s, 1).result.Ok?
            && !ReferencesLive(Step(s, DeleteCategory(1)))
  {
    var s := State(map[1 := CategoryRow(Some("tools"), None, Some(true), Timestamp(0))],
                   map[7 := ProductRow(Some("hammer"), None, Some(9.5), Some(3), Some(1))]);
    var t := Step(s, DeleteCategory(1));
    assert 7 in t.products && t.products[7].categoryId == Some(1) && 1 !in t.categories;
  }

  /** Updating a product's `category_id` to 0 succeeds without the existence
      check and leaves a dangling reference when no category 0 exists. */
  lemma ZeroCategoryCanOrphan()
    ensures var s := State(map[1 := CategoryRow(Some("tools"), None, Some(true), Timestamp(0))],
                           map[7 := ProductRow(Some("hammer"), None, Some(9.5), Some(3), Some(1))]);
            var u := ProductUpdate(Unset, Unset, Unset, Unset, Set(Some(0)));
            && ReferencesLive(s)
            && Products.UpdateProduct(s, 7, u).result.Ok?
            && !ReferencesLive(Step(s, UpdateProduct(7, u)))
  {
  }

  /** Updating a product's `category_id` to null succeeds without a check and
      leaves the product with no category at all. */
  lemma NullCategoryDropsReference()
    ensures var s := State(map[1 := CategoryRow(Some("tools"), None, Some(true), Timestamp(0))],
                           map[7 := ProductRow(Some("hammer"), None, Some(9.5), Some(3), Some(1))]);
            var u := ProductUpdate(Unset, Unset, Unset, Unset, Set(None));
            && ReferencesLive(s)
            && Products.UpdateProduct(s, 7, u).result.Ok?
            && !ReferencesLive(Step(s, UpdateProduct(7, u)))
  {
  }
}
