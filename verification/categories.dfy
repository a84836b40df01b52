/**
 The category handler: list, create, get, update and delete over the category
 table. Each route is a pure transition from a state to a `Reply`; a raised
 `HTTPException` leaves the state as it was, since nothing was committed.
 */
module Categories {
  import opened Fields
  import opened Http
  import opened Schemas
  import opened Store

  const CategoryNotFound: string := "Category not found"
  const AlreadyRegistered: string := "Category already registered"

  /** Some stored category has exactly this name: the duplicate-name query of `create_category`. */
  predicate NameTaken(categories: map<Id, CategoryRow>, name: string)
  {
    exists id :: id in categories && categories[id].name == Some(name)
  }

  /** No two stored categories share a (non-null) name. */
  ghost predicate DistinctNames(categories: map<Id, CategoryRow>)
  {
    forall a, b :: a in categories && b in categories && a != b && categories[a].name.Some? ==>
      categories[a].name != categories[b].name
  }

  /** A category row after a partial update: exactly the sent keys changed, `created_at` kept. */
  predicate CategoryPatched(before: CategoryRow, after: CategoryRow, u: CategoryUpdate)
  {
    && FieldPatched(before.name, after.name, u.name)
    && FieldPatched(before.description, after.description, u.description)
    && FieldPatched(before.isActive, after.isActive, u.isActive)
    && after.createdAt == before.createdAt
  }

  /** `GET /categories`: the `skip`/`limit` slice of the table in database order;
      an omitted parameter takes its default (0 and 100). */
  function ReadCategories(s: State, order: seq<Id>, skip: Option<nat>, limit: Option<nat>): (r: Reply<seq<(Id, CategoryRow)>>)
    requires Enumerates(order, s.categories.Keys)
    ensures r.state == s
    ensures r.result.Ok? && r.result.status == StatusOk
    ensures limit.None? ==> |r.result.value| <= DefaultLimit
    ensures var sk, lim := OrDefault(skip, DefaultSkip), OrDefault(limit, DefaultLimit);
      && |r.result.value| <= lim
      && |r.result.value| == (if sk >= |order| then 0 else Min(lim, |order| - sk))
      && forall i :: 0 <= i < |r.result.value| ==>
           sk + i < |order| && r.result.value[i] == (order[sk + i], s.categories[order[sk + i]])
  {
    Reply(s, Ok(StatusOk, Listing(s.categories, order, OrDefault(skip, DefaultSkip), OrDefault(limit, DefaultLimit))))
  }

  /** `POST /categories`: rejected with 400 when the name is taken, otherwise the
      row built from the request is stored under the fresh id `id` with `created_at := now`. */
  function CreateCategory(s: State, category: CategoryCreate, id: Id, now: Timestamp): (r: Reply<(Id, CategoryRow)>)
    requires id !in s.categories
    ensures r.result.Err? <==> NameTaken(s.categories, category.name)
    ensures r.result.Err? ==> r.state == s && r.result == Err(StatusBadRequest, AlreadyRegistered)
    ensures r.result.Ok? ==>
      && r.result.status == StatusCreated
      && r.state.products == s.products
      && r.state.categories.Keys == s.categories.Keys + {id}
      && (forall k :: k in s.categories ==> r.state.categories[k] == s.categories[k])
      && r.state.categories[id] == CategoryRow(Some(category.name), category.description, Some(category.isActive), now)
      && r.result.value == (id, r.state.categories[id])
  {
    if NameTaken(s.categories, category.name) then
      Reply(s, Err(StatusBadRequest, AlreadyRegistered))
    else
      var row := CategoryRow(Some(category.name), category.description, Some(category.isActive), now);
      Reply(s.(categories := s.categories[id := row]), Ok(StatusCreated, (id, row)))
  }

  /** `GET /categories/{id}`. */
  function ReadCategory(s: State, id: Id): (r: Reply<(Id, CategoryRow)>)
    ensures r.state == s
    ensures r.result.Ok? <==> id in s.categories
    ensures r.result.Ok? ==> r.result.status == StatusOk && r.result.value == (id, s.categories[id])
    ensures r.result.Err? ==> r.result == Err(StatusNotFound, CategoryNotFound)
  {
    if id !in s.categories then
      Reply(s, Err(StatusNotFound, CategoryNotFound))
    else
      Reply(s, Ok(StatusOk, (id, s.categories[id])))
  }

  /** `PUT /categories/{id}`: a partial merge of the sent keys. The name is not
      checked for uniqueness again. */
  function UpdateCategory(s: State, id: Id, u: CategoryUpdate): (r: Reply<(Id, CategoryRow)>)
    ensures r.result.Ok? <==> id in s.categories
    ensures r.result.Err? ==> r.state == s && r.result == Err(StatusNotFound, CategoryNotFound)
    ensures r.result.Ok? ==>
      && r.result.status == StatusOk
      && r.state.products == s.products
      && r.state.categories.Keys == s.categories.Keys
      && (forall k :: k in s.categories && k != id ==> r.state.categories[k] == s.categories[k])
      && CategoryPatched(s.categories[id], r.state.categories[id], u)
      && r.result.value == (id, r.state.categories[id])
  {
    if id !in s.categories then
      Reply(s, Err(StatusNotFound, CategoryNotFound))
    else
      var old_ := s.categories[id];
      var row := CategoryRow(Apply(u.name, old_.name), Apply(u.description, old_.description),
                             Apply(u.isActive, old_.isActive), old_.createdAt);
      Reply(s.(categories := s.categories[id := row]), Ok(StatusOk, (id, row)))
  }

  /** `DELETE /categories/{id}`: 204 with no body. The handler does not look at
      the products that reference the category. */
  function DeleteCategory(s: State, id: Id): (r: Reply<()>)
    ensures r.result.Ok? <==> id in s.categories
    ensures r.result.Err? ==> r.state == s && r.result == Err(StatusNotFound, CategoryNotFound)
    ensures r.result.Ok? ==>
      && r.result.status == StatusNoContent
      && r.state.products == s.products
      && r.state.categories.Keys == s.categories.Keys - {id}
      && (forall k :: k in r.state.categories ==> r.state.categories[k] == s.categories[k])
  {
    if id !in s.categories then
      Reply(s, Err(StatusNotFound, CategoryNotFound))
    else
      Reply(s.(categories := s.categories - {id}), Ok(StatusNoContent, ()))
  }

  // ------------------------------------------------------------------- lemmas

  /** A successful create keeps category names pairwise distinct. */
  lemma CreateKeepsNamesDistinct(s: State, category: CategoryCreate, id: Id, now: Timestamp)
    requires id !in s.categories && DistinctNames(s.categories)
    ensures DistinctNames(CreateCategory(s, category, id, now).state.categories)
  {
  }

  /** Update performs no uniqueness check: renaming one category to the name of
      another succeeds and leaves two categories with the same name. */
  lemma UpdateMayDuplicateNames()
    ensures var s := State(map[1 := CategoryRow(Some("a"), None, Some(true), Timestamp(0)),
                               2 := CategoryRow(Some("b"), None, Some(true), Timestamp(0))], map[]);
            var r := UpdateCategory(s, 2, CategoryUpdate(Set(Some("a")), Unset, Unset));
            && DistinctNames(s.categories)
            && r.result.Ok?
            && !DistinctNames(r.state.categories)
  {
    var s := State(map[1 := CategoryRow(Some("a"), None, Some(true), Timestamp(0)),
                       2 := CategoryRow(Some("b"), None, Some(true), Timestamp(0))], map[]);
    var r := UpdateCategory(s, 2, CategoryUpdate(Set(Some("a")), Unset, Unset));
    assert r.state.categories[1].name == r.state.categories[2].name;
  }

  /** Deleting what was just created restores the state: delete is create's inverse. */
  lemma DeleteUndoesCreate(s: State, category: CategoryCreate, id: Id, now: Timestamp)
    requires id !in s.categories
    requires CreateCategory(s, category, id, now).result.Ok?
    ensures DeleteCategory(CreateCategory(s, category, id, now).state, id) == Reply(s, Ok(StatusNoContent, ()))
  {
  }

  /** Reading back a created category returns the row the request described. */
  lemma ReadAfterCreate(s: State, category: CategoryCreate, id: Id, now: Timestamp)
    requires id !in s.categories
    requires CreateCategory(s, category, id, now).result.Ok?
    ensures ReadCategory(CreateCategory(s, category, id, now).state, id).result
            == Ok(StatusOk, (id, CategoryRow(Some(category.name), category.description, Some(category.isActive), now)))
  {
  }

  /** Applying the same update twice is the same as applying it once (PUT is idempotent). */
  lemma UpdateIdempotent(s: State, id: Id, u: CategoryUpdate)
    ensures var r := UpdateCategory(s, id, u);
            UpdateCategory(r.state, id, u) == r
  {
  }

  /** An update that sends no key changes nothing. */
  lemma EmptyUpdateChangesNothing(s: State, id: Id)
    ensures UpdateCategory(s, id, CategoryUpdate(Unset, Unset, Unset)).state == s
  {
  }

  /** A category created from a valid request is served as the `Category`
      response: the request's fields plus the id and `created_at`. */
  lemma CreatedCategoryResponse(s: State, category: CategoryCreate, id: Id, now: Timestamp)
    requires id !in s.categories && ValidCategoryCreate(category)
    requires CreateCategory(s, category, id, now).result.Ok?
    ensures var row := CreateCategory(s, category, id, now).state.categories[id];
            CategoryResponseOf(id, row) == Some(CategoryResponse(id, category.name, category.description, category.isActive, now))
  {
  }
}
