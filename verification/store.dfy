/**
 The two tables the routes work on, abstracted to maps from id to row, and the
 pieces both resource handlers share: the offset/limit slice of a listing and
 the conversion of a stored row into its response schema.
 */
module Store {
  import opened Fields
  import opened Http
  import opened Schemas

  type Id = int

  /** A `categories` row. Every column an update may set is nullable here: the
      route assigns whatever the update body carries, `null` included. */
  datatype CategoryRow = CategoryRow(name: Option<string>, description: Option<string>, isActive: Option<bool>, createdAt: Timestamp)

  /** A `products` row, with the same convention. */
  datatype ProductRow = ProductRow(name: Option<string>, description: Option<string>, price: Option<real>, stock: Option<int>, categoryId: Option<Id>)

  datatype State = State(categories: map<Id, CategoryRow>, products: map<Id, ProductRow>)

  /** What a route leaves behind: the state after it and the HTTP result. */
  datatype Reply<+T> = Reply(state: State, result: Result<T>)

  function Min(a: int, b: int): int
  {
    if a <= b then a else b
  }

  // ---------------------------------------------------------------- listings

  /** `order` lists every key of a table exactly once: the order in which the
      database happens to return the rows of a query without ORDER BY. */
  predicate Enumerates(order: seq<Id>, keys: set<Id>)
  {
    && (forall i, j :: 0 <= i < j < |order| ==> order[i] != order[j])
    && (forall k :: k in keys ==> k in order)
    && (forall i :: 0 <= i < |order| ==> order[i] in keys)
  }

  /** The query parameters' defaults: `skip: int = 0, limit: int = 100`. */
  const DefaultSkip: nat := 0
  const DefaultLimit: nat := 100

  /** A query parameter's value: the one sent, or the default when it was omitted. */
  function OrDefault(param: Option<nat>, default: nat): nat
  {
    match param
    case Some(v) => v
    case None => default
  }

  /** `OFFSET skip LIMIT limit` over a sequence of rows. */
  function Page<T>(rows: seq<T>, skip: nat, limit: nat): (r: seq<T>)
    ensures |r| <= limit
    ensures |r| == if skip >= |rows| then 0 else Min(limit, |rows| - skip)
    ensures forall i :: 0 <= i < |r| ==> r[i] == rows[skip + i]
  {
    if skip >= |rows| then [] else rows[skip .. skip + Min(limit, |rows| - skip)]
  }

  /** The rows of a table at the ids `Page(order, skip, limit)` selects, each paired with its id. */
  function Listing<R>(table: map<Id, R>, order: seq<Id>, skip: nat, limit: nat): (r: seq<(Id, R)>)
    requires Enumerates(order, table.Keys)
    ensures |r| == |Page(order, skip, limit)|
    ensures forall i :: 0 <= i < |r| ==> r[i].0 == order[skip + i] && r[i].0 in table && r[i].1 == table[r[i].0]
  {
    var ids := Page(order, skip, limit);
    seq(|ids|, i requires 0 <= i < |ids| => (ids[i], table[ids[i]]))
  }

  /** Two consecutive pages are the page that spans both. */
  lemma PageConcat<T>(rows: seq<T>, skip: nat, a: nat, b: nat)
    ensures Page(rows, skip, a) + Page(rows, skip + a, b) == Page(rows, skip, a + b)
  {
  }

  /** The pages a client fetches by walking `skip` forward by `limit` from `skip`. */
  function AllPages<T>(rows: seq<T>, skip: nat, limit: nat): seq<T>
    requires limit > 0
    decreases |rows| - skip
  {
    if skip >= |rows| then [] else Page(rows, skip, limit) + AllPages(rows, skip + limit, limit)
  }

  /** Walking the pages from `skip` over ONE fixed enumeration of the rows yields
      every row from `skip` on, once and in order. The queries have no ORDER BY,
      so the database does not promise the same order to successive requests;
      with two different orders a row can repeat and another be missed. */
  lemma {:induction false} AllPagesTile<T>(rows: seq<T>, skip: nat, limit: nat)
    requires limit > 0 && skip <= |rows|
    ensures AllPages(rows, skip, limit) == rows[skip..]
    decreases |rows| - skip
  {
    if skip < |rows| {
      if skip + limit <= |rows| {
        AllPagesTile(rows, skip + limit, limit);
        assert rows[skip..] == rows[skip .. skip + limit] + rows[skip + limit ..];
      } else {
        assert AllPages(rows, skip + limit, limit) == [];
      }
    }
  }

  // ------------------------------------------------------- response conversion

  /** A row the `Category` response schema accepts. */
  predicate ServableCategory(row: CategoryRow)
  {
    row.name.Some? && ValidName(row.name.value) && row.isActive.Some?
  }

  /** Response validation of a category row: the `Category` model built from the
      row's attributes, or `None` when the row violates the schema (a server error). */
  function CategoryResponseOf(id: Id, row: CategoryRow): (r: Option<CategoryResponse>)
    ensures r.Some? <==> ServableCategory(row)
    ensures r.Some? ==> && r.value.id == id && Some(r.value.name) == row.name
                        && r.value.description == row.description
                        && Some(r.value.isActive) == row.isActive
                        && r.value.createdAt == row.createdAt
  {
    if ServableCategory(row) then
      Some(CategoryResponse(id, row.name.value, row.description, row.isActive.value, row.createdAt))
    else
      None
  }

  /** A row the `Product` response schema accepts. */
  predicate ServableProduct(row: ProductRow)
  {
    && row.name.Some? && ValidName(row.name.value)
    && row.price.Some? && row.price.value > 0.0
    && row.stock.Some? && row.stock.value >= 0
    && row.categoryId.Some?
  }

  /** Response validation of a product row, as for categories. */
  function ProductResponseOf(id: Id, row: ProductRow): (r: Option<ProductResponse>)
    ensures r.Some? <==> ServableProduct(row)
    ensures r.Some? ==> && r.value.id == id && Some(r.value.name) == row.name
                        && r.value.description == row.description
                        && Some(r.value.price) == row.price
                        && Some(r.value.stock) == row.stock
                        && Some(r.value.categoryId) == row.categoryId
  {
    if ServableProduct(row) then
      Some(ProductResponse(id, row.name.value, row.description, row.price.value, row.stock.value, row.categoryId.value))
    else
      None
  }
}
