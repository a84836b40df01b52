/**
 The request and response schemas of the inventory API: the create bodies
 with their field constraints and defaults, the partial-update bodies, and the
 `Category` / `Product` response shapes.
 */
module Schemas {
  import opened Fields

  const NameMinLength: nat := 1
  const NameMaxLength: nat := 100

  /** `created_at` is generated by the database; the model treats it as an opaque value. */
  datatype Timestamp = Timestamp(ticks: int)

  /** The `min_length=1, max_length=100` constraint shared by category and product names. */
  predicate ValidName(name: string)
  {
    NameMinLength <= |name| <= NameMaxLength
  }

  // ---------------------------------------------------------------- categories

  /** A parsed `CategoryCreate`: the `CategoryBase` fields with defaults filled in. */
  datatype CategoryCreate = CategoryCreate(name: string, description: Option<string>, isActive: bool)

  predicate ValidCategoryCreate(c: CategoryCreate)
  {
    ValidName(c.name)
  }

  /** A `CategoryUpdate`: every key optional, nullable and unconstrained; the
      route applies exactly the keys the client sent. It is also the shape of a
      raw category body before `CategoryCreate` validation. */
  datatype CategoryUpdate = CategoryUpdate(name: Patch<string>, description: Patch<string>, isActive: Patch<bool>)

  /** The `Category` response: the base fields plus `id` and `created_at`. */
  datatype CategoryResponse = CategoryResponse(id: int, name: string, description: Option<string>, isActive: bool, createdAt: Timestamp)

  // ------------------------------------------------------------------ products

  /** A parsed `ProductCreate`: the `ProductBase` fields with defaults filled in.
      `price` is a real number; only its comparison with zero matters here. */
  datatype ProductCreate = ProductCreate(name: string, description: Option<string>, price: real, stock: int, categoryId: int)

  predicate ValidProductCreate(p: ProductCreate)
  {
    ValidName(p.name) && p.price > 0.0 && p.stock >= 0
  }

  /** A `ProductUpdate`, and the shape of a raw product body before validation. */
  datatype ProductUpdate = ProductUpdate(name: Patch<string>, description: Patch<string>, price: Patch<real>, stock: Patch<int>, categoryId: Patch<int>)

  /** The `Product` response: the base fields plus `id`. */
  datatype ProductResponse = ProductResponse(id: int, name: string, description: Option<string>, price: real, stock: int, categoryId: int)

  // ------------------------------------------------------------------- parsing

  /** Outcome of validating a body: the parsed model, or the names of every
      failing field in declaration order (the framework answers 422). */
  datatype Parsed<+T> = Valid(value: T) | Invalid(fields: seq<string>)

  /** A required, non-null name key of allowed length. */
  predicate NameKeyOk(p: Patch<string>)
  {
    p.Set? && p.value.Some? && ValidName(p.value.value)
  }

  /** A key whose type is not `Optional`: it may be omitted (a default applies) but not null. */
  predicate NotNull<T>(p: Patch<T>)
  {
    p != Set(None)
  }

  /** A `field` entry in the error list exactly when `ok` fails. */
  function Check(ok: bool, field: string): seq<string>
  {
    if ok then [] else [field]
  }

  /** Validates a body against `CategoryCreate`: `name` is required with length
      in [1, 100]; `description` defaults to null; `is_active` defaults to true
      and may not be null. */
  function ParseCategoryCreate(body: CategoryUpdate): (r: Parsed<CategoryCreate>)
    ensures r.Valid? <==> NameKeyOk(body.name) && NotNull(body.isActive)
    ensures r.Valid? ==> ValidCategoryCreate(r.value)
    ensures r.Valid? ==> Some(r.value.name) == body.name.value
    ensures r.Valid? && body.description.Unset? ==> r.value.description == None
    ensures r.Valid? && body.description.Set? ==> r.value.description == body.description.value
    ensures r.Valid? && body.isActive.Unset? ==> r.value.isActive
    ensures r.Valid? && body.isActive.Set? ==> Some(r.value.isActive) == body.isActive.value
    ensures r.Invalid? ==> |r.fields| > 0
    ensures r.Invalid? ==> ("name" in r.fields <==> !NameKeyOk(body.name))
    ensures r.Invalid? ==> ("is_active" in r.fields <==> !NotNull(body.isActive))
  {
    var errors := Check(NameKeyOk(body.name), "name") + Check(NotNull(body.isActive), "is_active");
    if errors == [] then
      Valid(CategoryCreate(body.name.value.value,
                           Apply(body.description, None),
                           Apply(body.isActive, Some(true)).value))
    else
      Invalid(errors)
  }

  /** Validates a body against `ProductCreate`: `name` as for categories, `price`
      required and > 0, `stock` defaulting to 0 and >= 0, `category_id` required;
      `description` defaults to null. */
  function ParseProductCreate(body: ProductUpdate): (r: Parsed<ProductCreate>)
    ensures r.Valid? <==>
      && NameKeyOk(body.name)
      && body.price.Set? && body.price.value.Some? && body.price.value.value > 0.0
      && NotNull(body.stock) && (body.stock.Set? ==> body.stock.value.value >= 0)
      && body.categoryId.Set? && body.categoryId.value.Some?
    ensures r.Valid? ==> ValidProductCreate(r.value)
    ensures r.Valid? ==> Some(r.value.name) == body.name.value
    ensures r.Valid? ==> Some(r.value.price) == body.price.value
    ensures r.Valid? ==> Some(r.value.categoryId) == body.categoryId.value
    ensures r.Valid? && body.description.Unset? ==> r.value.description == None
    ensures r.Valid? && body.description.Set? ==> r.value.description == body.description.value
    ensures r.Valid? && body.stock.Unset? ==> r.value.stock == 0
    ensures r.Valid? && body.stock.Set? ==> Some(r.value.stock) == body.stock.value
    ensures r.Invalid? ==> |r.fields| > 0
    ensures r.Invalid? ==> ("name" in r.fields <==> !NameKeyOk(body.name))
    ensures r.Invalid? ==> ("price" in r.fields <==> !(body.price.Set? && body.price.value.Some? && body.price.value.value > 0.0))
    ensures r.Invalid? ==> ("category_id" in r.fields <==> !(body.categoryId.Set? && body.categoryId.value.Some?))
    ensures r.Invalid? ==> ("stock" in r.fields <==> body.stock.Set? && (body.stock.value.None? || body.stock.value.value < 0))
  {
    var priceOk := body.price.Set? && body.price.value.Some? && body.price.value.value > 0.0;
    var stockOk := NotNull(body.stock) && (body.stock.Set? ==> body.stock.value.value >= 0);
    var categoryOk := body.categoryId.Set? && body.categoryId.value.Some?;
    var errors := Check(NameKeyOk(body.name), "name") + Check(priceOk, "price")
                  + Check(stockOk, "stock") + Check(categoryOk, "category_id");
    if errors == [] then
      Valid(ProductCreate(body.name.value.value,
                          Apply(body.description, None),
                          body.price.value.value,
                          Apply(body.stock, Some(0)).value,
                          body.categoryId.value.value))
    else
      Invalid(errors)
  }
}
