/**
 Field-level building blocks shared by the request schemas and the stores:
 nullable values and the three-way shape of a key in a partial-update body.
 */
module Fields {

  /** A nullable value: `None` stands for Python's `None` and for SQL NULL. */
  datatype Option<+T> = None | Some(value: T)

  /** One key of a JSON body: `Unset` when the client omitted the key, `Set(v)`
      when it sent the key, with `v == None` for an explicit `null`. */
  datatype Patch<+T> = Unset | Set(value: Option<T>)

  /** The value a column holds once the body's key has been applied to it:
      an omitted key leaves `current` alone, a sent key (even `null`) replaces it.
      With `current` a schema default, this is also how a default is filled in. */
  function Apply<T>(p: Patch<T>, current: Option<T>): Option<T>
  {
    match p
    case Unset => current
    case Set(v) => v
  }

  /** `after` is what a partial update with key `p` must leave in a column that held
      `before`: unchanged when the key was omitted, the sent value (null included) otherwise. */
  predicate FieldPatched<T(==)>(before: Option<T>, after: Option<T>, p: Patch<T>)
  {
    && (p.Unset? ==> after == before)
    && (p.Set? ==> after == p.value)
  }

  /** Python truthiness of an `Optional[int]`: `None` and `0` are falsy. */
  predicate Truthy(v: Option<int>)
  {
    v.Some? && v.value != 0
  }
}
