/** The HTTP outcome of a route: a success status with a body, or an error
    status with the `detail` message of the raised `HTTPException`. */
module Http {

  const StatusOk: int := 200
  const StatusCreated: int := 201
  const StatusNoContent: int := 204
  const StatusBadRequest: int := 400
  const StatusNotFound: int := 404

  datatype Result<+T> = Ok(status: int, value: T) | Err(status: int, detail: string)
}
