/**
 * The JSON answers of the route handlers: a status code and a body that is
 * either `{ success: true, ... }` carrying the route's data or
 * `{ success: false, error }` carrying a message.
 */
module Http {
  import opened Common

  /** JavaScript truthiness of an optional string: present and not empty. */
  predicate Truthy(v: Option<string>) {
    v.Some? && v.value != ""
  }

  datatype Body<+T> = Data(data: T) | Error(error: string)

  datatype Response<+T> = Response(status: nat, body: Body<T>)

  const StatusOk: nat := 200
  const StatusCreated: nat := 201
  const StatusBadRequest: nat := 400
  const StatusUnauthorized: nat := 401
  const StatusForbidden: nat := 403
  const StatusServerError: nat := 500

  /** A failure answer: `{ success: false, error: message }` with the status. */
  function Fail<T>(status: nat, message: string): (r: Response<T>)
    ensures r.status == status && r.body.Error? && r.body.error == message
  {
    Response(status, Error(message))
  }

  /** An answer carries data exactly when it is a success. */
  predicate Succeeded<T>(r: Response<T>) {
    r.body.Data?
  }
}
