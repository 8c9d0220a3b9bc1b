/** The request/response vocabulary shared by every handler. */
module Http {

  /** The identity a verified token carries and the handlers read as `req.user`: the JWT claims `{ id, role }`. */
  datatype Identity = Identity(id: nat, role: string)

  /** What a handler answers: a success status with its JSON body, or an error status with its error text. */
  datatype Result<+T> = Ok(status: nat, value: T) | Err(status: nat, message: string)

  const OK: nat := 200
  const Created: nat := 201
  const BadRequest: nat := 400
  const Unauthorized: nat := 401
  const Forbidden: nat := 403
  const NotFound: nat := 404
  const InternalError: nat := 500

  /** The three roles the users table holds. */
  const AdminRole := "admin"
  const StudentRole := "student"
  const StaffRole := "staff"
}
