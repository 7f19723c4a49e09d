/** Values shared by every part of the provisioning core: an optional value
    (Python's None) and the answer the database server gives to one statement. */
module Outcomes {

  /** A nullable column or argument: `None` is SQL NULL / Python None. */
  datatype Option<T> = None | Some(value: T)

  /** The kinds of failure a statement sent to the server can end with. */
  datatype DbError =
    | ConnectionError      // server unreachable or authentication refused
    | DdlFailure           // a schema or procedures script failed
    | ConstraintViolation  // uniqueness or foreign-key check on an insert
    | HashingError         // the password hasher rejected the secret

  /** The server's answer to one committed-on-its-own statement. */
  datatype DbOutcome = Committed | Rejected(error: DbError)
}
