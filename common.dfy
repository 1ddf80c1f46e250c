/**
 * Vocabulary shared by the services: optional values, results, the error
 * kinds the services throw, and the contract of the store's version column.
 */
module Common {

  datatype Option<+T> = None | Some(value: T) {
    function GetOr(default: T): T {
      match this
      case Some(v) => v
      case None => default
    }
  }

  /** The HTTP exceptions the services and the guard throw. */
  datatype Error = Unauthorized | Forbidden | NotFound | Conflict | InternalError

  /** A service call either returns a value or throws one of the errors above. */
  datatype Result<+T> = Ok(value: T) | Err(error: Error)

  /**
   * What the store does with a `@VersionColumn` on `save`: a new record that
   * carries no version gets `initial`; a record that overwrites a stored row
   * with the version it read gets `bump` of that version. TypeORM uses 1 and
   * `v + 1`; the model keeps both as an assumption about the store rather
   * than proving them.
   */
  datatype VersionColumn = VersionColumn(initial: int, bump: int -> int)

  /**
   * The version the store writes for a record carrying `given`, where
   * `prior` is the version stored under its key before, if any. A version
   * the caller changed is written as given (also on insert); an unchanged
   * one is bumped.
   */
  function Stamped(vc: VersionColumn, prior: Option<int>, given: int): int {
    match prior
    case None => given
    case Some(p) => if given == p then vc.bump(p) else given
  }

  function Max(a: int, b: int): (m: int)
    ensures m >= a && m >= b && (m == a || m == b)
  {
    if a >= b then a else b
  }
}
