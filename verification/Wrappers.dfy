// Optional values, the failures of the Rust and C++ layers, and a device for the verifier.
module Wrappers {
  datatype Option<+T> = None | Some(value: T) {
    function GetOr(default: T): T {
      match this
      case Some(v) => v
      case None => default
    }
  }

  datatype Result<+T, +E> = Success(value: T) | Failure(error: E)

  // Every way in which a call into the bridge can fail.
  datatype Error =
    | Transport              // the request failed, or the body is not JSON
    | MissingItems           // no "items" array
    | MissingRowId
    | MissingTableId
    | MissingTableName
    | MissingColumnId
    | MissingColumnName
    | ColumnOutOfRange       // the scan's projection names an unknown column
    | UnsupportedOperation   // the table lacks the capability
    | InvalidShape           // value and column counts do not fit together
    | UnsupportedExpression
    | ExplicitTransaction
    | RollbackUnsupported
    | NullQueryValue

  // Some predicates are stated as `forall look :: LookInside(look) ==> ...`. They mean what
  // follows the guard; the verifier does not unfold them until a proof says
  // `assert LookInside(0)`, or for those that are guarded by a number n, `assert LookAt(0, n)`.
  predicate LookInside(look: int) {
    true
  }

  predicate LookAt(look: int, n: nat) {
    true
  }
}
