/** Shared vocabulary of the model: optional values, results, the opaque error
    value that Go's `error` interface carries, and the 64-bit integer range. */
module Basics {

  /** A Go value that may be nil; `None` plays the role of a nil `error`. */
  datatype Option<+T> = None | Some(value: T)

  /** The `(value, error)` pair a Go function returns, with exactly one side set. */
  datatype Result<+T, +E> = Success(value: T) | Failure(error: E)

  /** An error reported by a collaborator. Only its identity matters to the
      model; its text is carried so that distinct errors stay distinct. */
  datatype Error = Error(message: string)

  const MinInt64: int := -0x8000_0000_0000_0000
  const MaxInt64: int := 0x7fff_ffff_ffff_ffff

  /** Go's `int64`. */
  type int64 = n: int | MinInt64 <= n <= MaxInt64
}
