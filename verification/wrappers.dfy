/** Option and Result, the two shapes the model uses for Swift optionals and
    for values that may instead carry a thrown error. */
module Wrappers {

  /** A Swift optional: `nil` is `None`. */
  datatype Option<+T> = None | Some(value: T) {

    /** The wrapped value, or `default` when there is none (Swift's `??`). */
    function GetOr(default: T): T {
      match this
      case Some(v) => v
      case None => default
    }
  }

  /** Either a value or the error that was thrown instead of producing it. */
  datatype Result<+R, +E> = Success(value: R) | Failure(error: E)
}

/** Stand-ins for the platform values the cache moves around: `Data` is a
    byte sequence, a `UIImage` is an opaque handle, a cache key is a string. */
module Platform {

  newtype byte = x: int | 0 <= x < 256

  /** Foundation's `Data`. */
  type Bytes = seq<byte>

  /** A cache key, also the file name of a disk entry. */
  type Key = string

  /** A decoded `UIImage`; only its identity matters to the cache. */
  datatype Image = Image(handle: nat)
}
