/** Failure-carrying result types shared by the modules of this model. */
module Wrappers {

  /** The outcome of a Rust function that may panic (`panic!`, `todo!`,
      `unreachable!`, a failed `assert!`). */
  datatype Result<+T> = Success(value: T) | Panic(reason: string)
}

/** Optional values, kept apart from `Wrappers` because the status subcodes
    have a variant named `None` of their own. */
module Optional {

  /** A Rust `Option` (or a nullable C++ pointer: `None` is null). */
  datatype Option<+T> = None | Some(value: T)
}
