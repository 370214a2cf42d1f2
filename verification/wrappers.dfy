/** Failure-compatible wrappers used throughout the model.
    `Option` stands for a Python value that may be absent or infinite,
    `Result` for a step that may stop with the tool's fatal `error(...)`. */
module Wrappers {

  datatype Option<+T> = None | Some(value: T) {
    function GetOr(default: T): T {
      match this
      case Some(v) => v
      case None => default
    }
  }

  /** `Err` carries the message the tool would print before exiting. */
  datatype Result<+T> = Ok(value: T) | Err(msg: string) {
    predicate IsFailure() {
      Err?
    }

    function PropagateFailure<U>(): Result<U>
      requires Err?
    {
      Err(msg)
    }

    function Extract(): T
      requires Ok?
    {
      value
    }
  }

  /** `var _ :- Need(cond, msg)` stops with `msg` unless `cond` holds. */
  datatype Check = Pass | Fail(msg: string) {
    predicate IsFailure() {
      Fail?
    }

    function PropagateFailure<U>(): Result<U>
      requires Fail?
    {
      Err(msg)
    }

    function Extract(): ()
      requires Pass?
    {
      ()
    }
  }

  function Need(cond: bool, msg: string): Check {
    if cond then Pass else Fail(msg)
  }

  /** No element occurs twice. */
  predicate Distinct<T(==)>(s: seq<T>) {
    forall i, j :: 0 <= i < j < |s| ==> s[i] != s[j]
  }
}
