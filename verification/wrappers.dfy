/**
  Rust's `Option`: what `from_str_radix(..).ok()` and `parse_public_key` return,
  and how the crypto and zkVM calls report failure here. `IsFailure`,
  `PropagateFailure` and `Extract` let `:-` play the part of Rust's `?`.
 */
module Wrappers {

  datatype Option<+T> = None | Some(value: T) {

    predicate IsFailure() {
      None?
    }

    function PropagateFailure<U>(): Option<U>
      requires None?
    {
      None
    }

    function Extract(): T
      requires Some?
    {
      value
    }
  }
}
