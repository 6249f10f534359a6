/** The optional-value datatype used for every "may be missing" answer of the
    model (a null from a platform call, a decoder that rejects its input), and
    the byte type of image contents and encoded text. */
module Basics {

  datatype Option<+T> = None | Some(value: T) {

    predicate IsFailure() {
      None?
    }

    function PropagateFailure<U>(): Option<U>
      requires None?
    {
      None
    }

    function Extract(): T
      requires Some?
    {
      value
    }
  }

  /** An octet, as a Kotlin `Byte` read without sign. */
  type Byte = b: int | 0 <= b < 256
}
