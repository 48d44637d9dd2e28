/** Option and Result, standing in for Java's null / caught exceptions
    and Python's raised errors. */
module Wrappers {

  datatype Option<+T> = None | Some(value: T)

  /** The ways a rendering or regrouping step can fail in the source. */
  datatype Error =
    | SliceOutOfRange   // StringBuilder.append(text, start, end) with bad bounds
    | NoContainer       // no covering sentence: iterator().next() on nothing
    | CoveredTextOutOfRange  // getCoveredText() of an annotation outside the document
    | IndexError        // Python list index out of range
    | ValueError        // Python unpacking of, or max() over, an empty sequence

  datatype Result<+T> = Ok(value: T) | Err(error: Error)
}
