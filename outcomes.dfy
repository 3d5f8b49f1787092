/** The exceptions the script can raise, and the wrappers that carry them. */
module Outcomes {

  /** The Python exception kinds raised by the modelled code, with the
      arguments the code passes to them. */
  datatype Error =
    | IndexError(msg: string)       // a row has fewer columns than the code reads
    | ValueError(msg: string)       // a failed tuple unpacking, or org1 == org2
    | KeyError(key: string)         // a plain dict lookup of an absent key
    | LookupError(args: seq<string>) // raised explicitly, with these arguments
    | TypeError(msg: string)        // `len` of a missing exclude list

  datatype Result<T> = Ok(value: T) | Err(error: Error)

  datatype Option<T> = None | Some(value: T)

  /** The message CPython 2 gives when `a, b = s.split(sep, 1)` finds no separator. */
  const UnpackMessage: string := "need more than 1 value to unpack"

  /** The message CPython 2 gives for a list index past the end. */
  const IndexMessage: string := "list index out of range"

  /** The message CPython 2 gives for `len(None)`. */
  const NoLenMessage: string := "object of type 'NoneType' has no len()"
}
