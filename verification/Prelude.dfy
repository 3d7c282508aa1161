/** Shared result types: the response codes every module of the gateway returns, and an option. */
module Prelude {

  datatype Option<+T> = None | Some(value: T)

  /** The response codes of common/resp_codes.h that the modelled functions can return. */
  datatype Res = Success | Incorrect | Unknown | MemAlloc | FcsIncorrect | LenInvalid | Unsupported

}
