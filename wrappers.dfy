/** Optional values and fallible results, used for absent records, unparsable
    whiteboard tokens and the resolver's fatal validation error. */
module Wrappers {

  datatype Option<+T> = None | Some(value: T)

  /** `Failure` carries the text of the fatal error the resolver raises. */
  datatype Result<+T> = Success(value: T) | Failure(error: string)
}
