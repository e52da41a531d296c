/** Optional values and the outcome of a call to the remote notes service. */
module Wrappers {

  /** A value that may be absent: an optional property of a note, or a field that may be null. */
  datatype Option<+T> = None | Some(value: T)

  /** What a request to the notes service came back with: the value it delivered to the
      success callback, or a call of the error callback (whose payload only gets logged). */
  datatype Reply<+T> = Success(value: T) | Failure
}
