/** Option and Result, the two wrappers the model uses for values that may be
    absent (a reply without content) and for calls that may fail (a transport
    error raised by the chat-completion client). */
module Wrappers {

  datatype Option<+T> = None | Some(value: T)

  datatype Result<+R, +E> = Success(value: R) | Failure(error: E)
}
