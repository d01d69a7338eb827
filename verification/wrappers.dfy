/** Optional values and the outcome of a request sent to the remote service. */
module Wrappers {

  datatype Option<+T> = None | Some(value: T)

  /** What an awaited network call produced: the decoded response body, or a
      rejected promise (connection failure, non-2xx status). */
  datatype Reply<+T> = Delivered(body: T) | Failed
}
