/**
 * What one upstream HTTP call can end in. Both services make their calls the same way:
 * `http.Get`, then `io.ReadAll` of the body, then `json.Unmarshal` of the bytes, each step
 * able to fail with a Go `error` whose text is kept here as `msg`.
 */
module Upstream {

  datatype Outcome<T> =
    | TransportErr(msg: string)   // http.Get returned an error
    | ReadErr(msg: string)        // io.ReadAll of the body returned an error
    | DecodeErr(msg: string)      // json.Unmarshal returned an error
    | Ok(value: T)                // the decoded value

  /** A Go `error` value: `None` is `nil`, `Some(text)` an error whose `Error()` is `text`. */
  datatype Option<T> = None | Some(value: T)
}
