/** The error values of the repository layer and the two wrappers its
    operations return: `Option` for the url crate's optional answers and
    `Result` for the crate's own `anyhow`-style results. */
module Errors {

  datatype Option<T> = None | Some(value: T)

  /** `UrlParseError` of the repository layer, plus one catch-all for every
      failure reported by the HTTP transport (network error, non-2xx status,
      undecodable body). */
  datatype Error =
    | InvalidHost
    | Unspecified
    | UnspecifiedOwner
    | UnspecifiedRepository
    | Remote(reason: string)

  datatype Result<T> = Ok(value: T) | Err(error: Error)
}
