/** Optional values and results: the source's `None` returns and raised exceptions. */
module Options {
  datatype Option<+T> = None | Some(value: T)

  datatype Result<+T> = Ok(value: T) | Raised(message: string)
}
