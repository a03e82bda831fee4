/** What every component uses. */
module Common {

  datatype Option<+T> = None | Some(value: T)

  datatype Result<+T, +E> = Ok(value: T) | Err(error: E)

  /** The tenant of every source that is not mapped. */
  const DEFAULT_TENANT_ID := "00000000-0000-0000-0000-000000000001"
}
