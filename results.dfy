/** A success-or-failure value for the foreign calls the core makes (shlex.Split, cobra's Find). */
module Results {
  datatype Result<T> = Ok(value: T) | Err(error: string)
}
