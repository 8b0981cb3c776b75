/** Small datatypes shared by every component. */
module Common {

  /** A nullable column, a missing key, an absent pointer. */
  datatype Option<+T> = None | Some(value: T)

  /** A request that is refused, or a look-up in the database that failed. */
  datatype Error = BadRequest | StoreError

  datatype Result<+T> = Ok(value: T) | Err(error: Error)

  /** A member's role. `Other` is any string that is none of the three known ones. */
  datatype Role = Owner | Admin | Member | Other(name: string)
}
