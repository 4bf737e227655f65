/** Outcomes of operations that can fail, and of look-ups that can miss. */
module Results {

  datatype Option<+T> = None | Some(value: T)

  datatype Result<+T> = Ok(value: T) | Err(reason: string)
}
