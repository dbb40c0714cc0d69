/** Option and error outcomes shared by the simulation modules. */
module Common {

  datatype Option<T> = None | Some(value: T)

  /** The two exceptions the core throws. */
  datatype Failure =
    | PositionOccupied      // IllegalArgumentException("position occupied") from tryAddEntity
    | UnsupportedOperation  // UnsupportedOperationException from a dispatch on the wrong kind

  datatype Result<T> = Ok(value: T) | Err(error: Failure)
}
