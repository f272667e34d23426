/** The ways the overlay aborts: every `unwrap` in src/main.rs that the model
    can reach, and the result type that carries them. */
module Panics {

  /** The unwrap or expect that failed. */
  datatype Fault =
    | IconDecodeFailed      // load_icon, src/main.rs:15 and 21
    | WindowCreationFailed  // create_window(..).unwrap(), src/main.rs:33
    | NoWindow              // self.window.as_ref().unwrap(), src/main.rs:49 and 52
    | ZeroWidth             // NonZeroU32::new(width).unwrap(), src/main.rs:64
    | ZeroHeight            // NonZeroU32::new(height).unwrap(), src/main.rs:65

  datatype Option<T> = None | Some(value: T)

  datatype Result<T> = Ok(value: T) | Err(fault: Fault)
}
