/** Result and error types shared by the model. */
module Wrappers {

  datatype Option<+T> = None | Some(value: T)

  /** The Python exceptions that the modelled code raises or lets propagate. */
  datatype PyError =
    | TypeError        // an argument is not bytes or bytearray
    | ValueError       // payload size below the minimum
    | IndexError       // a byte string indexed past its end
    | StructError      // struct.pack value out of range, or struct.unpack buffer of the wrong size
    | TimeoutError     // no matching reply within the time budget
    | PermissionError  // raw socket creation refused
    | GaiError         // socket.gaierror: the destination name did not resolve
    | AttributeError   // a module attribute that the module does not define

  /** A value, or the exception raised instead of returning it. */
  datatype Result<+T> = Ok(value: T) | Err(error: PyError)
}
