/** Value types the dispatcher exchanges with its callers: the selector, the
    input and output payloads, the error taxonomy and the command record kept
    for diagnostics. */
module Types {

  /** Rust `u8`. */
  type u8 = x: int | 0 <= x < 0x100

  /** Rust `u16`. */
  type u16 = x: int | 0 <= x < 0x1_0000

  /** Rust's `Result`: a success value or an error value. */
  datatype Result<+T, +E> = Ok(value: T) | Err(error: E)

  /** Selects one of the two value slots, or both of them. */
  datatype ExampleEnum = Zero | One | All

  /** Caller-supplied data for a set: a number, a string and a flag. */
  datatype ExampleInput = ExampleInput(inNo: u16, inStr: string, inBool: bool)

  /** Result of a get: the numbers and flags of the selected slots, in slot
      order, and the shared string. */
  datatype ExampleOutput = ExampleOutput(outNo: seq<u16>, outStr: string, outBool: seq<bool>)

  /** The classification a bus driver attaches to a failed transfer. Which
      classifications exist is the driver's business, so it stays abstract. */
  datatype ErrorKind = ErrorKind(code: nat)

  /** A failed bus transfer: its classification and the driver's own text. */
  datatype I2cFault = I2cFault(kind: ErrorKind, detail: string)

  /** A failed write on the byte stream, as the stream driver reports it. */
  datatype UartFault = UartFault(detail: string)

  /** The dispatcher's error taxonomy. A bus failure keeps only its
      classification; a stream write failure keeps the driver's error. */
  datatype ExampleError =
    | None
    | SetErr
    | I2CError(kind: ErrorKind)
    | I2CSet
    | UARTError(cause: UartFault)

  type ExampleResult<T> = Result<T, ExampleError>

  /** A command as recorded in the diagnostics: one variant per public entry
      point, carrying that entry point's arguments, plus `None` before any
      command was attempted. */
  datatype InputEnum =
    | None
    | GetValues(sel: ExampleEnum)
    | SetValues(input: ExampleInput, target: ExampleEnum)
    | GetI2c
    | SetI2c(i2cValue: u8)
    | GetUart
    | SetUart(uartValue: u8)
  {
    /** True for the commands that talk to the peripheral over a transport. */
    predicate IsTransport() {
      GetI2c? || SetI2c? || GetUart? || SetUart?
    }
  }
}
