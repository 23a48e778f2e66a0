/** The two wire protocols: the opcodes, the fixed timing values, the
    transport actions a command performs, and how the peripheral reads a
    request frame back as a command. */
module Wire {
  import opened Types

  const I2C_GET: u8 := 0x01
  const I2C_SET: u8 := 0x10
  const UART_GET: u8 := 0x02
  const UART_SET: u8 := 0x20

  /** Reply length requested from every bus transfer. */
  const I2C_RX_LEN: nat := 1
  /** The `delay` argument handed to every bus transfer, in milliseconds. */
  const I2C_DELAY_MS: nat := 50
  /** Pause between the stream write and the stream read of a get, in milliseconds. */
  const UART_SETTLE_MS: nat := 10
  /** Bytes read back by a stream get. */
  const UART_READ_LEN: nat := 1
  /** Timeout of the stream read, in milliseconds. */
  const UART_READ_TIMEOUT_MS: nat := 1

  /** One action the dispatcher performs on a transport. Durations are
      recorded as values; the model gives them no timing semantics. */
  datatype WireOp =
    | I2cTransfer(cmd: u8, data: seq<u8>, rxLen: nat, delayMs: nat)
    | UartWrite(bytes: seq<u8>)
    | Sleep(ms: nat)
    | UartRead(len: nat, timeoutMs: nat)

  datatype Decoded = Recognized(command: InputEnum) | Unrecognized

  /** The peripheral's view of a request: which command a frame asks for.
      A bus frame is its opcode and payload; a stream frame is the bytes
      written. Sleeps and reads are not requests. */
  function DecodeFrame(w: WireOp): (d: Decoded)
    ensures d.Recognized? ==> d.command.IsTransport()
    ensures d.Recognized? ==> (d.command.GetI2c? || d.command.SetI2c? <==> w.I2cTransfer?)
    ensures !w.I2cTransfer? && !w.UartWrite? ==> d == Unrecognized
  {
    match w
    case I2cTransfer(cmd, data, _, _) =>
      if cmd == I2C_GET && data == [] then Recognized(InputEnum.GetI2c)
      else if cmd == I2C_SET && |data| == 1 then Recognized(InputEnum.SetI2c(data[0]))
      else Unrecognized
    case UartWrite(bytes) =>
      if bytes == [UART_GET] then Recognized(InputEnum.GetUart)
      else if |bytes| == 2 && bytes[0] == UART_SET then Recognized(InputEnum.SetUart(bytes[1]))
      else Unrecognized
    case Sleep(_) => Unrecognized
    case UartRead(_, _) => Unrecognized
  }

  /** Two request frames the peripheral reads as the same command carry the
      same opcode and payload: the framing loses nothing. This is the
      peripheral-side direction (same command, same frame); the
      dispatcher-side direction (same frame, same command) is
      `Session.FramesIdentifyCommands`. */
  lemma DecodeFrameInjective(w1: WireOp, w2: WireOp)
    requires DecodeFrame(w1).Recognized?
    requires DecodeFrame(w1) == DecodeFrame(w2)
    ensures w1.I2cTransfer? <==> w2.I2cTransfer?
    ensures w1.I2cTransfer? ==> w1.cmd == w2.cmd && w1.data == w2.data
    ensures w1.UartWrite? ==> w1.bytes == w2.bytes
  {
  }
}
