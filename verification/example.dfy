/** The dispatcher: its state and one pure step function per public entry
    point. Every step takes the transport's outcome as a parameter and
    returns the next state, the transport actions it performed, and the
    caller's result. */
module Example {
  import opened Types
  import opened Wire

  /** The example values: two number/flag slots and one string both slots
      write. */
  datatype Store = Store(no0: u16, no1: u16, str: string, bool0: bool, bool1: bool)

  /** The dispatcher's state. The transport connections are not part of it:
      their behaviour reaches each step as a parameter. */
  datatype Dispatcher = Dispatcher(lastError: ExampleError, lastCommand: InputEnum, store: Store)

  /** What one entry point produces. */
  datatype Step<T> = Step(next: Dispatcher, wire: seq<WireOp>, result: ExampleResult<T>)

  /** The number held by a concrete slot. */
  function No(s: Store, slot: ExampleEnum): u16
    requires slot != All
  {
    if slot == Zero then s.no0 else s.no1
  }

  /** The flag held by a concrete slot. */
  function Flag(s: Store, slot: ExampleEnum): bool
    requires slot != All
  {
    if slot == Zero then s.bool0 else s.bool1
  }

  /** Construction. Opening the bus cannot fail; opening the stream can, and
      its error (already converted to the dispatcher's taxonomy) is passed
      through. A new dispatcher holds zeros, an empty string, false flags,
      no error and no command. */
  function New(uartOpen: ExampleResult<()>): (r: ExampleResult<Dispatcher>)
    ensures r.Err? <==> uartOpen.Err?
    ensures r.Err? ==> r.error == uartOpen.error
    ensures r.Ok? ==> r.value.lastCommand == InputEnum.None && r.value.lastError == ExampleError.None
    ensures r.Ok? ==> forall slot :: slot != All ==> No(r.value.store, slot) == 0 && !Flag(r.value.store, slot)
    ensures r.Ok? ==> r.value.store.str == ""
  {
    match uartOpen
    case Err(e) => Err(e)
    case Ok(_) =>
      Ok(Dispatcher(ExampleError.None, InputEnum.None, Store(0, 0, "", false, false)))
  }

  /** Reads the selected slot, or both slots in slot order, together with the
      shared string. Only the recorded command changes. */
  function GetValues(d: Dispatcher, g: ExampleEnum): (r: Step<ExampleOutput>)
    ensures r.next == d.(lastCommand := InputEnum.GetValues(g))
    ensures r.wire == []
    ensures r.result.Ok?
    ensures r.result.value.outStr == d.store.str
    ensures g != All ==> r.result.value.outNo == [No(d.store, g)] && r.result.value.outBool == [Flag(d.store, g)]
    ensures g == All ==> r.result.value.outNo == [No(d.store, Zero), No(d.store, One)]
    ensures g == All ==> r.result.value.outBool == [Flag(d.store, Zero), Flag(d.store, One)]
  {
    var d' := d.(lastCommand := InputEnum.GetValues(g));
    match g
    case Zero => Step(d', [], Ok(ExampleOutput([d.store.no0], d.store.str, [d.store.bool0])))
    case One => Step(d', [], Ok(ExampleOutput([d.store.no1], d.store.str, [d.store.bool1])))
    case All => GetAllValues(d')
  }

  /** Reads both slots, slot 0 first; touches nothing, not even the recorded
      command. */
  function GetAllValues(d: Dispatcher): (r: Step<ExampleOutput>)
    ensures r.next == d && r.wire == []
    ensures r.result.Ok?
    ensures |r.result.value.outNo| == 2 && |r.result.value.outBool| == 2
    ensures forall slot :: slot != All ==>
      var k := if slot == Zero then 0 else 1;
      r.result.value.outNo[k] == No(d.store, slot) && r.result.value.outBool[k] == Flag(d.store, slot)
    ensures r.result.value.outStr == d.store.str
  {
    Step(d, [], Ok(ExampleOutput([d.store.no0, d.store.no1], d.store.str, [d.store.bool0, d.store.bool1])))
  }

  /** Writes a concrete slot's number and flag and the shared string; a write
      to `All` is refused with `SetErr` and changes no value. The command is
      recorded either way. */
  function SetValues(d: Dispatcher, s: ExampleInput, e: ExampleEnum): (r: Step<()>)
    ensures r.next.lastCommand == InputEnum.SetValues(s, e)
    ensures r.next.lastError == d.lastError
    ensures r.wire == []
    ensures r.result.Err? <==> e == All
    ensures r.result.Err? ==> r.result.error == SetErr && r.next.store == d.store
    ensures e != All ==> No(r.next.store, e) == s.inNo && Flag(r.next.store, e) == s.inBool
    ensures e != All ==> r.next.store.str == s.inStr
    ensures forall other :: other != All && other != e ==>
      No(r.next.store, other) == No(d.store, other) && Flag(r.next.store, other) == Flag(d.store, other)
  {
    match e
    case Zero =>
      var st := d.store.(no0 := s.inNo, str := s.inStr, bool0 := s.inBool);
      Step(d.(store := st, lastCommand := InputEnum.SetValues(s, e)), [], Ok(()))
    case One =>
      var st := d.store.(no1 := s.inNo, str := s.inStr, bool1 := s.inBool);
      Step(d.(store := st, lastCommand := InputEnum.SetValues(s, e)), [], Ok(()))
    case All =>
      Step(d.(lastCommand := InputEnum.SetValues(s, e)), [], Err(SetErr))
  }

  /** One bus transfer of the GET opcode with no payload and a one-byte
      reply. The reply is handed back as is; a failure keeps only the
      driver's classification. */
  function GetI2c(d: Dispatcher, transfer: Result<seq<u8>, I2cFault>): (r: Step<seq<u8>>)
    ensures r.next == d.(lastCommand := InputEnum.GetI2c)
    ensures r.wire == [I2cTransfer(I2C_GET, [], I2C_RX_LEN, I2C_DELAY_MS)]
    ensures DecodeFrame(r.wire[0]) == Recognized(r.next.lastCommand)
    ensures r.result.Ok? <==> transfer.Ok?
    ensures transfer.Ok? ==> r.result.value == transfer.value
    ensures transfer.Err? ==> r.result.error == I2CError(transfer.error.kind)
  {
    var frame := I2cTransfer(I2C_GET, [], I2C_RX_LEN, I2C_DELAY_MS);
    var d' := d.(lastCommand := InputEnum.GetI2c);
    match transfer
    case Ok(x) => Step(d', [frame], Ok(x))
    case Err(e) => Step(d', [frame], Err(I2CError(e.kind)))
  }

  /** One bus transfer of the SET opcode with the value as its one-byte
      payload. It succeeds exactly when the peripheral echoes the SET opcode
      back; any other first byte is an acknowledgement mismatch, distinct from
      a transport failure. The reply must not be empty (the source indexes
      its first byte unchecked). */
  function SetI2c(d: Dispatcher, i: u8, transfer: Result<seq<u8>, I2cFault>): (r: Step<()>)
    requires transfer.Ok? ==> |transfer.value| > 0
    ensures r.next == d.(lastCommand := InputEnum.SetI2c(i))
    ensures r.wire == [I2cTransfer(I2C_SET, [i], I2C_RX_LEN, I2C_DELAY_MS)]
    ensures DecodeFrame(r.wire[0]) == Recognized(r.next.lastCommand)
    ensures r.result.Ok? <==> transfer.Ok? && transfer.value[0] == r.wire[0].cmd
    ensures transfer.Ok? && transfer.value[0] != I2C_SET ==> r.result == Err(I2CSet)
    ensures transfer.Err? ==> r.result == Err(I2CError(transfer.error.kind))
  {
    var cmd := I2C_SET;
    var frame := I2cTransfer(cmd, [i], I2C_RX_LEN, I2C_DELAY_MS);
    var d' := d.(lastCommand := InputEnum.SetI2c(i));
    match transfer
    case Ok(x) => Step(d', [frame], if x[0] == cmd then Ok(()) else Err(I2CSet))
    case Err(e) => Step(d', [frame], Err(I2CError(e.kind)))
  }

  /** Writes the one-byte GET frame; only if that write succeeds, pauses and
      reads one byte. A write failure is a `UARTError` and nothing is read;
      the read's outcome, error included, is the caller's result. */
  function GetUart(d: Dispatcher, write: Result<(), UartFault>, read: ExampleResult<seq<u8>>): (r: Step<seq<u8>>)
    ensures r.next == d.(lastCommand := InputEnum.GetUart)
    ensures |r.wire| > 0 && r.wire[0] == UartWrite([UART_GET])
    ensures DecodeFrame(r.wire[0]) == Recognized(r.next.lastCommand)
    ensures (exists k :: 0 <= k < |r.wire| && r.wire[k].UartRead?) <==> write.Ok?
    ensures write.Ok? ==> r.wire[1..] == [Sleep(UART_SETTLE_MS), UartRead(UART_READ_LEN, UART_READ_TIMEOUT_MS)]
    ensures write.Ok? ==> r.result == read
    ensures write.Err? ==> r.wire == [UartWrite([UART_GET])]
    ensures write.Err? ==> r.result == Err(UARTError(write.error))
  {
    var frame := UartWrite([UART_GET]);
    var d' := d.(lastCommand := InputEnum.GetUart);
    match write
    case Ok(_) =>
      var wire := [frame, Sleep(UART_SETTLE_MS), UartRead(UART_READ_LEN, UART_READ_TIMEOUT_MS)];
      assert wire[2].UartRead?;
      Step(d', wire, read)
    case Err(e) => Step(d', [frame], Err(UARTError(e)))
  }

  /** Writes the two-byte SET frame and never reads: the protocol has no
      acknowledgement for it. */
  function SetUart(d: Dispatcher, input: u8, write: Result<(), UartFault>): (r: Step<()>)
    ensures r.next == d.(lastCommand := InputEnum.SetUart(input))
    ensures r.wire == [UartWrite([UART_SET, input])]
    ensures DecodeFrame(r.wire[0]) == Recognized(r.next.lastCommand)
    ensures r.result.Ok? <==> write.Ok?
    ensures write.Err? ==> r.result.error == UARTError(write.error)
  {
    var frame := UartWrite([UART_SET, input]);
    var d' := d.(lastCommand := InputEnum.SetUart(input));
    match write
    case Ok(_) => Step(d', [frame], Ok(()))
    case Err(e) => Step(d', [frame], Err(UARTError(e)))
  }

  /** Per-slot round trip: after a successful set of a concrete slot, a get of
      that slot returns exactly the input's number, string and flag. */
  lemma SetThenGet(d: Dispatcher, s: ExampleInput, slot: ExampleEnum)
    requires slot != All
    ensures SetValues(d, s, slot).result.Ok?
    ensures GetValues(SetValues(d, s, slot).next, slot).result
      == Ok(ExampleOutput([s.inNo], s.inStr, [s.inBool]))
  {
  }

  /** A set of one concrete slot is invisible in a get of the other slot,
      except through the shared string. */
  lemma SetLeavesOtherSlot(d: Dispatcher, s: ExampleInput, slot: ExampleEnum, other: ExampleEnum)
    requires slot != All && other != All && other != slot
    ensures GetValues(SetValues(d, s, slot).next, other).result
      == Ok(ExampleOutput(GetValues(d, other).result.value.outNo, s.inStr, GetValues(d, other).result.value.outBool))
  {
  }

  /** A set of `All` is refused and every get afterwards sees what it saw
      before. */
  lemma SetAllRejected(d: Dispatcher, s: ExampleInput, g: ExampleEnum)
    ensures SetValues(d, s, All).result == Err(SetErr)
    ensures GetValues(SetValues(d, s, All).next, g).result == GetValues(d, g).result
  {
  }

  /** A get of `All` is the get of slot 0 followed by the get of slot 1. */
  lemma GetAllConcatenatesSlots(d: Dispatcher)
    ensures GetValues(d, All).result.value.outNo
      == GetValues(d, Zero).result.value.outNo + GetValues(d, One).result.value.outNo
    ensures GetValues(d, All).result.value.outBool
      == GetValues(d, Zero).result.value.outBool + GetValues(d, One).result.value.outBool
    ensures GetValues(d, All).result.value.outStr == GetValues(d, Zero).result.value.outStr
  {
  }

  /** Writes to the two slots commute in everything but the shared string,
      which the later write decides. */
  lemma SetsCommute(d: Dispatcher, s0: ExampleInput, s1: ExampleInput)
    ensures var a := SetValues(SetValues(d, s0, Zero).next, s1, One).next.store;
            var b := SetValues(SetValues(d, s1, One).next, s0, Zero).next.store;
            a.(str := "") == b.(str := "") && a.str == s1.inStr && b.str == s0.inStr
  {
  }
}
