# Payload command dispatcher — Dafny model

This project models `ExampleStruct` from `src/example.rs`: a dispatcher that
offers one get/set interface over two hardware transports and a small value
store. It covers the following:

- the **value store**: two slots, each with a `u16` number and a `bool` flag,
  plus one string that both slots write (`get_values`, `get_all_values`,
  `set_values`);
- the **bus (I2C) path**: `get_i2c` and `set_i2c` each make one transfer with
  opcode `0x01` or `0x10`, a 1-byte reply and the 50 ms `delay` argument of the transfer, and `set_i2c`
  checks the acknowledgement;
- the **stream (UART) path**: `get_uart` writes `[0x02]`, pauses 10 ms and
  reads one byte with a 1 ms timeout; `set_uart` writes `[0x20, v]` and reads
  nothing;
- the **diagnostics**: every entry point sets `last_command` to the command it
  attempted, whether it succeeds or not.

Every entry point is a pure function. It takes the dispatcher state and the
transport's outcome (the reply bytes or a fault) and returns a `Step`, which
holds three things:

- the next state;
- the transport actions performed, in order (`Wire.WireOp`);
- the caller's result.

`Wire.DecodeFrame` is the peripheral's side of the protocol. It reads a
request frame back as the command that sent it. The contracts use it as the
partner of the framing: the frame each transport command sends decodes to the
command it records in `last_command`.

Modules:

- `Types`: the selector, the payloads, the error taxonomy and the command
  enumeration.
- `Wire`: the opcodes, the timing values, the wire actions and the frame
  decoder.
- `Example`: the state and one function per entry point.
- `Session`: dispatch of any command, and runs of command sequences.

The module that defines `ExampleEnum`, `ExampleInput`, `ExampleOutput` and
`ExampleError` (imported through `super::*`) is not part of this model. Their
shapes are taken from how `src/example.rs` uses them.

Three behaviours of the code that the model keeps as written:

- `last_error` is set to `None` at construction (`src/example.rs:74`) and no
  entry point writes it again. `Session.RunKeepsLastError` proves the model
  keeps it unchanged.
- `set_i2c` compares only the reply's first byte `x[0]` with the SET opcode
  (`src/example.rs:171`). The reply's length is not checked, so a longer reply
  that starts with `0x10` succeeds.
- A failed `get_uart` read leaves through `?` (`src/example.rs:241`), using a
  conversion to the dispatcher's error type that is not part of this model.
  The model returns whatever error the read reports.

The main results are two inductive lemmas about sequences of calls,
`Session.RunSlotFollowsLastWrite` and `Session.RunStrFollowsLastWrite`. They
compare the store after any sequence of calls with an independent definition
of the last write to each slot. `Session.GetAllAfterBothSets` is a
consequence of `Session.RunSlotFollowsLastWrite` for two fixed two-call
sequences. `Session.RunRecordsLastCommand`,
`Session.RunKeepsLastError` and `Session.NeverRecordsError` carry the
one-step facts of `Session.Dispatch` along a sequence of calls.

## Model

| member | source | states |
|---|---|---|
| Example.New | src/example.rs:61-83 | construction fails exactly when opening the stream fails, with that error; otherwise both slots hold 0 and false, the string is empty, and no command or error is recorded |
| Example.GetValues | src/example.rs:87-102 | always succeeds; a single slot yields one-element sequences of that slot's number and flag; `All` yields slot 0 then slot 1; the string is the shared one; only `last_command` changes, to `GetValues(g)` |
| Example.GetAllValues | src/example.rs:104-110 | gives two-element sequences whose position 0 is slot 0 and position 1 is slot 1, plus the shared string; changes nothing, not even `last_command` |
| Example.SetValues | src/example.rs:112-133 | fails with `SetErr` exactly when the target is `All`, and then changes no value; otherwise writes the target's number, the target's flag and the shared string, and leaves the other slot as it was; records `SetValues(s, e)` on both paths |
| Example.GetI2c | src/example.rs:143-157 | sends exactly one transfer: opcode 0x01, empty payload, 1-byte reply, 50 ms; returns the reply unchanged, or `I2CError` carrying only the fault's kind; the frame decodes to the recorded command |
| Example.SetI2c | src/example.rs:158-179 | sends exactly one transfer: opcode 0x10, payload `[i]`, 1-byte reply, 50 ms; succeeds exactly when the reply's first byte echoes the opcode sent; any other first byte gives `I2CSet`; a transport fault gives `I2CError(kind)` |
| Example.GetUart | src/example.rs:230-245 | first writes `[0x02]`; there is a read on the wire exactly when that write succeeds, and then the 10 ms pause and a 1-byte, 1 ms read follow and the read's outcome is the result; a failed write is the only action performed and gives `UARTError` |
| Example.SetUart | src/example.rs:249-257 | writes exactly `[0x20, v]` and performs nothing else; succeeds exactly when the write does, else `UARTError` with the write's error |
| Wire.DecodeFrame | src/example.rs:15-18 | only bus transfers and stream writes are read as requests, and only as transport commands; bus frames are read as bus commands and stream frames as stream commands |
| Wire.DecodeFrameInjective | src/example.rs:15-18 | two frames read as the same command have the same opcode and payload |
| Example.SetThenGet | src/example.rs:87-127 | after a set of slot 0 or slot 1, a get of that slot returns the input's number, string and flag |
| Example.SetLeavesOtherSlot | src/example.rs:112-127 | after a set of one slot, a get of the other slot returns its old number and flag and the new string |
| Example.SetAllRejected | src/example.rs:128-131 | a set of `All` fails with `SetErr`, and every get afterwards returns what it returned before |
| Example.GetAllConcatenatesSlots | src/example.rs:87-110 | a get of `All` returns the get of slot 0 followed by the get of slot 1, with the same string |
| Example.SetsCommute | src/example.rs:112-127 | sets of the two slots give the same numbers and flags in either order; the string comes from whichever set ran last |
| Session.Dispatch | src/example.rs:87-257 | for every command: `last_command` becomes that command; `last_error` is unchanged; only a set of values touches the store; the wire is used exactly when the command is a transport command, and its first frame decodes to that command |
| Session.RunRecordsLastCommand | src/example.rs:88-250 | after any non-empty sequence of calls, succeeding or failing, `last_command` is the last call's command |
| Session.RunKeepsLastError | src/example.rs:48-83 | no sequence of calls changes `last_error` |
| Session.NeverRecordsError | src/example.rs:74 | from a freshly constructed dispatcher, `last_error` stays `None` after any sequence of calls |
| Session.RunSlotFollowsLastWrite | src/example.rs:112-127 | after any sequence of calls, a slot's number and flag come from the last call that wrote that slot, or are unchanged if no call did |
| Session.RunStrFollowsLastWrite | src/example.rs:112-127 | after any sequence of calls, the shared string comes from the last successful set of either slot, or is unchanged if there was none |
| Session.GetAllAfterBothSets | src/example.rs:104-127 | after setting slot 0 to `p0` and slot 1 to `p1`, in either order, a get of `All` returns `[p0.inNo, p1.inNo]` and `[p0.inBool, p1.inBool]` |
| Session.FramesIdentifyCommands | src/example.rs:143-257 | two transport calls that send the same first frame are the same command |

## Left out

- Transport drivers: the I2C `transfer` and the UART `write` and `read` are foreign calls. Each call takes their outcome as a parameter: reply bytes or a fault.
- Timing: the 50 ms `delay` argument of the bus transfer, the 10 ms pause and the 1 ms read timeout are recorded as values in the wire actions. They have no timing semantics; `thread::sleep` is an action, not a delay.
- Construction inputs: the device paths, the bus address and the serial port settings are not modelled. `Example.New` takes only the outcome of opening the stream.
- Example.SetI2c: an empty reply makes the source panic when it indexes byte 0. The model requires a non-empty reply on success instead of modelling the panic.
- Example.GetUart: the conversion of a read error into the dispatcher's error type is not shown. The model passes an already-converted error through unchanged, so it does not promise that this error is `UARTError`.
- The unused `buffer` field, the commented-out SPI connection, the commented-out `i2c_write` and `i2c_read`, and the serde derives do not change behaviour.
- Integer widths: `u8` and `u16` are subset types. No operation does arithmetic on them, so nothing can wrap around.
