/** A dispatcher driven by a sequence of commands: one entry point per
    command, each with its own transport outcomes, applied in order. */
module Session {
  import opened Types
  import opened Wire
  import Example

  /** What the transports do during one call. */
  datatype Env = Env(
    i2cReply: Result<seq<u8>, I2cFault>,
    uartWrite: Result<(), UartFault>,
    uartRead: ExampleResult<seq<u8>>)

  /** One call of an entry point: the command naming it and its arguments,
      and the transports' behaviour during the call. */
  datatype Call = Call(command: InputEnum, env: Env)

  /** The success values of the different entry points. */
  datatype Reply = Values(output: ExampleOutput) | Bytes(bytes: seq<u8>) | Done

  /** A call some entry point answers: `None` names no entry point, and a
      bus set must be given a non-empty reply when its transfer succeeds. */
  predicate Callable(c: Call) {
    && !c.command.None?
    && (c.command.SetI2c? && c.env.i2cReply.Ok? ==> |c.env.i2cReply.value| > 0)
  }

  predicate AllCallable(calls: seq<Call>) {
    forall k :: 0 <= k < |calls| ==> Callable(calls[k])
  }

  /** Re-types a step's success value as a `Reply`, keeping its state, wire and error. */
  function Lift<T>(s: Example.Step<T>, f: T -> Reply): Example.Step<Reply> {
    Example.Step(s.next, s.wire, match s.result case Ok(v) => Ok(f(v)) case Err(e) => Err(e))
  }

  /** The entry point a command names, applied with that call's transports.
      Every entry point records exactly its own command, none records an
      error, only a set of values touches the store, and a command reaches
      the wire exactly when it is a transport command, as a frame the
      peripheral reads back as that same command. */
  function Dispatch(d: Example.Dispatcher, c: Call): (r: Example.Step<Reply>)
    requires Callable(c)
    ensures r.next.lastCommand == c.command
    ensures r.next.lastError == d.lastError
    ensures !c.command.SetValues? ==> r.next.store == d.store
    ensures |r.wire| > 0 <==> c.command.IsTransport()
    ensures |r.wire| > 0 ==> DecodeFrame(r.wire[0]) == Recognized(c.command)
  {
    match c.command
    case GetValues(g) => Lift(Example.GetValues(d, g), o => Values(o))
    case SetValues(s, e) => Lift(Example.SetValues(d, s, e), _ => Done)
    case GetI2c => Lift(Example.GetI2c(d, c.env.i2cReply), b => Bytes(b))
    case SetI2c(i) => Lift(Example.SetI2c(d, i, c.env.i2cReply), _ => Done)
    case GetUart => Lift(Example.GetUart(d, c.env.uartWrite, c.env.uartRead), b => Bytes(b))
    case SetUart(v) => Lift(Example.SetUart(d, v, c.env.uartWrite), _ => Done)
  }

  /** The state after applying the calls in order. */
  function Run(d: Example.Dispatcher, calls: seq<Call>): Example.Dispatcher
    requires AllCallable(calls)
    decreases |calls|
  {
    if calls == [] then d
    else
      assert AllCallable(calls[1..]) by {
        forall k | 0 <= k < |calls[1..]| ensures Callable(calls[1..][k]) {
          assert calls[1..][k] == calls[k + 1];
        }
      }
      Run(Dispatch(d, calls[0]).next, calls[1..])
  }

  /** The inputs of the calls that write one of `slots`, in call order. A set
      of `All` writes nothing. */
  function WritesTo(calls: seq<Call>, slots: set<ExampleEnum>): (w: seq<ExampleInput>)
    decreases |calls|
  {
    if calls == [] then []
    else
      var c := calls[0].command;
      var here := if c.SetValues? && c.target != All && c.target in slots then [c.input] else [];
      here + WritesTo(calls[1..], slots)
  }

  /** The last element of `s`, or `default` when `s` is empty. */
  function Last<T>(s: seq<T>, default: T): T {
    if s == [] then default else s[|s| - 1]
  }

  lemma {:induction false} LastOfAppend<T>(a: seq<T>, b: seq<T>, default: T)
    ensures Last(a + b, default) == Last(b, Last(a, default))
  {
    if b == [] {
      assert a + b == a;
    }
  }

  /** After any sequence of calls, the last command recorded is the last call's. */
  lemma {:induction false} RunRecordsLastCommand(d: Example.Dispatcher, calls: seq<Call>)
    requires AllCallable(calls) && calls != []
    ensures Run(d, calls).lastCommand == calls[|calls| - 1].command
    decreases |calls|
  {
    var d1 := Dispatch(d, calls[0]).next;
    if |calls| > 1 {
      RunRecordsLastCommand(d1, calls[1..]);
      assert calls[1..][|calls[1..]| - 1] == calls[|calls| - 1];
    }
  }

  /** No sequence of calls ever changes the recorded error. */
  lemma {:induction false} RunKeepsLastError(d: Example.Dispatcher, calls: seq<Call>)
    requires AllCallable(calls)
    ensures Run(d, calls).lastError == d.lastError
    decreases |calls|
  {
    if calls != [] {
      RunKeepsLastError(Dispatch(d, calls[0]).next, calls[1..]);
    }
  }

  /** A slot's number and flag are those of the last call that wrote that
      slot, or what they were before when no call did: the order of writes to
      the other slot, transport traffic and failed calls do not matter. */
  lemma {:induction false} RunSlotFollowsLastWrite(d: Example.Dispatcher, calls: seq<Call>, slot: ExampleEnum)
    requires AllCallable(calls) && slot != All
    ensures var before := ExampleInput(Example.No(d.store, slot), d.store.str, Example.Flag(d.store, slot));
            var last := Last(WritesTo(calls, {slot}), before);
            Example.No(Run(d, calls).store, slot) == last.inNo && Example.Flag(Run(d, calls).store, slot) == last.inBool
    decreases |calls|
  {
    if calls != [] {
      var d1 := Dispatch(d, calls[0]).next;
      RunSlotFollowsLastWrite(d1, calls[1..], slot);
      var c := calls[0].command;
      var here := if c.SetValues? && c.target != All && c.target in {slot} then [c.input] else [];
      var rest := WritesTo(calls[1..], {slot});
      assert WritesTo(calls, {slot}) == here + rest;
      var before := ExampleInput(Example.No(d.store, slot), d.store.str, Example.Flag(d.store, slot));
      var before1 := ExampleInput(Example.No(d1.store, slot), d1.store.str, Example.Flag(d1.store, slot));
      LastOfAppend(here, rest, before);
      if here == [] {
        assert Example.No(d1.store, slot) == Example.No(d.store, slot) && Example.Flag(d1.store, slot) == Example.Flag(d.store, slot);
      } else {
        assert Example.No(d1.store, slot) == c.input.inNo && Example.Flag(d1.store, slot) == c.input.inBool;
      }
      assert Last(rest, before1).inNo == Last(rest, Last(here, before)).inNo;
    }
  }

  /** The shared string is that of the last call that wrote either slot, or
      what it was before when no call did. */
  lemma {:induction false} RunStrFollowsLastWrite(d: Example.Dispatcher, calls: seq<Call>)
    requires AllCallable(calls)
    ensures Run(d, calls).store.str
      == Last(WritesTo(calls, {Zero, One}), ExampleInput(0, d.store.str, false)).inStr
    decreases |calls|
  {
    if calls != [] {
      var d1 := Dispatch(d, calls[0]).next;
      RunStrFollowsLastWrite(d1, calls[1..]);
      var c := calls[0].command;
      var here := if c.SetValues? && c.target != All && c.target in {Zero, One} then [c.input] else [];
      var rest := WritesTo(calls[1..], {Zero, One});
      assert WritesTo(calls, {Zero, One}) == here + rest;
      var dflt := ExampleInput(0, d.store.str, false);
      LastOfAppend(here, rest, dflt);
      if here == [] {
        assert d1.store.str == d.store.str;
      } else {
        assert d1.store.str == c.input.inStr;
      }
    }
  }

  /** A get of `All` after setting slot 0 to `p0` and slot 1 to `p1`, in
      either order, reports `p0` then `p1`, whatever calls came before. */
  lemma GetAllAfterBothSets(d: Example.Dispatcher, p0: ExampleInput, p1: ExampleInput, env: Env)
    ensures var set0 := Call(InputEnum.SetValues(p0, Zero), env);
            var set1 := Call(InputEnum.SetValues(p1, One), env);
            && Example.GetValues(Run(d, [set0, set1]), All).result.value.outNo == [p0.inNo, p1.inNo]
            && Example.GetValues(Run(d, [set1, set0]), All).result.value.outNo == [p0.inNo, p1.inNo]
            && Example.GetValues(Run(d, [set0, set1]), All).result.value.outBool == [p0.inBool, p1.inBool]
            && Example.GetValues(Run(d, [set1, set0]), All).result.value.outBool == [p0.inBool, p1.inBool]
  {
    var set0 := Call(InputEnum.SetValues(p0, Zero), env);
    var set1 := Call(InputEnum.SetValues(p1, One), env);
    assert [set0, set1][1..] == [set1] && [set1, set0][1..] == [set0];
    assert [set0][1..] == [] && [set1][1..] == [];
    assert WritesTo([], {Zero}) == [] && WritesTo([], {One}) == [];
    assert WritesTo([set0], {Zero}) == [p0] && WritesTo([set0], {One}) == [];
    assert WritesTo([set1], {Zero}) == [] && WritesTo([set1], {One}) == [p1];
    RunSlotFollowsLastWrite(d, [set0, set1], Zero);
    RunSlotFollowsLastWrite(d, [set0, set1], One);
    RunSlotFollowsLastWrite(d, [set1, set0], Zero);
    RunSlotFollowsLastWrite(d, [set1, set0], One);
  }

  /** Starting from a freshly constructed dispatcher, the recorded error stays
      `None` forever. */
  lemma NeverRecordsError(uartOpen: ExampleResult<()>, calls: seq<Call>)
    requires Example.New(uartOpen).Ok? && AllCallable(calls)
    ensures Run(Example.New(uartOpen).value, calls).lastError == ExampleError.None
  {
    RunKeepsLastError(Example.New(uartOpen).value, calls);
  }

  /** Two transport calls that put the same request frame on the wire are the
      same command: the dispatcher never sends one frame for two different
      commands. It is the converse of `Wire.DecodeFrameInjective`, which says
      that one command never has two different frames. */
  lemma FramesIdentifyCommands(d: Example.Dispatcher, a: Call, b: Call)
    requires Callable(a) && Callable(b) && a.command.IsTransport() && b.command.IsTransport()
    requires Dispatch(d, a).wire[0] == Dispatch(d, b).wire[0]
    ensures a.command == b.command
  {
  }
}
