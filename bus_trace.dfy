/**
 * The externally visible effects of the Board, as an ordered trace of
 * events, and the rules a well-behaved trace obeys: SPI transactions never
 * nest, every byte exchange lies inside a transaction, and every transfer
 * is bracketed by selecting and then releasing the chip-select line.
 */
module BusTrace {
  import opened Types

  /** The clock, bit order and data mode an SPI transaction opens with. */
  datatype SpiSettings = SpiSettings(clock: uint32, bitOrder: uint8, dataMode: uint8)

  /** One call from the Board into the platform runtime, in program order. */
  datatype Event =
    | PinMode(pin: uint8, mode: uint8)                    // pinMode
    | PinWrite(pin: uint8, level: uint8)                  // digitalWrite
    | BusBegin                                            // SPI.begin
    | BusEnd                                              // SPI.end
    | BusBitOrder(order: uint8)                           // SPI.setBitOrder
    | BusDataMode(mode: uint8)                            // SPI.setDataMode
    | BusFrequency(clock: uint32)                         // SPI.setFrequency
    | BeginTx(settings: SpiSettings)                      // SPI.beginTransaction
    | Exchange(sent: seq<uint8>, received: seq<uint8>)    // one full-duplex transfer call
    | EndTx                                               // SPI.endTransaction
    | IrqAttach(pin: uint8, edge: int)                    // platform attachInterrupt
    | IrqDetach(pin: uint8)                               // platform detachInterrupt

  /** The chip-select level that selects the slave: LOW for an active-low
      setting, HIGH for every other stored value. */
  function SelectLevel(active: uint8): (level: uint8)
    ensures level == LOW || level == HIGH
    ensures active == LOW || active == HIGH ==> level == active
  {
    if active == LOW then LOW else HIGH
  }

  /** The resting chip-select level: the opposite of the select level. */
  function IdleLevel(active: uint8): (level: uint8)
    ensures level == LOW || level == HIGH
    ensures level != SelectLevel(active)
  {
    if active == LOW then HIGH else LOW
  }

  // ---------------------------------------------------------------------
  // Transaction discipline

  /** Where the bus stands: no transaction, inside one, or the trace has
      broken the discipline (nested begin, stray end, exchange or bus
      reconfiguration outside/inside the wrong phase). */
  datatype Phase = Idle | Open | Fault

  /** Events that only make sense while no transaction is open. */
  predicate Configures(e: Event) {
    e.BusBegin? || e.BusEnd? || e.BusBitOrder? || e.BusDataMode? || e.BusFrequency?
  }

  function Step(p: Phase, e: Event): Phase {
    match e
    case BeginTx(_) => if p == Idle then Open else Fault
    case EndTx => if p == Open then Idle else Fault
    case Exchange(_, _) => if p == Open then Open else Fault
    case _ => if Configures(e) && p == Open then Fault else p
  }

  /** The phase after replaying trace `t` from phase `p`. */
  function Run(p: Phase, t: seq<Event>): Phase
    decreases |t|
  {
    if t == [] then p else Run(Step(p, t[0]), t[1..])
  }

  /** Replaying a concatenation is replaying its parts in turn. */
  lemma {:induction false} RunAppend(p: Phase, t: seq<Event>, u: seq<Event>)
    ensures Run(p, t + u) == Run(Run(p, t), u)
    decreases |t|
  {
    if t == [] {
      assert t + u == u;
    } else {
      assert (t + u)[0] == t[0];
      assert (t + u)[1..] == t[1..] + u;
      RunAppend(Step(p, t[0]), t[1..], u);
    }
  }

  /** Once broken, the discipline stays broken. */
  lemma {:induction false} FaultIsFinal(t: seq<Event>)
    ensures Run(Fault, t) == Fault
    decreases |t|
  {
    if t != [] {
      FaultIsFinal(t[1..]);
    }
  }

  /** Any event that is not part of a transaction keeps an idle bus idle. */
  lemma OutsideTxKeepsIdle(t: seq<Event>, e: Event)
    requires Run(Idle, t) == Idle
    requires !e.BeginTx? && !e.EndTx? && !e.Exchange?
    ensures Run(Idle, t + [e]) == Idle
  {
    RunAppend(Idle, t, [e]);
    assert Run(Idle, [e]) == Step(Idle, e);
  }

  // ---------------------------------------------------------------------
  // The transfer bracket

  /** What one SPI transfer call emits: select, open a transaction with the
      stored settings, exchange the bytes in a single call, close, release. */
  function Frame(cs: uint8, active: uint8, settings: SpiSettings,
                 sent: seq<uint8>, received: seq<uint8>): (f: seq<Event>)
    ensures |f| == 5
    ensures f[0].PinWrite? && f[4].PinWrite? && f[0].pin == cs && f[4].pin == cs
    ensures f[0].level != f[4].level
    ensures f[1] == BeginTx(settings) && f[2] == Exchange(sent, received) && f[3] == EndTx
  {
    [PinWrite(cs, SelectLevel(active)), BeginTx(settings), Exchange(sent, received),
     EndTx, PinWrite(cs, IdleLevel(active))]
  }

  /** A transfer bracket starts and ends with the bus idle and never breaks
      the discipline, whatever came before it. */
  lemma FrameKeepsIdle(t: seq<Event>, cs: uint8, active: uint8, settings: SpiSettings,
                       sent: seq<uint8>, received: seq<uint8>)
    requires Run(Idle, t) == Idle
    ensures Run(Idle, t + Frame(cs, active, settings, sent, received)) == Idle
  {
    RunAppend(Idle, t, Frame(cs, active, settings, sent, received));
    FrameIsBalanced(cs, active, settings, sent, received);
  }

  /** A bracket is balanced: from an idle bus it ends idle, and it cannot
      be nested inside a transaction that is already open. */
  lemma FrameIsBalanced(cs: uint8, active: uint8, settings: SpiSettings,
                        sent: seq<uint8>, received: seq<uint8>)
    ensures Run(Idle, Frame(cs, active, settings, sent, received)) == Idle
    ensures Run(Open, Frame(cs, active, settings, sent, received)) == Fault
  {
    var f := Frame(cs, active, settings, sent, received);
    RunFive(Idle, f);
    RunFive(Open, f);
  }

  /** Replaying a five-event trace is five steps. */
  lemma RunFive(p: Phase, f: seq<Event>)
    requires |f| == 5
    ensures Run(p, f) == Step(Step(Step(Step(Step(p, f[0]), f[1]), f[2]), f[3]), f[4])
  {
    var p1 := Step(p, f[0]);
    var p2 := Step(p1, f[1]);
    var p3 := Step(p2, f[2]);
    var p4 := Step(p3, f[3]);
    assert Run(p, f) == Run(p1, f[1..]);
    assert Run(p1, f[1..]) == Run(p2, f[2..]);
    assert Run(p2, f[2..]) == Run(p3, f[3..]);
    assert Run(p3, f[3..]) == Run(p4, f[4..]);
    assert Run(p4, f[4..]) == Run(Step(p4, f[4]), f[5..]);
  }

  /** A bracket started while a transaction is already open breaks the
      discipline for good: whatever follows, the trace stays faulted. */
  lemma NestedFrameFaultsForever(t: seq<Event>, cs: uint8, active: uint8, settings: SpiSettings,
                                 sent: seq<uint8>, received: seq<uint8>, u: seq<Event>)
    requires Run(Idle, t) == Open
    ensures Run(Idle, t + Frame(cs, active, settings, sent, received) + u) == Fault
  {
    var f := Frame(cs, active, settings, sent, received);
    RunAppend(Idle, t + f, u);
    RunAppend(Idle, t, f);
    FrameIsBalanced(cs, active, settings, sent, received);
    FaultIsFinal(u);
  }

  // ---------------------------------------------------------------------
  // Pin levels

  /** Whether `e` drives `pin`. */
  predicate Writes(e: Event, pin: uint8) {
    e.PinWrite? && e.pin == pin
  }

  /** The level most recently written to `pin` in `t`, if any. */
  function LastLevel(t: seq<Event>, pin: uint8): (r: Option<uint8>)
    decreases |t|
  {
    if t == [] then None
    else if Writes(t[|t| - 1], pin) then Some(t[|t| - 1].level)
    else LastLevel(t[..|t| - 1], pin)
  }

  /** LastLevel reports a write that `t` really contains, and reports
      nothing exactly when `t` never drives the pin. */
  lemma {:induction false} LastLevelIsAWrite(t: seq<Event>, pin: uint8)
    ensures LastLevel(t, pin).None? <==> forall i :: 0 <= i < |t| ==> !Writes(t[i], pin)
    ensures LastLevel(t, pin).Some? ==> exists i :: 0 <= i < |t| && t[i] == PinWrite(pin, LastLevel(t, pin).value)
    decreases |t|
  {
    if t != [] && !Writes(t[|t| - 1], pin) {
      var v := t[..|t| - 1];
      LastLevelIsAWrite(v, pin);
      assert forall i :: 0 <= i < |v| ==> v[i] == t[i];
    }
  }

  /** The last write to a pin in `t + u` is the last one in `u`, or, when
      `u` does not touch the pin, the last one in `t`. */
  lemma {:induction false} LastLevelAppend(t: seq<Event>, u: seq<Event>, pin: uint8)
    ensures LastLevel(t + u, pin) == if LastLevel(u, pin).Some? then LastLevel(u, pin) else LastLevel(t, pin)
    decreases |u|
  {
    if u == [] {
      assert t + u == t;
    } else {
      var v := u[..|u| - 1];
      assert (t + u)[..|t + u| - 1] == t + v;
      assert (t + u)[|t + u| - 1] == u[|u| - 1];
      LastLevelAppend(t, v, pin);
    }
  }

  /** After a transfer the chip-select line rests at the idle level. */
  lemma FrameReleasesChipSelect(t: seq<Event>, cs: uint8, active: uint8, settings: SpiSettings,
                                sent: seq<uint8>, received: seq<uint8>)
    ensures LastLevel(t + Frame(cs, active, settings, sent, received), cs) == Some(IdleLevel(active))
  {
    var f := Frame(cs, active, settings, sent, received);
    assert (t + f)[|t + f| - 1] == PinWrite(cs, IdleLevel(active));
  }

  /** The exchange happens while the chip-select line is at the select
      level: the last write to `cs` before it selects the slave. */
  lemma FrameSelectsDuringExchange(t: seq<Event>, cs: uint8, active: uint8, settings: SpiSettings,
                                   sent: seq<uint8>, received: seq<uint8>)
    ensures Frame(cs, active, settings, sent, received)[2] == Exchange(sent, received)
    ensures LastLevel(t + Frame(cs, active, settings, sent, received)[..2], cs) == Some(SelectLevel(active))
  {
    var f := Frame(cs, active, settings, sent, received);
    var g := f[..2];
    assert g == [PinWrite(cs, SelectLevel(active)), BeginTx(settings)];
    LastLevelAppend(t, g, cs);
    assert g[..1] == [PinWrite(cs, SelectLevel(active))];
  }

  /** A transfer writes no pin other than the chip-select line. */
  lemma {:induction false} FrameLeavesOtherPins(t: seq<Event>, cs: uint8, active: uint8, settings: SpiSettings,
                                                sent: seq<uint8>, received: seq<uint8>, pin: uint8)
    requires pin != cs
    ensures LastLevel(t + Frame(cs, active, settings, sent, received), pin) == LastLevel(t, pin)
  {
    var f := Frame(cs, active, settings, sent, received);
    LastLevelAppend(t, f, pin);
    LastLevelIsAWrite(f, pin);
  }

  // ---------------------------------------------------------------------
  // Counting transactions and exchanges

  /** The bytes sent by each transfer call in `t`, one entry per call. */
  function Exchanges(t: seq<Event>): seq<seq<uint8>>
    decreases |t|
  {
    if t == [] then []
    else (if t[0].Exchange? then [t[0].sent] else []) + Exchanges(t[1..])
  }

  /** The number of transactions opened in `t`. */
  function Transactions(t: seq<Event>): nat
    decreases |t|
  {
    if t == [] then 0 else (if t[0].BeginTx? then 1 else 0) + Transactions(t[1..])
  }

  lemma {:induction false} CountsAppend(t: seq<Event>, u: seq<Event>)
    ensures Exchanges(t + u) == Exchanges(t) + Exchanges(u)
    ensures Transactions(t + u) == Transactions(t) + Transactions(u)
    decreases |t|
  {
    if t == [] {
      assert t + u == u;
    } else {
      assert (t + u)[0] == t[0];
      assert (t + u)[1..] == t[1..] + u;
      CountsAppend(t[1..], u);
    }
  }

  /** A transfer opens exactly one transaction and moves all its bytes in
      exactly one exchange, however many bytes there are (none included). */
  lemma FrameIsOneTransaction(t: seq<Event>, cs: uint8, active: uint8, settings: SpiSettings,
                              sent: seq<uint8>, received: seq<uint8>)
    ensures Exchanges(t + Frame(cs, active, settings, sent, received)) == Exchanges(t) + [sent]
    ensures Transactions(t + Frame(cs, active, settings, sent, received)) == Transactions(t) + 1
  {
    var f := Frame(cs, active, settings, sent, received);
    CountsAppend(t, f);
    assert Exchanges(f) == Exchanges(f[1..]);
    assert Exchanges(f[1..]) == Exchanges(f[2..]);
    assert Exchanges(f[2..]) == [sent] + Exchanges(f[3..]);
    assert Exchanges(f[3..]) == Exchanges(f[4..]);
    assert Exchanges(f[4..]) == Exchanges(f[5..]);
    assert Transactions(f) == Transactions(f[1..]);
    assert Transactions(f[1..]) == 1 + Transactions(f[2..]);
    assert Transactions(f[2..]) == Transactions(f[3..]);
    assert Transactions(f[3..]) == Transactions(f[4..]);
    assert Transactions(f[4..]) == Transactions(f[5..]);
  }
}
