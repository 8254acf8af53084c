/** The 16550 serial port of src/devices/serial.rs as a state machine over register accesses. */
module UartModel {

  /** A register as the set of its one bits; zero is the empty set. */
  type Register = set<nat>

  const FIFO_LEN: nat := 64

  // Bit positions.
  const IER_RDI := 0
  const IER_THRI := 1
  const IIR_NO_INT := 0
  const IIR_THRI := 1
  const IIR_RDI := 2
  const FCR_CLEAR_RCVR := 1
  const FCR_CLEAR_XMIT := 2
  const LCR_DLAB := 7
  const MCR_LOOP := 4
  const MCR_OUT2 := 3
  const LSR_TEMT := 6
  const LSR_THRE := 5
  const LSR_BI := 4
  const LSR_DR := 0

  const ENABLE_BITS: Register := {0, 1, 2, 3}
  const IIR_TYPE_BITS: Register := {6, 7}
  const TX_EMPTY: Register := {LSR_TEMT, LSR_THRE}
  const MSR_RESET: Register := {7, 5, 4}

  /**
   * `unread` is rxbuf[rxdone..rxcnt] and `used` is rxcnt; `pending` is
   * txbuf[..txcnt]. `out` and `line` record what was handed to standard output
   * and to set_irq_line.
   */
  datatype State = State(
    unread: seq<Register>, used: nat, pending: seq<Register>, irqState: Register,
    dll: Register, dlm: Register, iir: Register, ier: Register, fcr: Register,
    lcr: Register, mcr: Register, lsr: Register, msr: Register, scr: Register,
    out: seq<Register>, line: seq<bool>)

  const Reset: State := State(
    [], 0, [], {}, {}, {}, {IIR_NO_INT}, {}, {}, {}, {MCR_OUT2}, TX_EMPTY, MSR_RESET, {}, [], [])

  function FlushTx(s: State): State {
    s.(lsr := s.lsr + TX_EMPTY, out := s.out + s.pending, pending := [])
  }

  // The two clear bits of the FIFO control register are looked up, as in the
  // code, in the line control register.

  function ClearReceiver(s: State): State {
    if FCR_CLEAR_RCVR in s.lcr
    then s.(lcr := s.lcr - {FCR_CLEAR_RCVR}, unread := [], used := 0, lsr := s.lsr - {LSR_DR}) else s
  }

  function ClearTransmitter(s: State): State {
    if FCR_CLEAR_XMIT in s.lcr
    then s.(lcr := s.lcr - {FCR_CLEAR_XMIT}, pending := [], lsr := s.lsr + TX_EMPTY) else s
  }

  function ClearFifos(s: State): State {
    ClearTransmitter(ClearReceiver(s))
  }

  /** The enabled causes, as bits of the identification register. */
  function Causes(s: State): Register {
    (if IER_RDI in s.ier && LSR_DR in s.lsr then {IIR_RDI} else {}) +
    (if IER_THRI in s.ier && LSR_TEMT in s.lsr then {IIR_THRI} else {})
  }

  /** set_irq_line is called when the level changes. */
  function NextLine(line: seq<bool>, was: bool, now: bool): seq<bool> {
    if was == now then line else line + [now]
  }

  function DriveLine(s: State): State {
    var causes := Causes(s);
    s.(iir := if causes == {} then {IIR_NO_INT} else causes,
       line := NextLine(s.line, s.irqState != {}, causes != {}),
       irqState := causes)
  }

  function UpdateIrq(s: State): State {
    var t := DriveLine(ClearFifos(s));
    if IER_THRI in t.ier then t else FlushTx(t)
  }

  function Tx(s: State, data: Register): State {
    if LCR_DLAB in s.lcr then
      s.(dll := data)
    else if MCR_LOOP in s.mcr then
      if s.used < FIFO_LEN then s.(unread := s.unread + [data], used := s.used + 1, lsr := s.lsr + {LSR_DR}) else s
    else if |s.pending| < FIFO_LEN then
      var lsr := s.lsr - {LSR_TEMT};
      FlushTx(s.(pending := s.pending + [data],
                 lsr := if |s.pending| + 1 == FIFO_LEN / 2 then lsr - {LSR_THRE} else lsr))
    else
      s.(lsr := s.lsr - TX_EMPTY)
  }

  /** rx leaves the caller's zero in place when nothing is unread. */
  function Rx(s: State): (State, Register) {
    if s.unread == [] then
      (s, {})
    else if LSR_BI in s.lsr then
      (s.(lsr := s.lsr - {LSR_BI}), {})
    else if |s.unread| == 1 then
      (s.(unread := [], used := 0, lsr := s.lsr - {LSR_DR}), s.unread[0])
    else
      (s.(unread := s.unread[1..]), s.unread[0])
  }

  function WriteRegister(s: State, port: nat, data: Register): State {
    match port
    case 0 => Tx(s, data)
    case 1 => if LCR_DLAB in s.lcr then s.(ier := data * ENABLE_BITS) else s.(dlm := data)
    case 2 => s.(fcr := data)
    case 3 => s.(lcr := data)
    case 4 => s.(mcr := data)
    case 7 => s.(scr := data)
    case _ => s
  }

  function SerialOut(s: State, port: nat, data: Register): State {
    UpdateIrq(WriteRegister(s, port, data))
  }

  function ReadRegister(s: State, port: nat): (State, Register) {
    match port
    case 0 => if LCR_DLAB in s.lcr then (s, s.dll) else Rx(s)
    case 1 => (s, if LCR_DLAB in s.lcr then s.dlm else s.ier)
    case 2 => (s, s.iir * IIR_TYPE_BITS)
    case 3 => (s, s.lcr)
    case 4 => (s, s.mcr)
    case 5 => (s, s.lsr)
    case 6 => (s, s.msr)
    case 7 => (s, s.scr)
    case _ => (s, {})
  }

  function SerialIn(s: State, port: nat): (State, Register) {
    var (t, data) := ReadRegister(s, port);
    (UpdateIrq(t), data)
  }

  // ----- runs -----

  datatype Access = Out(port: nat, data: Register) | In(port: nat)

  function Step(s: State, a: Access): State {
    match a
    case Out(port, data) => SerialOut(s, port, data)
    case In(port) => SerialIn(s, port).0
  }

  function Run(es: seq<Access>): State {
    if es == [] then Reset else Step(Run(es[..|es| - 1]), es[|es| - 1])
  }

  /** Calls to set_irq_line alternate, and the first raises the line. */
  predicate Alternates(line: seq<bool>) {
    forall i :: 0 <= i < |line| ==> line[i] == (i % 2 == 0)
  }

  /** The line is high after an odd number of calls. */
  predicate High(line: seq<bool>) {
    line != [] && line[|line| - 1]
  }

  /** An interrupt is enabled and its cause holds. */
  predicate CausePending(s: State) {
    (0 in s.ier && s.unread != []) || 1 in s.ier
  }

  predicate FifoOk(s: State) {
    && |s.unread| <= s.used <= FIFO_LEN
    && (s.unread == [] ==> s.used == 0)
    && s.pending == []
  }

  predicate StatusOk(s: State) {
    s.lsr == TX_EMPTY + (if s.unread == [] then {} else {LSR_DR})
  }

  predicate ControlOk(s: State) {
    FCR_CLEAR_RCVR !in s.lcr && FCR_CLEAR_XMIT !in s.lcr
  }

  predicate LineOk(s: State) {
    && Alternates(s.line)
    && (High(s.line) <==> s.irqState != {})
    && (s.irqState != {} <==> CausePending(s))
    && s.iir == (if s.irqState == {} then {IIR_NO_INT} else s.irqState)
    && s.irqState !! IIR_TYPE_BITS
  }

  /** What holds between the register access and update_irq. */
  predicate Accessed(s: State) {
    && FifoOk(s) && StatusOk(s) && Alternates(s.line)
    && (High(s.line) <==> s.irqState != {})
  }

  predicate Invariant(s: State) {
    FifoOk(s) && StatusOk(s) && ControlOk(s) && LineOk(s)
  }

  lemma {:induction false} ClearFifosKeeps(s: State)
    requires Accessed(s)
    ensures var t := ClearFifos(s); Accessed(t) && ControlOk(t)
  {
  }

  lemma {:induction false} CausesIff(s: State)
    requires StatusOk(s)
    ensures (Causes(s) != {} <==> CausePending(s)) && Causes(s) !! IIR_TYPE_BITS
  {
  }

  lemma {:induction false} NextLineAlternates(line: seq<bool>, was: bool, now: bool)
    requires Alternates(line) && (High(line) <==> was)
    ensures Alternates(NextLine(line, was, now)) && (High(NextLine(line, was, now)) <==> now)
  {
    if was != now {
      assert line != [] ==> line[|line| - 1] == ((|line| - 1) % 2 == 0);
    }
  }

  lemma {:induction false} DriveLineKeeps(s: State)
    requires Accessed(s) && ControlOk(s)
    ensures Invariant(DriveLine(s))
  {
    CausesIff(s);
    NextLineAlternates(s.line, s.irqState != {}, Causes(s) != {});
  }

  lemma {:induction false} UpdateIrqKeeps(s: State)
    requires Accessed(s)
    ensures Invariant(UpdateIrq(s))
  {
    ClearFifosKeeps(s);
    DriveLineKeeps(ClearFifos(s));
  }

  lemma {:induction false} TxKeeps(s: State, data: Register)
    requires Accessed(s)
    ensures Accessed(Tx(s, data))
  {
  }

  lemma {:induction false} RxKeeps(s: State)
    requires Accessed(s)
    ensures Accessed(Rx(s).0)
  {
  }

  lemma {:induction false} StepKeeps(s: State, a: Access)
    requires Invariant(s)
    ensures Invariant(Step(s, a))
  {
    match a {
      case Out(port, data) =>
        TxKeeps(s, data);
        UpdateIrqKeeps(WriteRegister(s, port, data));
      case In(port) =>
        RxKeeps(s);
        UpdateIrqKeeps(ReadRegister(s, port).0);
    }
  }

  lemma {:induction false} RunKeeps(es: seq<Access>)
    ensures Invariant(Run(es))
  {
    if es != [] {
      RunKeeps(es[..|es| - 1]);
      StepKeeps(Run(es[..|es| - 1]), es[|es| - 1]);
    }
  }

  // ----- what the guest sees -----

  /**
   * Bytes the loopback accepted and the guest read since the last receiver
   * clear, bytes sent for transmission, and how many bytes were accepted since
   * the guest last had everything. A byte is accepted while that is below 64.
   */
  datatype Log = Log(accepted: seq<Register>, read: seq<Register>, sent: seq<Register>, burst: nat)

  /**
   * Only the two control registers and the byte that was read are taken from
   * the device. Bits are written out as on a 16550: 7 of the line control is the
   * divisor latch, 4 of the modem control the loopback.
   */
  function Observe(s: State, g: Log, a: Access): Log {
    match a
    case Out(0, data) =>
      if 7 in s.lcr then g
      else if 4 !in s.mcr then g.(sent := g.sent + [data])
      else if g.burst < 64 then g.(accepted := g.accepted + [data], burst := g.burst + 1)
      else g
    case Out(3, data) =>
      if 1 in data then g.(accepted := [], read := [], burst := 0) else g
    case In(0) =>
      if 7 in s.lcr || |g.read| == |g.accepted| then g
      else g.(read := g.read + [SerialIn(s, 0).1],
              burst := if |g.read| + 1 == |g.accepted| then 0 else g.burst)
    case _ => g
  }

  function RunLog(es: seq<Access>): Log {
    if es == [] then Log([], [], [], 0)
    else Observe(Run(es[..|es| - 1]), RunLog(es[..|es| - 1]), es[|es| - 1])
  }

  ghost predicate Conserved(s: State, g: Log) {
    g.accepted == g.read + s.unread && s.out == g.sent && s.used == g.burst
  }

  lemma {:induction false} UpdateIrqData(s: State)
    requires s.pending == []
    ensures var t := UpdateIrq(s);
            && t.out == s.out
            && t.unread == (if FCR_CLEAR_RCVR in s.lcr then [] else s.unread)
            && t.used == (if FCR_CLEAR_RCVR in s.lcr then 0 else s.used)
  {
    assert s.out + [] == s.out;
  }

  lemma {:induction false} TxConserves(s: State, g: Log, data: Register)
    requires FifoOk(s) && Conserved(s, g)
    ensures Conserved(Tx(s, data), Observe(s, g, Out(0, data))) && Tx(s, data).pending == [] && Tx(s, data).lcr == s.lcr
  {
    assert g.read + (s.unread + [data]) == g.read + s.unread + [data];
    assert s.out + ([] + [data]) == s.out + [data];
  }

  lemma {:induction false} UpdateConserves(s: State, g: Log)
    requires s.pending == [] && Conserved(s, g) && FCR_CLEAR_RCVR !in s.lcr
    ensures Conserved(UpdateIrq(s), g)
  {
    UpdateIrqData(s);
  }

  /** Writes to other registers move no byte; a receiver clear drops the unread ones. */
  lemma {:induction false} RegisterConserves(s: State, g: Log, port: nat, data: Register)
    requires ControlOk(s) && s.pending == [] && Conserved(s, g) && port != 0
    ensures Conserved(SerialOut(s, port, data), Observe(s, g, Out(port, data)))
  {
    var m := WriteRegister(s, port, data);
    assert m.unread == s.unread && m.used == s.used && m.out == s.out && m.pending == [];
    if FCR_CLEAR_RCVR in m.lcr {
      UpdateIrqData(m);
    } else {
      UpdateConserves(m, g);
    }
  }

  lemma {:induction false} OutConserves(s: State, g: Log, port: nat, data: Register)
    requires Invariant(s) && Conserved(s, g)
    ensures Conserved(SerialOut(s, port, data), Observe(s, g, Out(port, data)))
  {
    if port == 0 {
      TxConserves(s, g, data);
      UpdateConserves(Tx(s, data), Observe(s, g, Out(0, data)));
    } else {
      RegisterConserves(s, g, port, data);
    }
  }

  lemma {:induction false} RxConserves(s: State, g: Log)
    requires FifoOk(s) && StatusOk(s) && Conserved(s, g)
    ensures var t := Rx(s).0;
            && t.pending == [] && t.lcr == s.lcr && t.out == s.out
            && (s.unread == [] ==> t == s)
            && (s.unread != [] ==>
                  && g.accepted == g.read + [Rx(s).1] + t.unread
                  && t.used == (if |s.unread| == 1 then 0 else s.used))
  {
    if s.unread != [] {
      assert s.unread == [s.unread[0]] + s.unread[1..];
      assert g.read + ([s.unread[0]] + s.unread[1..]) == g.read + [s.unread[0]] + s.unread[1..];
    }
  }

  lemma {:induction false} InConserves(s: State, g: Log, port: nat)
    requires Invariant(s) && Conserved(s, g)
    ensures Conserved(SerialIn(s, port).0, Observe(s, g, In(port)))
  {
    RxConserves(s, g);
    UpdateIrqData(ReadRegister(s, port).0);
  }

  lemma {:induction false} RunConserves(es: seq<Access>)
    ensures Conserved(Run(es), RunLog(es))
  {
    if es != [] {
      var before, last := es[..|es| - 1], es[|es| - 1];
      RunKeeps(before);
      RunConserves(before);
      match last {
        case Out(port, data) => OutConserves(Run(before), RunLog(before), port, data);
        case In(port) => InConserves(Run(before), RunLog(before), port);
      }
    }
  }

  /** After any accesses the status register says whether bytes are unread, and that nothing waits for transmission. */
  lemma {:induction false} StatusInEveryRun(es: seq<Access>)
    ensures var s := Run(es);
            && SerialIn(s, 5).1 == {5, 6} + (if s.unread == [] then {} else {0})
            && s.pending == []
  {
    RunKeeps(es);
  }

  /** set_irq_line calls alternate, a raise first; the line is high if and only if an enabled cause holds. */
  lemma {:induction false} LineInEveryRun(es: seq<Access>)
    ensures var s := Run(es); Alternates(s.line) && (High(s.line) <==> CausePending(s))
  {
    RunKeeps(es);
  }

  /** Between clears, loopback reads return the accepted bytes in order, and what is unread is the rest. */
  lemma {:induction false} LoopbackIsFifo(es: seq<Access>)
    ensures RunLog(es).accepted == RunLog(es).read + Run(es).unread && |Run(es).unread| <= 64
  {
    RunKeeps(es);
    RunConserves(es);
  }

  /** Standard output receives exactly the transmitted bytes, in order and at once. */
  lemma {:induction false} TransmitsEverything(es: seq<Access>)
    ensures Run(es).out == RunLog(es).sent
  {
    RunConserves(es);
  }

  /** The identification register always reads as zero, whatever interrupt is pending. */
  lemma {:induction false} IdentificationReadsZero(es: seq<Access>)
    ensures SerialIn(Run(es), 2).1 == {}
  {
    RunKeeps(es);
  }

  /** A line control value reads back if and only if it has neither of the bits taken for FIFO clears. */
  lemma {:induction false} LineControlReadsBackIff(s: State, data: Register)
    ensures SerialIn(SerialOut(s, 3, data), 3).1 == data - {1, 2}
    ensures SerialIn(SerialOut(s, 3, data), 3).1 == data <==> 1 !in data && 2 !in data
  {
    assert data - {FCR_CLEAR_RCVR} - {FCR_CLEAR_XMIT} == data - {FCR_CLEAR_RCVR, FCR_CLEAR_XMIT};
    assert data - {FCR_CLEAR_RCVR, FCR_CLEAR_XMIT} == data
      <==> FCR_CLEAR_RCVR !in data && FCR_CLEAR_XMIT !in data;
  }

  // ----- the registers as the guest programmed them -----

  /** What a driver can know from its own writes: no FIFO, status or interrupt takes part. */
  datatype Shadow = Shadow(
    lcr: Register, mcr: Register, scr: Register, dll: Register, dlm: Register, ier: Register, fcr: Register)

  function ShadowStep(g: Shadow, a: Access): Shadow {
    match a
    case Out(0, data) => if 7 in g.lcr then g.(dll := data) else g
    case Out(1, data) => if 7 in g.lcr then g.(ier := data * {0, 1, 2, 3}) else g.(dlm := data)
    case Out(2, data) => g.(fcr := data)
    case Out(3, data) => g.(lcr := data - {1, 2})
    case Out(4, data) => g.(mcr := data)
    case Out(7, data) => g.(scr := data)
    case _ => g
  }

  function ShadowOf(es: seq<Access>): Shadow {
    if es == [] then Shadow({}, {3}, {}, {}, {}, {}, {})
    else ShadowStep(ShadowOf(es[..|es| - 1]), es[|es| - 1])
  }

  function Programmed(s: State): Shadow {
    Shadow(s.lcr, s.mcr, s.scr, s.dll, s.dlm, s.ier, s.fcr)
  }

  lemma {:induction false} UpdateIrqProgrammed(s: State)
    ensures Programmed(UpdateIrq(s)) == Programmed(s).(lcr := s.lcr - {FCR_CLEAR_RCVR, FCR_CLEAR_XMIT})
  {
    assert s.lcr - {FCR_CLEAR_RCVR} - {FCR_CLEAR_XMIT} == s.lcr - {FCR_CLEAR_RCVR, FCR_CLEAR_XMIT};
  }

  lemma {:induction false} ReadKeepsProgrammed(s: State, port: nat)
    ensures Programmed(ReadRegister(s, port).0) == Programmed(s)
  {
  }

  lemma {:induction false} StepShadow(s: State, a: Access)
    requires ControlOk(s)
    ensures Programmed(Step(s, a)) == ShadowStep(Programmed(s), a)
  {
    assert s.lcr - {FCR_CLEAR_RCVR, FCR_CLEAR_XMIT} == s.lcr;
    match a {
      case Out(port, data) => UpdateIrqProgrammed(WriteRegister(s, port, data));
      case In(port) =>
        ReadKeepsProgrammed(s, port);
        UpdateIrqProgrammed(ReadRegister(s, port).0);
    }
  }

  /** In every run the programmable registers hold what the driver's own writes say. */
  lemma {:induction false} ShadowInEveryRun(es: seq<Access>)
    ensures Programmed(Run(es)) == ShadowOf(es)
  {
    if es != [] {
      ShadowInEveryRun(es[..|es| - 1]);
      RunKeeps(es[..|es| - 1]);
      StepShadow(Run(es[..|es| - 1]), es[|es| - 1]);
    }
  }

  /** So reads of the plain registers, and of the divisor behind the latch, return them. */
  lemma {:induction false} ReadsBackInEveryRun(es: seq<Access>)
    ensures var s, g := Run(es), ShadowOf(es);
            && SerialIn(s, 3).1 == g.lcr && SerialIn(s, 4).1 == g.mcr && SerialIn(s, 7).1 == g.scr
            && SerialIn(s, 1).1 == (if 7 in g.lcr then g.dlm else g.ier)
            && (7 in g.lcr ==> SerialIn(s, 0).1 == g.dll)
  {
    ShadowInEveryRun(es);
  }

  lemma {:induction false} StepKeepsModemStatus(s: State, a: Access)
    ensures Step(s, a).msr == s.msr
  {
    match a {
      case Out(port, data) => assert WriteRegister(s, port, data).msr == s.msr;
      case In(port) => assert ReadRegister(s, port).0.msr == s.msr;
    }
  }

  /**
   * The modem status always reads as carrier detect, data set ready and clear
   * to send; past the last register reads are zero.
   */
  lemma {:induction false} ModemStatusInEveryRun(es: seq<Access>, port: nat)
    requires port > 7
    ensures SerialIn(Run(es), 6).1 == {7, 5, 4} && SerialIn(Run(es), port).1 == {}
  {
    if es != [] {
      ModemStatusInEveryRun(es[..|es| - 1], port);
      StepKeepsModemStatus(Run(es[..|es| - 1]), es[|es| - 1]);
    }
  }

  predicate LatchStaysClosed(es: seq<Access>) {
    forall i :: 0 <= i < |es| && es[i].Out? && es[i].port == 3 ==> LCR_DLAB !in es[i].data
  }

  lemma {:induction false} ClosedLatchShadow(es: seq<Access>)
    requires LatchStaysClosed(es)
    ensures LCR_DLAB !in ShadowOf(es).lcr && ShadowOf(es).ier == {}
  {
    if es != [] {
      ClosedLatchShadow(es[..|es| - 1]);
    }
  }

  lemma {:induction false} ClosedLatchQuiet(es: seq<Access>)
    requires LatchStaysClosed(es)
    ensures !CausePending(Run(es))
  {
    ClosedLatchShadow(es);
    ShadowInEveryRun(es);
    assert Run(es).ier == Programmed(Run(es)).ier;
  }

  /** Each access calls set_irq_line at most once. */
  lemma {:induction false} StepLine(s: State, a: Access)
    ensures |Step(s, a).line| <= |s.line| + 1
  {
    match a {
      case Out(port, data) => assert WriteRegister(s, port, data).line == s.line;
      case In(port) => assert ReadRegister(s, port).0.line == s.line;
    }
  }

  lemma {:induction false} LowAfterOneCall(line: seq<bool>)
    requires |line| <= 1 && Alternates(line) && !High(line)
    ensures line == []
  {
  }

  /**
   * The enable register is written only behind the divisor latch: a driver
   * that never opens it, and enables interrupts as the 16550 asks, with the
   * latch closed, never gets one.
   */
  lemma {:induction false} NoInterruptWithoutLatch(es: seq<Access>)
    requires LatchStaysClosed(es)
    ensures Run(es).line == []
  {
    if es != [] {
      var front := es[..|es| - 1];
      NoInterruptWithoutLatch(front);
      StepLine(Run(front), es[|es| - 1]);
      ClosedLatchQuiet(es);
      LineInEveryRun(es);
      LowAfterOneCall(Run(es).line);
    }
  }
}
