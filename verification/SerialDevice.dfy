/** The serial device with its FIFO arrays and counters, proved to follow the state machine. */
module SerialDevices {
  import opened UartModel

  class SerialDevice {
    var irqState: Register
    var txcnt: nat
    var rxcnt: nat
    var rxdone: nat
    const txbuf: array<Register>
    const rxbuf: array<Register>
    var dll: Register
    var dlm: Register
    var iir: Register
    var ier: Register
    var fcr: Register
    var lcr: Register
    var mcr: Register
    var lsr: Register
    var msr: Register
    var scr: Register
    // What standard output and set_irq_line were given.
    var out: seq<Register>
    var line: seq<bool>

    ghost predicate Valid()
      reads this
    {
      && txbuf != rxbuf
      && txbuf.Length == rxbuf.Length == FIFO_LEN
      && rxdone <= rxcnt <= FIFO_LEN
      && txcnt <= FIFO_LEN
    }

    ghost function View(): State
      requires Valid()
      reads this, txbuf, rxbuf
    {
      State(rxbuf[rxdone..rxcnt], rxcnt, txbuf[..txcnt], irqState,
            dll, dlm, iir, ier, fcr, lcr, mcr, lsr, msr, scr, out, line)
    }

    constructor ()
      ensures Valid() && View() == Reset && fresh(txbuf) && fresh(rxbuf)
    {
      txbuf := new Register[FIFO_LEN];
      rxbuf := new Register[FIFO_LEN];
      irqState, txcnt, rxcnt, rxdone := {}, 0, 0, 0;
      dll, dlm, iir, ier, fcr, lcr := {}, {}, {IIR_NO_INT}, {}, {}, {};
      mcr, lsr, msr, scr := {MCR_OUT2}, TX_EMPTY, MSR_RESET, {};
      out, line := [], [];
    }

    method Flush()
      requires Valid()
      modifies this
      ensures Valid() && View() == FlushTx(old(View()))
    {
      lsr := lsr + TX_EMPTY;
      if txcnt > 0 {
        out := out + txbuf[..txcnt];
        txcnt := 0;
      }
    }

    method ClearRx()
      requires Valid()
      modifies this
      ensures Valid() && View() == ClearReceiver(old(View()))
    {
      if FCR_CLEAR_RCVR in lcr {
        lcr := lcr - {FCR_CLEAR_RCVR};
        rxcnt := 0;
        rxdone := 0;
        lsr := lsr - {LSR_DR};
      }
    }

    method ClearTx()
      requires Valid()
      modifies this
      ensures Valid() && View() == ClearTransmitter(old(View()))
    {
      if FCR_CLEAR_XMIT in lcr {
        lcr := lcr - {FCR_CLEAR_XMIT};
        txcnt := 0;
        lsr := lsr + TX_EMPTY;
      }
    }

    method Drive()
      requires Valid()
      modifies this
      ensures Valid() && View() == DriveLine(old(View()))
    {
      var causes: Register := {};
      if IER_RDI in ier && LSR_DR in lsr {
        causes := causes + {IIR_RDI};
      }
      if IER_THRI in ier && LSR_TEMT in lsr {
        causes := causes + {IIR_THRI};
      }
      assert causes == Causes(View());
      if causes == {} {
        iir := {IIR_NO_INT};
        if irqState != {} {
          line := line + [false];
        }
      } else {
        iir := causes;
        if irqState == {} {
          line := line + [true];
        }
      }
      irqState := causes;
    }

    /** update_irq */
    method Update()
      requires Valid()
      modifies this
      ensures Valid() && View() == UpdateIrq(old(View()))
    {
      ClearRx();
      ClearTx();
      Drive();
      if IER_THRI !in ier {
        Flush();
      }
    }

    /** tx in loopback mode */
    method LoopBack(data: Register)
      requires Valid() && LCR_DLAB !in lcr && MCR_LOOP in mcr
      modifies this, rxbuf
      ensures Valid() && View() == Tx(old(View()), data)
    {
      if rxcnt < FIFO_LEN {
        rxbuf[rxcnt] := data;
        rxcnt := rxcnt + 1;
        lsr := lsr + {LSR_DR};
        assert rxbuf[rxdone..rxcnt] == old(rxbuf[rxdone..rxcnt]) + [data];
      }
    }

    /** tx towards standard output */
    method Queue(data: Register)
      requires Valid() && LCR_DLAB !in lcr && MCR_LOOP !in mcr
      modifies this, txbuf
      ensures Valid() && View() == Tx(old(View()), data)
    {
      if txcnt < FIFO_LEN {
        txbuf[txcnt] := data;
        txcnt := txcnt + 1;
        lsr := lsr - {LSR_TEMT};
        if txcnt == FIFO_LEN / 2 {
          lsr := lsr - {LSR_THRE};
        }
        assert txbuf[..txcnt] == old(txbuf[..txcnt]) + [data];
        Flush();
      } else {
        lsr := lsr - TX_EMPTY;
      }
    }

    method Transmit(data: Register)
      requires Valid()
      modifies this, txbuf, rxbuf
      ensures Valid() && View() == Tx(old(View()), data)
    {
      if LCR_DLAB in lcr {
        dll := data;
      } else if MCR_LOOP in mcr {
        LoopBack(data);
      } else {
        Queue(data);
      }
    }

    /** rx */
    method Receive() returns (data: Register)
      requires Valid()
      modifies this
      ensures Valid() && (View(), data) == Rx(old(View()))
    {
      data := {};
      if rxdone == rxcnt {
        return;
      }
      if LSR_BI in lsr {
        lsr := lsr - {LSR_BI};
        return;
      }
      data := rxbuf[rxdone];
      rxdone := rxdone + 1;
      assert rxbuf[rxdone..rxcnt] == old(rxbuf[rxdone..rxcnt])[1..];
      if rxdone == rxcnt {
        lsr := lsr - {LSR_DR};
        rxdone := 0;
        rxcnt := 0;
      }
    }

    /** The register access of serial_out. */
    method Assign(port: nat, data: Register)
      requires Valid()
      modifies this, txbuf, rxbuf
      ensures Valid() && View() == WriteRegister(old(View()), port, data)
    {
      match port {
        case 0 => Transmit(data);
        case 1 =>
          if LCR_DLAB in lcr {
            ier := data * ENABLE_BITS;
          } else {
            dlm := data;
          }
        case 2 => fcr := data;
        case 3 => lcr := data;
        case 4 => mcr := data;
        case 7 => scr := data;
        case _ =>
      }
    }

    /** serial_out */
    method Write(port: nat, data: Register)
      requires Valid()
      modifies this, txbuf, rxbuf
      ensures Valid() && View() == SerialOut(old(View()), port, data)
    {
      Assign(port, data);
      Update();
    }

    /** The register access of serial_in. */
    method Fetch(port: nat) returns (data: Register)
      requires Valid()
      modifies this
      ensures Valid() && (View(), data) == ReadRegister(old(View()), port)
    {
      data := {};
      match port {
        case 0 =>
          if LCR_DLAB in lcr {
            data := dll;
          } else {
            data := Receive();
          }
        case 1 => data := if LCR_DLAB in lcr then dlm else ier;
        case 2 => data := iir * IIR_TYPE_BITS;
        case 3 => data := lcr;
        case 4 => data := mcr;
        case 5 => data := lsr;
        case 6 => data := msr;
        case 7 => data := scr;
        case _ =>
      }
    }

    /** serial_in */
    method Read(port: nat) returns (data: Register)
      requires Valid()
      modifies this
      ensures Valid() && (View(), data) == SerialIn(old(View()), port)
    {
      data := Fetch(port);
      Update();
    }
  }
}
