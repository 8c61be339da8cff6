/** The UART object, updated in place (src/serial.rs). */
module SerialDevice {
  import opened Bytes
  import opened UartModel

  class Serial {
    var ier: Ier
    var mcr: Mcr
    var msr: Msr
    var lcr: byte
    var scr: byte
    var dll: byte
    var dlm: byte
    var fifoOn: bool
    var trigger: nat
    var rx: seq<byte>
    var overrun: bool
    var thre: bool
    var cti: bool
    var level: bool

    /** Calls to the current interrupt sink, and bytes written to the host. */
    ghost var calls: seq<bool>
    ghost var sent: seq<byte>

    ghost function State(): (u: Uart)
      reads this
    {
      Uart(ier, mcr, msr, lcr, scr, dll, dlm, fifoOn, trigger, rx, overrun, thre, cti, level)
    }

    constructor ()
      ensures State() == POWER_ON && calls == [] && sent == []
    {
      ier, mcr := Ier(false, false, false, false), Mcr(false, false, false, false, false);
      msr, lcr, scr, dll, dlm := Msr(QUIET, CONNECTED), 0, 0, 0, 0;
      fifoOn, trigger, rx := false, 0, [];
      overrun, thre, cti, level := false, false, false, false;
      calls, sent := [], [];
    }

    method PendingInterrupt() returns (s: Option<Source>)
      ensures s == Pending(State())
    {
      if ier.line && overrun {
        return Some(LineStatus);
      }
      if ier.data {
        var trig := if fifoOn then TriggerBytes(trigger) else 1;
        if |rx| >= trig {
          return Some(DataAvailable);
        }
        if cti && rx != [] {
          return Some(Timeout);
        }
      }
      if ier.thre && thre {
        return Some(TransmitEmpty);
      }
      if ier.modem && AnyLine(msr.delta) {
        return Some(ModemStatus);
      }
      return None;
    }

    method UpdateIrq()
      modifies this`level, this`calls
      ensures State() == Settle(old(State()))
      ensures calls == old(calls) + Edge(old(State()))
    {
      hide Pending, Bit;
      var s := PendingInterrupt();
      var asserted := mcr.out2 && s.Some?;
      if asserted != level {
        level := asserted;
        calls := calls + [asserted];
      }
    }

    /** Queue bytes until the FIFO is full; a byte that does not fit is an overrun. */
    method FillFifo(bytes: seq<byte>)
      modifies this`rx, this`overrun
      ensures var n := Taken(old(State()), bytes);
              rx == old(rx) + bytes[..n] && overrun == (old(overrun) || n < |bytes|)
    {
      var i := 0;
      while i < |bytes|
        invariant 0 <= i <= Taken(old(State()), bytes)
        invariant rx == old(rx) + bytes[..i] && overrun == old(overrun)
      {
        if |rx| >= FIFO_CAP {
          overrun := true;
          break;
        }
        rx := rx + [bytes[i]];
        i := i + 1;
      }
    }

    method InjectRx(bytes: seq<byte>)
      modifies this`rx, this`overrun, this`cti, this`level, this`calls
      ensures State() == Apply(old(State()), Inject(bytes))
      ensures calls == old(calls) + Calls(old(State()), Inject(bytes))
    {
      hide Pending, Bit, Settle, Edge, Taken;
      if mcr.loop {
        return;
      }
      FillFifo(bytes);
      cti := false;
      UpdateIrq();
    }

    method TickCti(elapsed: bool) returns (changed: bool)
      modifies this`cti, this`level, this`calls
      ensures State() == Apply(old(State()), Tick(elapsed))
      ensures calls == old(calls) + Calls(old(State()), Tick(elapsed))
      ensures changed == (cti != old(cti))
    {
      hide Pending, Bit, Settle, Edge;
      var was := cti;
      if rx != [] && fifoOn && |rx| < TriggerBytes(trigger) && elapsed {
        cti := true;
      }
      changed := was != cti;
      if changed {
        UpdateIrq();
      }
    }

    method ReplaceIrqSink()
      modifies this`level, this`calls
      ensures State() == Apply(old(State()), SwapSink)
      ensures calls == Calls(old(State()), SwapSink)
    {
      hide Pending, Bit, Settle, Edge;
      level := false;
      calls := [];
      UpdateIrq();
    }

    method ReadLsr() returns (lsr: byte)
      modifies this`overrun, this`level, this`calls
      ensures State() == Settle(old(State()).(overrun := false)) && lsr == LsrValue(old(State()))
      ensures calls == old(calls) + Edge(old(State()).(overrun := false))
    {
      hide Pending, Bit, Settle, Edge;
      lsr := 0x60;
      if rx != [] {
        lsr := lsr + 1;
      }
      if overrun {
        lsr := lsr + 2;
      }
      overrun := false;
      UpdateIrq();
    }

    method ReadIir() returns (iir: byte)
      modifies this`thre, this`level, this`calls
      ensures State() == Apply(old(State()), Op.Read(2)) && iir == IirValue(old(State()))
      ensures calls == old(calls) + Calls(old(State()), Op.Read(2))
    {
      hide Pending, Bit, Settle, Edge;
      var s := PendingInterrupt();
      var id := if s.Some? then Code(s.value) else 0x01;
      if id == Code(TransmitEmpty) {
        thre := false;
        UpdateIrq();
      }
      iir := id + if fifoOn then 0xc0 else 0;
    }

    method WriteThr(b: byte)
      modifies this`rx, this`overrun, this`thre, this`sent, this`level, this`calls
      ensures State() == Settle(ThrRaw(old(State()), b)) && calls == old(calls) + Edge(ThrRaw(old(State()), b))
      ensures sent == old(sent) + if old(mcr.loop) then [] else [b]
    {
      hide Pending, Bit, Settle, Edge;
      ghost var u := State();
      if mcr.loop {
        if |rx| >= FIFO_CAP {
          overrun := true;
        } else {
          rx := rx + [b];
        }
      } else {
        sent := sent + [b];
      }
      thre := true;
      assert State() == ThrRaw(u, b);
      UpdateIrq();
    }

    method WriteFcr(v: byte)
      modifies this`fifoOn, this`trigger, this`rx, this`cti, this`level, this`calls
      ensures State() == Settle(FcrRaw(old(State()), v)) && calls == old(calls) + Edge(FcrRaw(old(State()), v))
    {
      hide Settle, Edge, FcrRaw;
      SetFcr(v);
      UpdateIrq();
    }

    /** Enable bit and trigger level; turning the FIFO on, or asking for it, empties the FIFO. */
    method SetFcr(v: byte)
      modifies this`fifoOn, this`trigger, this`rx, this`cti
      ensures State() == FcrRaw(old(State()), v)
    {
      hide Bit;
      var enabled := Bit(v, 0);
      var transitioningOn := enabled && !fifoOn;
      fifoOn := enabled;
      trigger := v / 64;
      if transitioningOn || Bit(v, 1) {
        rx := [];
        cti := false;
      }
    }

    method WriteMcr(v: byte)
      modifies this`mcr, this`msr, this`rx, this`cti, this`level, this`calls
      ensures State() == Settle(McrRaw(old(State()), v)) && calls == old(calls) + Edge(McrRaw(old(State()), v))
    {
      hide Settle, Edge, McrRaw;
      SetMcr(v);
      UpdateIrq();
    }

    /** Control lines, and in loopback the modem status lines they drive; entering loopback empties the FIFO. */
    method SetMcr(v: byte)
      modifies this`mcr, this`msr, this`rx, this`cti
      ensures State() == McrRaw(old(State()), v)
    {
      hide Looped, Changed, Either, DecodeMcr;
      var wasLoopback := mcr.loop;
      mcr := DecodeMcr(v);
      var isLoopback := mcr.loop;
      if isLoopback {
        var lines := Looped(mcr);
        var deltas := Changed(msr.state, lines);
        msr := Msr(Either(msr.delta, deltas), lines);
        if !wasLoopback {
          rx := [];
          cti := false;
        }
      } else if wasLoopback {
        msr := Msr(msr.delta, CONNECTED);
      }
    }

    method ReadMsr() returns (v: byte)
      modifies this`msr, this`level, this`calls
      ensures State() == Settle(old(State()).(msr := Msr(QUIET, old(msr.state)))) && v == EncodeMsr(old(msr))
      ensures calls == old(calls) + Edge(old(State()).(msr := Msr(QUIET, old(msr.state))))
    {
      hide Pending, Bit, Settle, Edge;
      v := EncodeMsr(msr);
      msr := Msr(QUIET, msr.state);
      UpdateIrq();
    }

    method ReadRbr() returns (b: byte)
      modifies this`rx, this`cti, this`level, this`calls
      ensures State() == Settle(PopRaw(old(State()))) && b == if old(rx) == [] then 0 else old(rx)[0]
      ensures calls == old(calls) + Edge(PopRaw(old(State())))
    {
      hide Pending, Bit, Settle, Edge;
      ghost var u := State();
      b := 0;
      if rx != [] {
        b := rx[0];
        rx := rx[1..];
      }
      if rx == [] {
        cti := false;
      }
      assert State() == PopRaw(u);
      UpdateIrq();
    }

    method ReadRegister(offset: nat) returns (b: byte)
      modifies this
      ensures State() == Apply(old(State()), Op.Read(offset)) && b == Value(old(State()), offset)
      ensures calls == old(calls) + Calls(old(State()), Op.Read(offset)) && sent == old(sent)
    {
      hide Bit, Pending, LsrValue, IirValue, Edge, PopRaw, Settle, EncodeIer, EncodeMcr, EncodeMsr;
      b := 0xff;
      if offset == 0 {
        if Bit(lcr, 7) {
          b := dll;
        } else {
          b := ReadRbr();
        }
      } else if offset == 1 {
        b := if Bit(lcr, 7) then dlm else EncodeIer(ier);
      } else if offset == 2 {
        b := ReadIir();
      } else if offset == 3 {
        b := lcr;
      } else if offset == 4 {
        b := EncodeMcr(mcr);
      } else if offset == 5 {
        b := ReadLsr();
      } else if offset == 6 {
        b := ReadMsr();
      } else if offset == 7 {
        b := scr;
      }
    }

    /** Bus read: one byte from the device, any further bytes read as 0xff. An empty read does nothing. */
    method Read(offset: nat, data: array<byte>)
      modifies this, data
      ensures data.Length == 0 ==> State() == old(State()) && calls == old(calls)
      ensures data.Length > 0 ==>
                && State() == Apply(old(State()), Op.Read(offset))
                && calls == old(calls) + Calls(old(State()), Op.Read(offset))
                && data[0] == Value(old(State()), offset)
      ensures forall i :: 0 < i < data.Length ==> data[i] == 0xff
      ensures sent == old(sent)
    {
      hide Apply, Calls, Value;
      if data.Length == 0 {
        return;
      }
      var b := ReadRegister(offset);
      data[0] := b;
      for i := 1 to data.Length
        modifies data
        invariant data[0] == b
        invariant forall j :: 0 < j < i ==> data[j] == 0xff
      {
        data[i] := 0xff;
      }
    }

    method WriteRegister(offset: nat, v: byte)
      modifies this
      ensures State() == Apply(old(State()), Op.Write(offset, v))
      ensures calls == old(calls) + Calls(old(State()), Op.Write(offset, v))
      ensures sent == old(sent) + Emitted(old(State()), Op.Write(offset, v))
    {
      hide Bit, Pending, Edge, ThrRaw, FcrRaw, McrRaw, Settle, DecodeIer;
      if offset == 0 {
        if Bit(lcr, 7) {
          dll := v;
        } else {
          WriteThr(v);
        }
      } else if offset == 1 {
        if Bit(lcr, 7) {
          dlm := v;
        } else {
          ier := DecodeIer(v);
          UpdateIrq();
        }
      } else if offset == 2 {
        WriteFcr(v);
      } else if offset == 3 {
        lcr := v;
      } else if offset == 4 {
        WriteMcr(v);
      } else if offset == 7 {
        scr := v;
      }
    }

    /** Bus write: only the first byte counts. */
    method Write(offset: nat, data: seq<byte>)
      modifies this
      ensures data == [] ==> State() == old(State()) && calls == old(calls) && sent == old(sent)
      ensures data != [] ==>
                && State() == Apply(old(State()), Op.Write(offset, data[0]))
                && calls == old(calls) + Calls(old(State()), Op.Write(offset, data[0]))
                && sent == old(sent) + Emitted(old(State()), Op.Write(offset, data[0]))
    {
      hide Apply, Calls, Emitted;
      if data != [] {
        WriteRegister(offset, data[0]);
      }
    }
  }
}
