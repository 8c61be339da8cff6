/**
 * The UART as a guest and the host see it, from the history of operations alone: every register value, the interrupt
 * line and the host's output are functions of what was written, injected, read and ticked (src/serial.rs).
 */
module UartHistory {
  import opened Bytes
  import opened UartModel
  import opened UartRuns

  // ---- Registers as last written ----

  datatype Reg = Lcr | Ier | Mcr | Scr | Dll | Dlm | Fcr

  /** The write reaches the register: offsets 0 and 1 select divisor latches while bit 7 of LCR is set. */
  predicate Reaches(op: Op, dlab: bool, r: Reg)
  {
    && op.Write?
    && match r
       case Dll => op.offset == 0 && dlab
       case Ier => op.offset == 1 && !dlab
       case Dlm => op.offset == 1 && dlab
       case Fcr => op.offset == 2
       case Lcr => op.offset == 3
       case Mcr => op.offset == 4
       case Scr => op.offset == 7
  }

  /** The last value that reached the register; zero at power-on. */
  ghost function Last(ops: seq<Op>, r: Reg): (v: byte)
    decreases |ops|, if r == Lcr then 0 else 1
  {
    if ops == [] then 0
    else
      var n := |ops| - 1;
      if r == Lcr then if ops[n].Write? && ops[n].offset == 3 then ops[n].value else Last(ops[..n], Lcr)
      else if Reaches(ops[n], Last(ops[..n], Lcr) >= 128, r) then ops[n].value
      else Last(ops[..n], r)
  }

  ghost predicate DlabSet(ops: seq<Op>) { Last(ops, Lcr) >= 128 }

  ghost predicate Looping(ops: seq<Op>) { Last(ops, Reg.Mcr) / 16 % 2 == 1 }

  lemma {:induction false} Bits(v: byte)
    ensures Bit(v, 0) <==> v % 2 == 1
    ensures Bit(v, 1) <==> v / 2 % 2 == 1
    ensures Bit(v, 2) <==> v / 4 % 2 == 1
    ensures Bit(v, 3) <==> v / 8 % 2 == 1
    ensures Bit(v, 4) <==> v / 16 % 2 == 1
  {
    assert v / 2 / 2 == v / 4 && v / 4 / 2 == v / 8 && v / 8 / 2 == v / 16;
    BitBelow(v, 0);
    BitBelow(v, 1);
    BitBelow(v / 2, 0);
    BitBelow(v, 2);
    BitBelow(v / 2, 1);
    BitBelow(v / 4, 0);
    BitBelow(v, 3);
    BitBelow(v / 2, 2);
    BitBelow(v / 4, 1);
    BitBelow(v / 8, 0);
  }

  lemma {:induction false} Bit7(v: byte)
    ensures Bit(v, 7) <==> v >= 128
  {
    assert v / 2 / 2 == v / 4 && v / 4 / 2 == v / 8 && v / 8 / 2 == v / 16;
    assert v / 16 / 2 == v / 32 && v / 32 / 2 == v / 64 && v / 64 / 2 == v / 128;
    BitBelow(v, 6);
    BitBelow(v / 2, 5);
    BitBelow(v / 4, 4);
    BitBelow(v / 8, 3);
    BitBelow(v / 16, 2);
    BitBelow(v / 32, 1);
    BitBelow(v / 64, 0);
  }

  /** Enable bits 0 to 3: data, transmitter empty, line status, modem status. */
  predicate IerIs(r: UartModel.Ier, v: byte)
  {
    && r.data == (v % 2 == 1) && r.thre == (v / 2 % 2 == 1)
    && r.line == (v / 4 % 2 == 1) && r.modem == (v / 8 % 2 == 1)
  }

  /** Control bits 0 to 4: DTR, RTS, OUT1, OUT2, loopback. */
  predicate McrIs(r: UartModel.Mcr, v: byte)
  {
    && r.dtr == (v % 2 == 1) && r.rts == (v / 2 % 2 == 1) && r.out1 == (v / 4 % 2 == 1)
    && r.out2 == (v / 8 % 2 == 1) && r.loop == (v / 16 % 2 == 1)
  }

  /** What one operation does to the registers that only hold a value. */
  ghost predicate HeldStepped(u: Uart, op: Op, u': Uart)
  {
    && u'.lcr == (if op.Write? && op.offset == 3 then op.value else u.lcr)
    && u'.scr == (if op.Write? && op.offset == 7 then op.value else u.scr)
    && u'.dll == (if op.Write? && op.offset == 0 && Dlab(u) then op.value else u.dll)
    && u'.dlm == (if op.Write? && op.offset == 1 && Dlab(u) then op.value else u.dlm)
  }

  /** What it does to the others, and to the transmit-empty event. */
  ghost predicate ControlStepped(u: Uart, op: Op, u': Uart)
  {
    && u'.ier == (if op.Write? && op.offset == 1 && !Dlab(u) then DecodeIer(op.value) else u.ier)
    && u'.mcr == (if op.Write? && op.offset == 4 then DecodeMcr(op.value) else u.mcr)
    && u'.fifoOn == (if op.Write? && op.offset == 2 then Bit(op.value, 0) else u.fifoOn)
    && u'.trigger == (if op.Write? && op.offset == 2 then op.value / 64 else u.trigger)
    && u'.thre == (if op.Write? && op.offset == 0 && !Dlab(u) then true
                   else if op.Read? && op.offset == 2 && Pending(u) == Some(TransmitEmpty) then false
                   else u.thre)
  }

  ghost predicate RegsStepped(u: Uart, op: Op, u': Uart) { HeldStepped(u, op, u') && ControlStepped(u, op, u') }

  lemma {:induction false} ReadRegs(u: Uart, offset: nat)
    ensures RegsStepped(u, Read(offset), ReadRaw(u, offset).0)
  {
    hide Pending, Bit, DecodeIer, DecodeMcr, PopRaw;
  }

  lemma ThrSets(u: Uart, v: byte)
    ensures ThrRaw(u, v).thre
  {
  }

  lemma {:induction false} FcrSets(u: Uart, v: byte)
    ensures FcrRaw(u, v).fifoOn == Bit(v, 0) && FcrRaw(u, v).trigger == v / 64
  {
    hide Bit;
  }

  lemma {:induction false} McrSets(u: Uart, v: byte)
    ensures McrRaw(u, v).mcr == DecodeMcr(v)
  {
    hide DecodeMcr, Looped, Changed, Either;
  }

  lemma {:induction false} WriteRegs(u: Uart, offset: nat, v: byte)
    ensures RegsStepped(u, Write(offset, v), WriteRaw(u, offset, v).0)
  {
    hide WriteRaw, HeldStepped, ControlStepped;
    WriteHeld(u, offset, v);
    WriteControl(u, offset, v);
  }

  lemma {:induction false} WriteHeld(u: Uart, offset: nat, v: byte)
    ensures HeldStepped(u, Write(offset, v), WriteRaw(u, offset, v).0)
  {
    hide Bit, DecodeIer, DecodeMcr, ThrRaw, FcrRaw, McrRaw, Dlab;
  }

  lemma {:induction false} WriteControl(u: Uart, offset: nat, v: byte)
    ensures ControlStepped(u, Write(offset, v), WriteRaw(u, offset, v).0)
  {
    hide Pending, Bit, DecodeIer, DecodeMcr, ThrRaw, FcrRaw, McrRaw, Dlab;
    if offset == 0 {
      ThrSets(u, v);
    } else if offset == 2 {
      FcrSets(u, v);
    } else if offset == 4 {
      McrSets(u, v);
    }
  }

  lemma {:induction false} StepRegs(u: Uart, op: Op)
    ensures RegsStepped(u, op, Apply(u, op))
  {
    hide Pending, Bit, DecodeIer, DecodeMcr, ReadRaw, WriteRaw, Asserted, InjectRaw, TickRaw, Dlab;
    match op
    case Read(offset) => ReadRegs(u, offset);
    case Write(offset, v) => WriteRegs(u, offset, v);
    case _ =>
  }

  ghost predicate RegsRight(u: Uart, ops: seq<Op>)
  {
    && u.lcr == Last(ops, Lcr) && u.scr == Last(ops, Scr) && u.dll == Last(ops, Dll) && u.dlm == Last(ops, Dlm)
    && IerIs(u.ier, Last(ops, Reg.Ier)) && McrIs(u.mcr, Last(ops, Reg.Mcr))
    && (u.fifoOn <==> Last(ops, Fcr) % 2 == 1) && u.trigger == Last(ops, Fcr) / 64
  }

  /** In every reachable state each plain register holds what was last written to it, bit for bit. */
  lemma {:induction false} RegistersHold(ops: seq<Op>)
    ensures RegsRight(After(ops), ops)
    decreases |ops|
  {
    hide Apply, RegsStepped, RegsRight;
    if ops == [] {
      PowerOnRegs();
    } else {
      var n := |ops| - 1;
      RegistersHold(ops[..n]);
      StepRegs(After(ops[..n]), ops[n]);
      StepRight(After(ops[..n]), ops, After(ops));
    }
  }

  lemma PowerOnRegs()
    ensures RegsRight(POWER_ON, [])
  {
  }

  lemma {:induction false} StepRight(u: Uart, ops: seq<Op>, u': Uart)
    requires ops != [] && RegsRight(u, ops[..|ops| - 1]) && RegsStepped(u, ops[|ops| - 1], u')
    ensures RegsRight(u', ops)
  {
    hide Bit, Last, IerIs, McrIs, DecodeIer, DecodeMcr, Pending;
    var before, op := ops[..|ops| - 1], ops[|ops| - 1];
    Bit7(u.lcr);
    LastStep(ops, Reg.Lcr);
    LastStep(ops, Reg.Ier);
    LastStep(ops, Reg.Mcr);
    LastStep(ops, Reg.Scr);
    LastStep(ops, Reg.Dll);
    LastStep(ops, Reg.Dlm);
    LastStep(ops, Reg.Fcr);
    if op.Write? {
      Decoded(op.value);
    }
  }

  lemma {:induction false} Decoded(v: byte)
    ensures IerIs(DecodeIer(v), v) && McrIs(DecodeMcr(v), v) && (Bit(v, 0) <==> v % 2 == 1)
  {
    hide Bit;
    Bits(v);
  }

  lemma LastStep(ops: seq<Op>, r: Reg)
    requires ops != []
    ensures var before, op := ops[..|ops| - 1], ops[|ops| - 1];
            Last(ops, r) == if Reaches(op, Last(before, Reg.Lcr) >= 128, r) then op.value else Last(before, r)
  {
  }

  lemma {:induction false} StateBits(ops: seq<Op>)
    ensures Dlab(After(ops)) <==> DlabSet(ops)
    ensures After(ops).mcr.loop <==> Looping(ops)
  {
    hide After, Last, Bit;
    RegistersHold(ops);
    Bit7(After(ops).lcr);
  }

  // ---- Transmitter ----

  /** THR was written since the last IIR read that reported the transmitter empty. */
  ghost predicate SentSince(ops: seq<Op>)
    decreases |ops|
  {
    ops != [] &&
    var n := |ops| - 1;
    if ops[n].Write? && ops[n].offset == 0 && !DlabSet(ops[..n]) then true
    else if ops[n] == Read(2) && Value(After(ops[..n]), 2) % 16 == 2 then false
    else SentSince(ops[..n])
  }

  /** The transmit-empty event is latched exactly then. */
  lemma {:induction false} TransmitLatched(ops: seq<Op>)
    ensures After(ops).thre <==> SentSince(ops)
    decreases |ops|
  {
    hide Apply, DlabSet, Pending, IirValue, Dlab;
    if ops != [] {
      var n := |ops| - 1;
      TransmitLatched(ops[..n]);
      var u := After(ops[..n]);
      StepRegs(u, ops[n]);
      StateBits(ops[..n]);
      IirNames(u);
    }
  }

  /** What reaches the host: every THR write outside loopback, in order. */
  ghost function Sent(ops: seq<Op>): (bs: seq<byte>)
    decreases |ops|
  {
    if ops == [] then []
    else
      var n := |ops| - 1;
      Sent(ops[..n])
      + if ops[n].Write? && ops[n].offset == 0 && !DlabSet(ops[..n]) && !Looping(ops[..n]) then [ops[n].value] else []
  }

  /** The host's output stream over a run. */
  ghost function Output(ops: seq<Op>): (bs: seq<byte>)
    decreases |ops|
  {
    if ops == [] then [] else Output(ops[..|ops| - 1]) + Emitted(After(ops[..|ops| - 1]), ops[|ops| - 1])
  }

  lemma {:induction false} OutputIsSent(ops: seq<Op>)
    ensures Output(ops) == Sent(ops)
    decreases |ops|
  {
    hide After, DlabSet, Looping, Dlab;
    if ops != [] {
      OutputIsSent(ops[..|ops| - 1]);
      StateBits(ops[..|ops| - 1]);
    }
  }

  // ---- Receiver ----

  /** Bytes waiting: accepted and not yet delivered. */
  ghost function Waiting(ops: seq<Op>): int { |Accepted(ops)| - |Delivered(ops)| }

  /** Receive level at which data is announced: 1, 4, 8 or 14 by FCR bits 6 and 7; one byte with the FIFO off. */
  ghost function Need(ops: seq<Op>): nat
  {
    var fcr := Last(ops, Fcr);
    if fcr % 2 == 0 || fcr / 64 == 0 then 1 else if fcr / 64 == 1 then 4 else if fcr / 64 == 2 then 8 else 14
  }

  /**
   * A character timeout: a tick with the time elapsed found bytes waiting below the trigger level of an enabled FIFO,
   * and since then nothing was injected outside loopback, no read took the last byte, and the FIFO was not emptied.
   */
  ghost predicate TimedOut(ops: seq<Op>)
    decreases |ops|
  {
    ops != [] &&
    var n := |ops| - 1;
    var before := ops[..n];
    match ops[n]
    case Tick(elapsed) =>
      (elapsed && Last(before, Fcr) % 2 == 1 && 0 < Waiting(before) < Need(before)) || TimedOut(before)
    case Inject(_) => Looping(before) && TimedOut(before)
    case Read(offset) => !(offset == 0 && !DlabSet(before) && Waiting(before) <= 1) && TimedOut(before)
    case Write(_, _) => !Discards(After(before), ops[n]) && TimedOut(before)
    case SwapSink => TimedOut(before)
  }

  /** One operation on the timeout latch. */
  ghost predicate CtiStepped(u: Uart, op: Op, cti: bool)
  {
    cti ==
      match op
      case Tick(elapsed) => (elapsed && u.fifoOn && 0 < |u.rx| < TriggerBytes(u.trigger)) || u.cti
      case Inject(_) => u.mcr.loop && u.cti
      case Read(offset) => !(offset == 0 && !Dlab(u) && |u.rx| <= 1) && u.cti
      case Write(_, _) => !Discards(u, op) && u.cti
      case SwapSink => u.cti
  }

  lemma {:induction false} ReadCti(u: Uart, offset: nat)
    ensures CtiStepped(u, Read(offset), ReadRaw(u, offset).0.cti)
  {
    hide Pending, Bit;
  }

  lemma {:induction false} WriteCti(u: Uart, offset: nat, v: byte)
    ensures CtiStepped(u, Write(offset, v), WriteRaw(u, offset, v).0.cti)
  {
    hide Pending, Bit, DecodeIer, Looped, Changed, Either;
  }

  lemma {:induction false} StepCti(u: Uart, op: Op)
    ensures CtiStepped(u, op, Apply(u, op).cti)
  {
    hide Pending, Bit, ReadRaw, WriteRaw, Asserted, Dlab, Discards;
    match op
    case Read(offset) => ReadCti(u, offset);
    case Write(offset, v) => WriteCti(u, offset, v);
    case _ =>
  }

  lemma {:induction false} NeedIs(ops: seq<Op>)
    ensures Threshold(After(ops)) == Need(ops)
    ensures Last(ops, Fcr) % 2 == 1 ==> TriggerBytes(After(ops).trigger) == Need(ops)
  {
    hide After, Last;
    RegistersHold(ops);
  }

  lemma {:induction false} WaitingIs(ops: seq<Op>)
    ensures |After(ops).rx| == Waiting(ops) <= 4096
    ensures After(ops).rx == Accepted(ops)[|Delivered(ops)|..]
  {
    hide After, Accepted, Delivered;
    ReceiveConserves(ops);
  }

  /** The timeout latch is set exactly by that history. */
  lemma {:induction false} TimeoutLatched(ops: seq<Op>)
    ensures After(ops).cti <==> TimedOut(ops)
    decreases |ops|
  {
    hide Apply, Last, DlabSet, Looping, Dlab, Discards, Waiting, Need, TriggerBytes, Threshold;
    if ops != [] {
      var before := ops[..|ops| - 1];
      TimeoutLatched(before);
      StepCti(After(before), ops[|ops| - 1]);
      StateBits(before);
      WaitingIs(before);
      NeedIs(before);
      FifoBit(before);
    }
  }

  lemma {:induction false} FifoBit(ops: seq<Op>)
    ensures After(ops).fifoOn <==> Last(ops, Fcr) % 2 == 1
  {
    hide After, Last;
    RegistersHold(ops);
  }

  // ---- Modem status ----

  /** Line 0 to 3: CTS, DSR, RI, DCD. */
  function LineOf(l: Lines, k: nat): bool
  {
    if k == 0 then l.cts else if k == 1 then l.dsr else if k == 2 then l.ri else l.dcd
  }

  /** In loopback RTS, DTR, OUT1 and OUT2 drive CTS, DSR, RI and DCD; otherwise CTS, DSR and DCD are asserted. */
  ghost predicate LineNow(ops: seq<Op>, k: nat)
  {
    var mcr := Last(ops, Reg.Mcr);
    if !Looping(ops) then k != 2
    else if k == 0 then mcr / 2 % 2 == 1
    else if k == 1 then mcr % 2 == 1
    else if k == 2 then mcr / 4 % 2 == 1
    else mcr / 8 % 2 == 1
  }

  /** An MCR write that left the UART in loopback changed the line since MSR was last read. */
  ghost predicate LineChanged(ops: seq<Op>, k: nat)
    decreases |ops|
  {
    ops != [] &&
    var n := |ops| - 1;
    if ops[n] == Read(6) then false
    else
      || (ops[n].Write? && ops[n].offset == 4 && Looping(ops) && LineNow(ops, k) != LineNow(ops[..n], k))
      || LineChanged(ops[..n], k)
  }

  lemma {:induction false} LineIs(ops: seq<Op>, k: nat)
    requires k < 4
    ensures LineOf(LineStates(After(ops)), k) <==> LineNow(ops, k)
  {
    hide After, Last;
    RegistersHold(ops);
  }

  lemma ChangedLine(a: Lines, b: Lines, k: nat)
    requires k < 4
    ensures LineOf(Changed(a, b), k) <==> LineOf(a, k) != LineOf(b, k)
    ensures LineOf(Either(a, b), k) <==> LineOf(a, k) || LineOf(b, k)
  {
  }

  lemma {:induction false} ChangedIs(ops: seq<Op>, k: nat)
    requires k < 4
    ensures LineOf(ChangedSince(ops), k) <==> LineChanged(ops, k)
    decreases |ops|
  {
    hide After, Last, LineStates, LineOf, LineNow, Looping, Changed, Either;
    if ops == [] {
      NoneChanged(k);
    } else {
      var before := ops[..|ops| - 1];
      ChangedIs(before, k);
      LineIs(before, k);
      LineIs(ops, k);
      StateBits(ops);
      NoneChanged(k);
      var a, b := LineStates(After(before)), LineStates(After(ops));
      ChangedLine(a, b, k);
      ChangedLine(ChangedSince(before), Changed(a, b), k);
    }
  }

  lemma NoneChanged(k: nat)
    requires k < 4
    ensures !LineOf(QUIET, k)
  {
  }

  // ---- What the guest reads ----

  /** The interrupt source is enabled in IER and has something to report. */
  ghost predicate Asks(ops: seq<Op>, s: Source)
  {
    var ier := Last(ops, Reg.Ier);
    match s
    case LineStatus => ier / 4 % 2 == 1 && RejectedSince(ops)
    case DataAvailable => ier % 2 == 1 && Waiting(ops) >= Need(ops)
    case Timeout => ier % 2 == 1 && TimedOut(ops) && Waiting(ops) > 0
    case TransmitEmpty => ier / 2 % 2 == 1 && SentSince(ops)
    case ModemStatus =>
      ier / 8 % 2 == 1
      && (LineChanged(ops, 0) || LineChanged(ops, 1) || LineChanged(ops, 2) || LineChanged(ops, 3))
  }

  function One(b: bool, weight: nat): nat { if b then weight else 0 }

  /** IIR: the code of the first source in priority order, or 1; bits 6 and 7 with the FIFO on. */
  ghost function IirSeen(ops: seq<Op>): nat
  {
    One(Last(ops, Fcr) % 2 == 1, 0xc0)
    + if Asks(ops, LineStatus) then 0x06
      else if Asks(ops, DataAvailable) then 0x04
      else if Asks(ops, Timeout) then 0x0c
      else if Asks(ops, TransmitEmpty) then 0x02
      else if Asks(ops, ModemStatus) then 0x00
      else 0x01
  }

  ghost function MsrSeen(ops: seq<Op>): nat
  {
    One(LineChanged(ops, 0), 1) + One(LineChanged(ops, 1), 2)
    + One(LineChanged(ops, 2), 4) + One(LineChanged(ops, 3), 8)
    + One(LineNow(ops, 0), 16) + One(LineNow(ops, 1), 32) + One(LineNow(ops, 2), 64) + One(LineNow(ops, 3), 128)
  }

  /** The value of register `k`. */
  ghost function Seen(ops: seq<Op>, k: nat): int
  {
    match k
    case 0 =>
      if DlabSet(ops) then Last(ops, Dll)
      else if 0 <= |Delivered(ops)| < |Accepted(ops)| then Accepted(ops)[|Delivered(ops)|]
      else 0
    case 1 => if DlabSet(ops) then Last(ops, Dlm) else Last(ops, Reg.Ier) % 16
    case 2 => IirSeen(ops)
    case 3 => Last(ops, Lcr)
    case 4 => Last(ops, Reg.Mcr) % 32
    case 5 => 0x60 + One(Waiting(ops) > 0, 1) + One(RejectedSince(ops), 2)
    case 6 => MsrSeen(ops)
    case 7 => Last(ops, Scr)
    case _ => 0xff
  }

  lemma {:induction false} AsksIs(ops: seq<Op>, s: Source)
    ensures Raised(After(ops), s) <==> Asks(ops, s)
  {
    hide After, Last, SentSince, TimedOut, RejectedSince, LineChanged, Waiting, Need, Threshold, LineOf, LineStates;
    RegistersHold(ops);
    TransmitLatched(ops);
    TimeoutLatched(ops);
    ReceiveConserves(ops);
    WaitingIs(ops);
    NeedIs(ops);
    DeltaIs(ops);
  }

  lemma {:induction false} DeltaIs(ops: seq<Op>)
    ensures AnyLine(After(ops).msr.delta)
            <==> LineChanged(ops, 0) || LineChanged(ops, 1) || LineChanged(ops, 2) || LineChanged(ops, 3)
  {
    hide After, LineChanged, ChangedSince, LineStates;
    ModemStatusIsRight(ops);
    ChangedIs(ops, 0);
    ChangedIs(ops, 1);
    ChangedIs(ops, 2);
    ChangedIs(ops, 3);
  }

  lemma {:induction false} IirIs(ops: seq<Op>)
    ensures IirValue(After(ops)) == IirSeen(ops)
  {
    hide After, Last, Asks, Raised, Pending;
    var u := After(ops);
    FifoBit(ops);
    AsksIs(ops, LineStatus);
    AsksIs(ops, DataAvailable);
    AsksIs(ops, Timeout);
    AsksIs(ops, TransmitEmpty);
    AsksIs(ops, ModemStatus);
    FirstRaised(u);
  }

  lemma FirstRaised(u: Uart)
    ensures Pending(u) ==
            if Raised(u, LineStatus) then Some(LineStatus)
            else if Raised(u, DataAvailable) then Some(DataAvailable)
            else if Raised(u, Timeout) then Some(Timeout)
            else if Raised(u, TransmitEmpty) then Some(TransmitEmpty)
            else if Raised(u, ModemStatus) then Some(ModemStatus)
            else None
  {
  }

  lemma {:induction false} MsrIs(ops: seq<Op>)
    ensures EncodeMsr(After(ops).msr) == MsrSeen(ops)
  {
    hide After, LineChanged, LineNow, ChangedSince, LineStates, EncodeMsr;
    ModemStatusIsRight(ops);
    forall k | 0 <= k < 4
      ensures LineOf(ChangedSince(ops), k) == LineChanged(ops, k)
      ensures LineOf(LineStates(After(ops)), k) == LineNow(ops, k)
    {
      ChangedIs(ops, k);
      LineIs(ops, k);
    }
    var d, l := ChangedSince(ops), LineStates(After(ops));
    MsrValue(Msr(d, l));
    assert LineOf(d, 0) == LineChanged(ops, 0) && LineOf(d, 1) == LineChanged(ops, 1);
    assert LineOf(d, 2) == LineChanged(ops, 2) && LineOf(d, 3) == LineChanged(ops, 3);
    assert LineOf(l, 0) == LineNow(ops, 0) && LineOf(l, 1) == LineNow(ops, 1);
    assert LineOf(l, 2) == LineNow(ops, 2) && LineOf(l, 3) == LineNow(ops, 3);
  }

  lemma NibbleValue(l: Lines, rest: nat)
    ensures Nibble(l, rest) == One(l.cts, 1) + One(l.dsr, 2) + One(l.ri, 4) + One(l.dcd, 8) + 16 * rest
  {
  }

  lemma {:induction false} MsrValue(r: Msr)
    ensures EncodeMsr(r)
         == One(r.delta.cts, 1) + One(r.delta.dsr, 2) + One(r.delta.ri, 4) + One(r.delta.dcd, 8)
            + One(r.state.cts, 16) + One(r.state.dsr, 32) + One(r.state.ri, 64) + One(r.state.dcd, 128)
  {
    hide Nibble;
    NibbleValue(r.state, 0);
    NibbleValue(r.delta, Nibble(r.state, 0));
  }

  /** In every reachable state every register reads as the history says. */
  lemma {:induction false} GuestReads(ops: seq<Op>, k: nat)
    ensures Value(After(ops), k) == Seen(ops, k)
  {
    hide After, Last, IirValue, IirSeen, MsrSeen, EncodeMsr, Accepted, Delivered, RejectedSince, EncodeIer, EncodeMcr;
    RegistersHold(ops);
    StateBits(ops);
    IirIs(ops);
    MsrIs(ops);
    WaitingIs(ops);
    ReceiveConserves(ops);
    ImagesRead(After(ops).ier, Last(ops, Reg.Ier), After(ops).mcr, Last(ops, Reg.Mcr));
  }

  lemma {:induction false} ImagesRead(i: UartModel.Ier, v: byte, m: UartModel.Mcr, w: byte)
    requires IerIs(i, v) && McrIs(m, w)
    ensures EncodeIer(i) == v % 16 && EncodeMcr(m) == w % 32
  {
    hide Bit, EncodeIer, EncodeMcr;
    Bits(v);
    Bits(w);
    assert i == DecodeIer(v) && m == DecodeMcr(w);
    RegisterImages(v);
    RegisterImages(w);
  }

  /** And the line last driven is high exactly when OUT2 is set and some source asks. */
  lemma {:induction false} LineSeen(ops: seq<Op>)
    ensures LastLevel(SinkCalls(ops)) <==> Last(ops, Reg.Mcr) / 8 % 2 == 1 && exists s :: Asks(ops, s)
  {
    hide After, Last, Asks, Raised, SinkCalls;
    LineIsRight(ops);
    RegistersHold(ops);
    forall s
      ensures Raised(After(ops), s) <==> Asks(ops, s)
    {
      AsksIs(ops, s);
    }
  }
}
