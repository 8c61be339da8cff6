/** What the UART guarantees over every sequence of accesses, injections, ticks and sink swaps. */
module UartRuns {
  import opened Bytes
  import opened UartModel

  /** The UART after the operations, starting from power-on. */
  ghost function After(ops: seq<Op>): (u: Uart)
    decreases |ops|
  {
    if ops == [] then POWER_ON else Apply(After(ops[..|ops| - 1]), ops[|ops| - 1])
  }

  // ---- The interrupt line ----

  /** Source `s` is enabled and has something to report. */
  predicate Raised(u: Uart, s: Source)
  {
    match s
    case LineStatus => u.ier.line && u.overrun
    case DataAvailable => u.ier.data && |u.rx| >= Threshold(u)
    case Timeout => u.ier.data && u.cti && u.rx != []
    case TransmitEmpty => u.ier.thre && u.thre
    case ModemStatus => u.ier.modem && AnyLine(u.msr.delta)
  }

  function Priority(s: Source): nat
  {
    match s
    case LineStatus => 4
    case DataAvailable => 3
    case Timeout => 2
    case TransmitEmpty => 1
    case ModemStatus => 0
  }

  /** The source reported is the raised one of highest priority; none is reported exactly when none is raised. */
  lemma {:induction false} HighestPriority(u: Uart)
    ensures Pending(u).None? <==> forall s :: !Raised(u, s)
    ensures forall s :: Pending(u) == Some(s) <==>
              Raised(u, s) && forall t :: Raised(u, t) ==> Priority(t) <= Priority(s)
  {
    if Pending(u).None? {
      forall s
        ensures !Raised(u, s)
      {
      }
    } else {
      assert Raised(u, Pending(u).value);
      forall s | Raised(u, s) && forall t :: Raised(u, t) ==> Priority(t) <= Priority(s)
        ensures Pending(u) == Some(s)
      {
        assert Priority(Pending(u).value) <= Priority(s);
      }
    }
  }

  /** The low bits of IIR name that source: bit 0 clear and its code, or bit 0 set. */
  lemma IirNames(u: Uart)
    ensures Pending(u).None? <==> IirValue(u) % 16 == 1
    ensures forall s :: Pending(u) == Some(s) <==> IirValue(u) % 16 == Code(s)
  {
  }

  /** Calls made to the current sink, oldest first. */
  ghost function SinkCalls(ops: seq<Op>): (calls: seq<bool>)
    decreases |ops|
  {
    if ops == [] then []
    else
      var n := |ops| - 1;
      var u := After(ops[..n]);
      if ops[n].SwapSink? then Calls(u, ops[n]) else SinkCalls(ops[..n]) + Calls(u, ops[n])
  }

  ghost predicate Alternates(calls: seq<bool>)
  {
    forall i :: 0 <= i < |calls| ==> calls[i] == (i % 2 == 0)
  }

  function LastLevel(calls: seq<bool>): bool { if calls == [] then false else calls[|calls| - 1] }

  /** Everything the interrupt line depends on, and the cached level itself, is the same. */
  predicate SameForLine(u: Uart, v: Uart)
  {
    v == u.(lcr := v.lcr, scr := v.scr, dll := v.dll, dlm := v.dlm)
  }

  /** An operation that does not call `update_irq` does not need to. */
  lemma {:induction false} UnsettledIsSame(u: Uart, op: Op)
    requires !Raw(u, op).1
    ensures SameForLine(u, Raw(u, op).0)
  {
    hide Pending, Bit, PopRaw, ThrRaw, FcrRaw, McrRaw, InjectRaw, ReadRaw, WriteRaw;
    match op
    case Read(offset) => UnsettledRead(u, offset);
    case Write(offset, v) => UnsettledWrite(u, offset, v);
    case _ =>
  }

  lemma {:induction false} UnsettledRead(u: Uart, offset: nat)
    requires !ReadRaw(u, offset).1
    ensures ReadRaw(u, offset).0 == u
  {
    hide Pending, Bit, PopRaw;
  }

  lemma {:induction false} UnsettledWrite(u: Uart, offset: nat, v: byte)
    requires !WriteRaw(u, offset, v).1
    ensures SameForLine(u, WriteRaw(u, offset, v).0)
  {
    hide Pending, Bit, ThrRaw, FcrRaw, McrRaw;
  }

  lemma SameLine(u: Uart, v: Uart)
    requires SameForLine(u, v)
    ensures Asserted(u) == Asserted(v)
  {
  }

  lemma SettledIsRight(u: Uart)
    ensures Settle(u).level == Asserted(u) == Asserted(Settle(u))
  {
  }

  /** The cached level is right again after every operation, also after those that do not recompute it. */
  lemma {:induction false} LevelStaysRight(u: Uart, op: Op)
    requires u.level == Asserted(u)
    ensures Apply(u, op).level == Asserted(Apply(u, op))
  {
    hide Raw, Settle, Asserted;
    if Raw(u, op).1 {
      SettledIsRight(Raw(u, op).0);
    } else {
      UnsettledIsSame(u, op);
      SameLine(u, Raw(u, op).0);
    }
  }

  lemma {:induction false} RawKeepsLevel(u: Uart, op: Op)
    requires !op.SwapSink?
    ensures Raw(u, op).0.level == u.level
  {
    hide Pending, Bit, PopRaw, ThrRaw, FcrRaw, McrRaw, InjectRaw, TickRaw, ReadRaw, WriteRaw;
    match op
    case Read(offset) => ReadKeepsLevel(u, offset);
    case Write(offset, v) => WriteKeepsLevel(u, offset, v);
    case _ =>
  }

  lemma {:induction false} ReadKeepsLevel(u: Uart, offset: nat)
    ensures ReadRaw(u, offset).0.level == u.level
  {
    hide Pending, Bit, PopRaw;
  }

  lemma {:induction false} WriteKeepsLevel(u: Uart, offset: nat, v: byte)
    ensures WriteRaw(u, offset, v).0.level == u.level
  {
    hide Bit, ThrRaw, FcrRaw, McrRaw, DecodeIer;
  }

  lemma {:induction false} EdgeExtends(calls: seq<bool>, u: Uart)
    requires Alternates(calls) && LastLevel(calls) == u.level
    ensures Alternates(calls + Edge(u)) && LastLevel(calls + Edge(u)) == Asserted(u)
  {
    hide Pending;
    var n := |calls|;
    if calls != [] {
      assert calls[n - 1] == ((n - 1) % 2 == 0);
    }
  }

  lemma {:induction false} CallsExtend(calls: seq<bool>, u: Uart, op: Op)
    requires Alternates(calls) && LastLevel(calls) == u.level && !op.SwapSink?
    ensures Alternates(calls + Calls(u, op)) && LastLevel(calls + Calls(u, op)) == Apply(u, op).level
  {
    hide Raw, Asserted, Settle, Edge, Alternates, LastLevel;
    var r := Raw(u, op);
    RawKeepsLevel(u, op);
    if r.1 {
      SettledIsRight(r.0);
      EdgeExtends(calls, r.0);
    } else {
      assert calls + [] == calls;
    }
  }

  lemma {:induction false} SwapRestarts(u: Uart)
    ensures Alternates(Calls(u, SwapSink)) && LastLevel(Calls(u, SwapSink)) == Apply(u, SwapSink).level
  {
    hide Pending;
    var u1 := u.(level := false);
    EdgeExtends([], u1);
    assert [] + Edge(u1) == Edge(u1);
  }

  /**
   * In every reachable state the level last sent to the current sink (low if none was) says whether OUT2 is set
   * and some enabled source is raised, and the calls each sink receives alternate, beginning with an assertion.
   */
  lemma {:induction false} LineIsRight(ops: seq<Op>)
    ensures var u := After(ops); var calls := SinkCalls(ops);
            && Alternates(calls)
            && u.level == LastLevel(calls) == (u.mcr.out2 && exists s :: Raised(u, s))
    decreases |ops|
  {
    hide Apply, Calls, Alternates, LastLevel, Raised, Pending;
    HighestPriority(After(ops));
    LineIsRightCached(ops);
  }

  lemma {:induction false} LineIsRightCached(ops: seq<Op>)
    ensures var u := After(ops); var calls := SinkCalls(ops);
            Alternates(calls) && u.level == LastLevel(calls) == Asserted(u)
    decreases |ops|
  {
    hide Apply, Calls, Pending;
    if ops == [] {
      PowerOnQuiet();
    } else {
      var n := |ops| - 1;
      LineIsRightCached(ops[..n]);
      var u := After(ops[..n]);
      LevelStaysRight(u, ops[n]);
      if ops[n].SwapSink? {
        SwapRestarts(u);
      } else {
        CallsExtend(SinkCalls(ops[..n]), u, ops[n]);
      }
    }
  }

  lemma PowerOnQuiet()
    ensures !Asserted(POWER_ON) && !POWER_ON.level
  {
  }

  // ---- Receive path ----

  /** Bytes the operation puts into the FIFO. */
  function Accepts(u: Uart, op: Op): (bs: seq<byte>)
  {
    match op
    case Inject(bytes) => if u.mcr.loop then [] else bytes[..Min(|bytes|, Max(0, 4096 - |u.rx|))]
    case Write(offset, v) => if offset == 0 && !Dlab(u) && u.mcr.loop && |u.rx| < 4096 then [v] else []
    case _ => []
  }

  /** Bytes the operation hands to the guest: what the register read returned. */
  function Delivers(u: Uart, op: Op): (bs: seq<byte>)
  {
    if op.Read? && op.offset == 0 && !Dlab(u) && u.rx != [] then [Value(u, 0)] else []
  }

  /** The FIFO is thrown away: FCR enable edge or clear bit, or entry into loopback. */
  predicate Discards(u: Uart, op: Op)
  {
    && op.Write?
    && ((op.offset == 2 && ((Bit(op.value, 0) && !u.fifoOn) || Bit(op.value, 1)))
        || (op.offset == 4 && Bit(op.value, 4) && !u.mcr.loop))
  }

  /** Some byte found the FIFO full. */
  predicate Rejects(u: Uart, op: Op)
  {
    match op
    case Inject(bytes) => !u.mcr.loop && |bytes| > Max(0, 4096 - |u.rx|)
    case Write(offset, _) => offset == 0 && !Dlab(u) && u.mcr.loop && |u.rx| >= 4096
    case _ => false
  }

  predicate ReadsLsr(op: Op) { op.Read? && op.offset == 5 }

  /** Bytes accepted since the FIFO was last discarded. */
  ghost function Accepted(ops: seq<Op>): (bs: seq<byte>)
    decreases |ops|
  {
    if ops == [] then []
    else
      var n := |ops| - 1;
      var u := After(ops[..n]);
      if Discards(u, ops[n]) then [] else Accepted(ops[..n]) + Accepts(u, ops[n])
  }

  /** Bytes delivered since then. */
  ghost function Delivered(ops: seq<Op>): (bs: seq<byte>)
    decreases |ops|
  {
    if ops == [] then []
    else
      var n := |ops| - 1;
      var u := After(ops[..n]);
      if Discards(u, ops[n]) then [] else Delivered(ops[..n]) + Delivers(u, ops[n])
  }

  /** A byte was rejected since LSR was last read. */
  ghost predicate RejectedSince(ops: seq<Op>)
    decreases |ops|
  {
    ops != [] &&
    var n := |ops| - 1;
    !ReadsLsr(ops[n]) && (RejectedSince(ops[..n]) || Rejects(After(ops[..n]), ops[n]))
  }

  /** What one operation does to the FIFO and the receive flags, seen as a relation of before and after. */
  ghost predicate FifoStepped(u: Uart, op: Op, rx: seq<byte>, cti: bool, overrun: bool)
  {
    && |rx| <= 4096 && (cti ==> rx != [])
    && (Discards(u, op) ==> rx == [])
    && (!Discards(u, op) ==> Delivers(u, op) + rx == u.rx + Accepts(u, op))
    && overrun == (!ReadsLsr(op) && (u.overrun || Rejects(u, op)))
  }

  lemma {:induction false} ReadFifo(u: Uart, offset: nat)
    requires |u.rx| <= 4096 && (u.cti ==> u.rx != [])
    ensures var r := ReadRaw(u, offset).0; FifoStepped(u, Read(offset), r.rx, r.cti, r.overrun)
  {
    hide Pending, Bit, PopRaw, FifoStepped;
    if offset == 0 && !Dlab(u) {
      PopFifo(u);
    } else {
      PlainReadFifo(u, offset);
    }
  }

  lemma {:induction false} PopFifo(u: Uart)
    requires |u.rx| <= 4096 && (u.cti ==> u.rx != []) && !Dlab(u)
    ensures var r := PopRaw(u); FifoStepped(u, Read(0), r.rx, r.cti, r.overrun)
  {
    hide Bit;
    if u.rx != [] {
      assert [u.rx[0]] + u.rx[1..] == u.rx;
    }
  }

  lemma {:induction false} PlainReadFifo(u: Uart, offset: nat)
    requires |u.rx| <= 4096 && (u.cti ==> u.rx != []) && (offset == 0 ==> Dlab(u))
    ensures FifoStepped(u, Read(offset), u.rx, u.cti, offset != 5 && u.overrun)
  {
    hide Bit, Value;
  }

  lemma {:induction false} ThrFifo(u: Uart, v: byte)
    requires |u.rx| <= 4096 && (u.cti ==> u.rx != []) && !Dlab(u)
    ensures var r := ThrRaw(u, v); FifoStepped(u, Write(0, v), r.rx, r.cti, r.overrun)
  {
    hide Bit;
  }

  lemma {:induction false} FcrFifo(u: Uart, v: byte)
    requires |u.rx| <= 4096 && (u.cti ==> u.rx != [])
    ensures var r := FcrRaw(u, v); FifoStepped(u, Write(2, v), r.rx, r.cti, r.overrun)
  {
    hide Bit;
  }

  lemma {:induction false} McrFifo(u: Uart, v: byte)
    requires |u.rx| <= 4096 && (u.cti ==> u.rx != [])
    ensures var r := McrRaw(u, v); FifoStepped(u, Write(4, v), r.rx, r.cti, r.overrun)
  {
    hide Bit, Looped, Changed, Either;
  }

  lemma {:induction false} PlainWriteFifo(u: Uart, offset: nat, v: byte)
    requires |u.rx| <= 4096 && (u.cti ==> u.rx != [])
    requires offset != 2 && offset != 4 && (offset == 0 ==> Dlab(u))
    ensures FifoStepped(u, Write(offset, v), u.rx, u.cti, u.overrun)
  {
    hide Bit;
  }

  lemma {:induction false} WriteFifo(u: Uart, offset: nat, v: byte)
    requires |u.rx| <= 4096 && (u.cti ==> u.rx != [])
    ensures var r := WriteRaw(u, offset, v).0; FifoStepped(u, Write(offset, v), r.rx, r.cti, r.overrun)
  {
    hide Bit, ThrRaw, FcrRaw, McrRaw, DecodeIer, FifoStepped;
    if offset == 0 && !Dlab(u) {
      ThrFifo(u, v);
    } else if offset == 2 {
      FcrFifo(u, v);
    } else if offset == 4 {
      McrFifo(u, v);
    } else {
      PlainWriteFifo(u, offset, v);
    }
  }

  lemma {:induction false} InjectFifo(u: Uart, bytes: seq<byte>)
    requires |u.rx| <= 4096 && (u.cti ==> u.rx != [])
    ensures var r := if u.mcr.loop then u else InjectRaw(u, bytes);
            FifoStepped(u, Inject(bytes), r.rx, r.cti, r.overrun)
  {
    hide Bit;
  }

  lemma {:induction false} FifoStep(u: Uart, op: Op)
    requires |u.rx| <= 4096 && (u.cti ==> u.rx != [])
    ensures var u' := Apply(u, op); FifoStepped(u, op, u'.rx, u'.cti, u'.overrun)
  {
    hide ReadRaw, WriteRaw, InjectRaw, Asserted, FifoStepped, TickRaw;
    match op
    case Read(offset) => ReadFifo(u, offset);
    case Write(offset, v) => WriteFifo(u, offset, v);
    case Inject(bytes) => InjectFifo(u, bytes);
    case Tick(elapsed) => TickFifo(u, elapsed);
    case SwapSink => SwapFifo(u);
  }

  lemma TickFifo(u: Uart, elapsed: bool)
    requires |u.rx| <= 4096 && (u.cti ==> u.rx != [])
    ensures var r := TickRaw(u, elapsed); FifoStepped(u, Tick(elapsed), r.rx, r.cti, r.overrun)
  {
  }

  lemma SwapFifo(u: Uart)
    requires |u.rx| <= 4096 && (u.cti ==> u.rx != [])
    ensures FifoStepped(u, SwapSink, u.rx, u.cti, u.overrun)
  {
  }

  /**
   * In every reachable state: bytes delivered since the last discard followed by the FIFO are the bytes accepted
   * since then, in order; the FIFO never exceeds its capacity; a character timeout is pending only while it holds
   * data; and the overrun latch says whether a byte was rejected since LSR was last read.
   */
  lemma {:induction false} ReceiveConserves(ops: seq<Op>)
    ensures var u := After(ops);
            && Delivered(ops) + u.rx == Accepted(ops)
            && |u.rx| <= 4096 && (u.cti ==> u.rx != [])
            && u.overrun == RejectedSince(ops)
    decreases |ops|
  {
    hide Apply, Accepts, Delivers, Discards, Rejects, ReadsLsr;
    if ops != [] {
      var n := |ops| - 1;
      ReceiveConserves(ops[..n]);
      var u := After(ops[..n]);
      FifoStep(u, ops[n]);
      if !Discards(u, ops[n]) {
        Regroup(Delivered(ops[..n]), u.rx, Accepts(u, ops[n]), Delivers(u, ops[n]), After(ops).rx);
      }
    }
  }

  lemma {:induction false} Regroup(before: seq<byte>, rx: seq<byte>, acc: seq<byte>, del: seq<byte>, rx': seq<byte>)
    requires del + rx' == rx + acc
    ensures (before + del) + rx' == (before + rx) + acc
  {
    assert (before + del) + rx' == before + (del + rx');
    assert (before + rx) + acc == before + (rx + acc);
  }

  /** LSR reports overrun exactly then, and data ready exactly when the FIFO holds a byte. */
  lemma {:induction false} LsrReports(ops: seq<Op>)
    ensures var lsr := Value(After(ops), 5);
            (lsr / 2 % 2 == 1 <==> RejectedSince(ops)) && (lsr % 2 == 1 <==> After(ops).rx != [])
  {
    hide After, RejectedSince;
    ReceiveConserves(ops);
  }

  // ---- Modem status ----

  /** The modem lines the guest should see: looped back from MCR, or the connected default. */
  function LineStates(u: Uart): Lines { if u.mcr.loop then Looped(u.mcr) else CONNECTED }

  predicate ReadsMsr(op: Op) { op.Read? && op.offset == 6 }

  /** Lines changed by MCR writes that left the UART in loopback, since MSR was last read. */
  ghost function ChangedSince(ops: seq<Op>): (d: Lines)
    decreases |ops|
  {
    if ops == [] then QUIET
    else
      var n := |ops| - 1;
      var u, u' := After(ops[..n]), After(ops);
      if ReadsMsr(ops[n]) then QUIET
      else if ops[n].Write? && ops[n].offset == 4 && u'.mcr.loop then
        Either(ChangedSince(ops[..n]), Changed(LineStates(u), LineStates(u')))
      else ChangedSince(ops[..n])
  }

  lemma {:induction false} ModemStep(u: Uart, op: Op)
    requires u.msr.state == LineStates(u)
    ensures var u' := Apply(u, op);
            && u'.msr.state == LineStates(u')
            && (ReadsMsr(op) ==> u'.msr.delta == QUIET)
            && (op.Write? && op.offset == 4 && u'.mcr.loop ==>
                  u'.msr.delta == Either(u.msr.delta, Changed(LineStates(u), LineStates(u'))))
            && (!ReadsMsr(op) && !(op.Write? && op.offset == 4 && u'.mcr.loop) ==> u'.msr.delta == u.msr.delta)
  {
    hide Raw, Asserted, DecodeMcr, McrRaw;
    if op.Write? && op.offset == 4 {
      RawMcr(u, op.value);
      McrModem(u, op.value);
    } else {
      OtherModem(u, op);
    }
  }

  lemma {:induction false} RawMcr(u: Uart, v: byte)
    ensures Raw(u, Write(4, v)) == (McrRaw(u, v), true)
  {
    hide McrRaw, ReadRaw;
  }

  lemma {:induction false} McrModem(u: Uart, v: byte)
    requires u.msr.state == LineStates(u)
    ensures var u' := McrRaw(u, v);
            && u'.msr.state == LineStates(u')
            && (u'.mcr.loop ==> u'.msr.delta == Either(u.msr.delta, Changed(LineStates(u), LineStates(u'))))
            && (!u'.mcr.loop ==> u'.msr.delta == u.msr.delta)
  {
    hide DecodeMcr;
  }

  lemma {:induction false} OtherModem(u: Uart, op: Op)
    requires !(op.Write? && op.offset == 4)
    ensures var u' := Raw(u, op).0;
            u'.mcr == u.mcr && u'.msr == if ReadsMsr(op) then Msr(QUIET, u.msr.state) else u.msr
  {
    hide Pending, Bit, McrRaw, DecodeIer, InjectRaw, TickRaw, ReadRaw, WriteRaw;
    match op
    case Read(offset) => ReadModem(u, offset);
    case Write(offset, v) => WriteModem(u, offset, v);
    case _ =>
  }

  lemma {:induction false} ReadModem(u: Uart, offset: nat)
    ensures var u' := ReadRaw(u, offset).0;
            u'.mcr == u.mcr && u'.msr == if offset == 6 then Msr(QUIET, u.msr.state) else u.msr
  {
    hide Pending, Bit, PopRaw;
  }

  lemma {:induction false} WriteModem(u: Uart, offset: nat, v: byte)
    requires offset != 4
    ensures var u' := WriteRaw(u, offset, v).0; u'.mcr == u.mcr && u'.msr == u.msr
  {
    hide Bit, ThrRaw, FcrRaw, McrRaw, DecodeIer;
  }

  /** In every reachable state both halves of MSR are what the modem lines and their history say. */
  lemma {:induction false} ModemStatusIsRight(ops: seq<Op>)
    ensures After(ops).msr == Msr(ChangedSince(ops), LineStates(After(ops)))
    decreases |ops|
  {
    hide Apply, LineStates, Changed, Either;
    if ops == [] {
      PowerOnLines();
    } else {
      var n := |ops| - 1;
      ModemStatusIsRight(ops[..n]);
      ModemStep(After(ops[..n]), ops[n]);
    }
  }

  lemma PowerOnLines()
    ensures POWER_ON.msr == Msr(QUIET, LineStates(POWER_ON))
  {
  }
}
