/**
 * 16550A UART: registers, FIFO and interrupt line (src/serial.rs). The bit-field registers IER, MCR and MSR are
 * held decoded, one boolean per bit; `Encode*` and `Decode*` are their byte images.
 */
module UartModel {
  import opened Bytes
  import opened Arith

  const FIFO_CAP := 4096

  function On(b: bool, weight: nat): nat { if b then weight else 0 }

  /** The number whose lowest bit is `b` and whose other bits are those of `rest`. */
  function Cat(b: bool, rest: nat): (v: nat) { On(b, 1) + 2 * rest }

  /** ERBFI, ETBEI, ELSI, EDSSI. */
  datatype Ier = Ier(data: bool, thre: bool, line: bool, modem: bool)

  function DecodeIer(v: byte): Ier { Ier(Bit(v, 0), Bit(v, 1), Bit(v, 2), Bit(v, 3)) }

  function EncodeIer(r: Ier): byte { Cat(r.data, Cat(r.thre, Cat(r.line, Cat(r.modem, 0)))) }

  datatype Mcr = Mcr(dtr: bool, rts: bool, out1: bool, out2: bool, loop: bool)

  function DecodeMcr(v: byte): Mcr { Mcr(Bit(v, 0), Bit(v, 1), Bit(v, 2), Bit(v, 3), Bit(v, 4)) }

  function EncodeMcr(r: Mcr): byte
  {
    Cat(r.dtr, Cat(r.rts, Cat(r.out1, Cat(r.out2, Cat(r.loop, 0)))))
  }

  /** The four modem status lines. */
  datatype Lines = Lines(cts: bool, dsr: bool, ri: bool, dcd: bool)

  /** Change bits in the low nibble, line states in the high one. */
  datatype Msr = Msr(delta: Lines, state: Lines)

  /** Four lines as a nibble above which stands `rest`. */
  function Nibble(d: Lines, rest: nat): nat { Cat(d.cts, Cat(d.dsr, Cat(d.ri, Cat(d.dcd, rest)))) }

  function EncodeMsr(r: Msr): byte { Nibble(r.delta, Nibble(r.state, 0)) }

  const QUIET := Lines(false, false, false, false)

  /** Always-connected default: CTS, DSR and DCD asserted, no ring. */
  const CONNECTED := Lines(true, true, false, true)

  datatype Uart = Uart(
    ier: Ier, mcr: Mcr, msr: Msr, lcr: byte, scr: byte, dll: byte, dlm: byte,
    fifoOn: bool, trigger: nat, rx: seq<byte>,
    overrun: bool, thre: bool, cti: bool, level: bool)

  const POWER_ON :=
    Uart(Ier(false, false, false, false), Mcr(false, false, false, false, false), Msr(QUIET, CONNECTED),
         0, 0, 0, 0, false, 0, [], false, false, false, false)

  predicate Dlab(u: Uart) { Bit(u.lcr, 7) }

  // ---- Interrupt sources ----

  /** Highest priority first. */
  datatype Source = LineStatus | DataAvailable | Timeout | TransmitEmpty | ModemStatus

  function Code(s: Source): byte
  {
    match s
    case LineStatus => 0x06
    case DataAvailable => 0x04
    case Timeout => 0x0c
    case TransmitEmpty => 0x02
    case ModemStatus => 0x00
  }

  function TriggerBytes(code: nat): (n: nat)
  {
    if code % 4 == 0 then 1 else if code % 4 == 1 then 4 else if code % 4 == 2 then 8 else 14
  }

  /** Receive level at which data is announced; one byte in 16450 mode. */
  function Threshold(u: Uart): nat { if u.fifoOn then TriggerBytes(u.trigger) else 1 }

  predicate AnyLine(d: Lines) { d.cts || d.dsr || d.ri || d.dcd }

  /** `pending_interrupt`: the first source in priority order whose condition holds. */
  function Pending(u: Uart): (s: Option<Source>)
  {
    if u.ier.line && u.overrun then Some(LineStatus)
    else if u.ier.data && |u.rx| >= Threshold(u) then Some(DataAvailable)
    else if u.ier.data && u.cti && u.rx != [] then Some(Timeout)
    else if u.ier.thre && u.thre then Some(TransmitEmpty)
    else if u.ier.modem && AnyLine(u.msr.delta) then Some(ModemStatus)
    else None
  }

  /** OUT2 gates the line. */
  predicate Asserted(u: Uart) { u.mcr.out2 && Pending(u).Some? }

  /** `update_irq`: bring the cached level up to date. */
  function Settle(u: Uart): Uart { u.(level := Asserted(u)) }

  /** The sink call that `update_irq` makes, if any: only on an edge. */
  function Edge(u: Uart): (calls: seq<bool>)
  {
    if Asserted(u) != u.level then [Asserted(u)] else []
  }

  // ---- Register accesses, before the line is brought up to date ----

  /** How many of the offered bytes the FIFO has room for. */
  function Taken(u: Uart, bytes: seq<byte>): (n: nat)
    ensures n <= |bytes|
  {
    Min(|bytes|, Max(0, FIFO_CAP - |u.rx|))
  }

  function InjectRaw(u: Uart, bytes: seq<byte>): (r: Uart)
    ensures r == u.(rx := r.rx, overrun := r.overrun, cti := r.cti)
  {
    var taken := Taken(u, bytes);
    u.(rx := u.rx + bytes[..taken], overrun := u.overrun || taken < |bytes|, cti := false)
  }

  function TickRaw(u: Uart, elapsed: bool): (r: Uart)
    ensures r == u.(cti := r.cti)
  {
    if u.rx != [] && u.fifoOn && |u.rx| < TriggerBytes(u.trigger) && elapsed then u.(cti := true) else u
  }

  function PopRaw(u: Uart): (r: Uart)
    ensures r == u.(rx := r.rx, cti := r.cti)
  {
    if u.rx == [] then u.(cti := false)
    else u.(rx := u.rx[1..], cti := u.cti && |u.rx| > 1)
  }

  function LsrValue(u: Uart): byte { 0x60 + On(u.rx != [], 1) + On(u.overrun, 2) }

  function IirValue(u: Uart): byte
  {
    (match Pending(u) case Some(s) => Code(s) case None => 0x01) + On(u.fifoOn, 0xc0)
  }

  function ThrRaw(u: Uart, b: byte): (r: Uart)
    ensures r == u.(rx := r.rx, overrun := r.overrun, thre := r.thre)
  {
    if !u.mcr.loop then u.(thre := true)
    else if |u.rx| >= FIFO_CAP then u.(overrun := true, thre := true)
    else u.(rx := u.rx + [b], thre := true)
  }

  function FcrRaw(u: Uart, v: byte): (r: Uart)
    ensures r == u.(fifoOn := r.fifoOn, trigger := r.trigger, rx := r.rx, cti := r.cti)
  {
    var on := Bit(v, 0);
    var u1 := u.(fifoOn := on, trigger := v / 64);
    if (on && !u.fifoOn) || Bit(v, 1) then u1.(rx := [], cti := false) else u1
  }

  /** DTR, RTS, OUT1, OUT2 looped back onto DSR, CTS, RI, DCD. */
  function Looped(m: Mcr): Lines { Lines(m.rts, m.dtr, m.out1, m.out2) }

  /** Lines that differ. */
  function Changed(a: Lines, b: Lines): Lines
  {
    Lines(a.cts != b.cts, a.dsr != b.dsr, a.ri != b.ri, a.dcd != b.dcd)
  }

  function Either(a: Lines, b: Lines): Lines
  {
    Lines(a.cts || b.cts, a.dsr || b.dsr, a.ri || b.ri, a.dcd || b.dcd)
  }

  function McrRaw(u: Uart, v: byte): (r: Uart)
    ensures r == u.(mcr := r.mcr, msr := r.msr, rx := r.rx, cti := r.cti)
  {
    var mcr := DecodeMcr(v);
    if mcr.loop then
      var lines := Looped(mcr);
      var msr := Msr(Either(u.msr.delta, Changed(u.msr.state, lines)), lines);
      if u.mcr.loop then u.(mcr := mcr, msr := msr) else u.(mcr := mcr, msr := msr, rx := [], cti := false)
    else if u.mcr.loop then u.(mcr := mcr, msr := Msr(u.msr.delta, CONNECTED))
    else u.(mcr := mcr)
  }

  // ---- Operations ----

  /** Everything the outside can do to the UART; `elapsed` says whether the receive timeout has passed. */
  datatype Op =
    | Read(offset: nat)
    | Write(offset: nat, value: byte)
    | Inject(bytes: seq<byte>)
    | Tick(elapsed: bool)
    | SwapSink

  /** State just before the last `update_irq` of a register read, and whether it makes that call. */
  function ReadRaw(u: Uart, offset: nat): (r: (Uart, bool))
  {
    if offset == 0 && !Dlab(u) then (PopRaw(u), true)
    else if offset == 2 then
      if Pending(u) == Some(TransmitEmpty) then (u.(thre := false), true) else (u, false)
    else if offset == 5 then (u.(overrun := false), true)
    else if offset == 6 then (u.(msr := Msr(QUIET, u.msr.state)), true)
    else (u, false)
  }

  function WriteRaw(u: Uart, offset: nat, v: byte): (r: (Uart, bool))
  {
    if offset == 0 then if Dlab(u) then (u.(dll := v), false) else (ThrRaw(u, v), true)
    else if offset == 1 then if Dlab(u) then (u.(dlm := v), false) else (u.(ier := DecodeIer(v)), true)
    else if offset == 2 then (FcrRaw(u, v), true)
    else if offset == 3 then (u.(lcr := v), false)
    else if offset == 4 then (McrRaw(u, v), true)
    else if offset == 7 then (u.(scr := v), false)
    else (u, false)
  }

  function Raw(u: Uart, op: Op): (r: (Uart, bool))
  {
    match op
    case Read(offset) => ReadRaw(u, offset)
    case Write(offset, v) => WriteRaw(u, offset, v)
    case Inject(bytes) => if u.mcr.loop then (u, false) else (InjectRaw(u, bytes), true)
    case Tick(elapsed) =>
      var u1 := TickRaw(u, elapsed);
      (u1, u1.cti != u.cti)
    case SwapSink => (u.(level := false), true)
  }

  function Apply(u: Uart, op: Op): (u': Uart)
  {
    var r := Raw(u, op);
    if r.1 then Settle(r.0) else r.0
  }

  /** Calls to the interrupt sink during the operation. */
  function Calls(u: Uart, op: Op): (calls: seq<bool>)
  {
    var r := Raw(u, op);
    if r.1 then Edge(r.0) else []
  }

  /** The byte a register read returns. */
  function Value(u: Uart, offset: nat): (b: byte)
  {
    if offset == 0 then if Dlab(u) then u.dll else if u.rx == [] then 0 else u.rx[0]
    else if offset == 1 then if Dlab(u) then u.dlm else EncodeIer(u.ier)
    else if offset == 2 then IirValue(u)
    else if offset == 3 then u.lcr
    else if offset == 4 then EncodeMcr(u.mcr)
    else if offset == 5 then LsrValue(u)
    else if offset == 6 then EncodeMsr(u.msr)
    else if offset == 7 then u.scr
    else 0xff
  }

  /** Bytes that reach the host during the operation. */
  function Emitted(u: Uart, op: Op): (bs: seq<byte>)
  {
    if op.Write? && op.offset == 0 && !Dlab(u) && !u.mcr.loop then [op.value] else []
  }

  // ---- Byte images ----

  lemma {:induction false} CatBit(b: bool, rest: nat, k: nat)
    ensures Bit(Cat(b, rest), 0) == b && Bit(Cat(b, rest), k + 1) == Bit(rest, k)
  {
    assert Cat(b, rest) / 2 == rest;
  }

  /** The lowest bit and the others make up the number, at every width. */
  lemma {:induction false} CatMod(v: nat, m: nat)
    requires m > 0
    ensures v % (2 * m) == Cat(Bit(v, 0), v / 2 % m)
  {
    ModHalf(v, m);
  }

  lemma BitBelow(v: nat, k: nat)
    ensures Bit(v, k + 1) == Bit(v / 2, k)
  {
  }

  /** Writing IER or MCR and reading it back gives the implemented bits: the masks 0x0f and 0x1f. */
  lemma {:induction false} RegisterImages(v: byte)
    ensures EncodeIer(DecodeIer(v)) == v % 16 && EncodeMcr(DecodeMcr(v)) == v % 32
  {
    hide Cat, Bit;
    var v1 := v / 2;
    var v2 := v1 / 2;
    var v3 := v2 / 2;
    var v4 := v3 / 2;
    BitBelow(v, 0);
    BitBelow(v, 1);
    BitBelow(v1, 0);
    BitBelow(v, 2);
    BitBelow(v1, 1);
    BitBelow(v2, 0);
    BitBelow(v, 3);
    BitBelow(v1, 2);
    BitBelow(v2, 1);
    BitBelow(v3, 0);
    CatMod(v, 8);
    CatMod(v1, 4);
    CatMod(v2, 2);
    CatMod(v3, 1);
    CatMod(v, 16);
    CatMod(v1, 8);
    CatMod(v2, 4);
    CatMod(v3, 2);
    CatMod(v4, 1);
  }

  lemma {:induction false} NibbleBits(d: Lines, rest: nat, k: nat)
    ensures var v := Nibble(d, rest);
            && Bit(v, 0) == d.cts && Bit(v, 1) == d.dsr && Bit(v, 2) == d.ri && Bit(v, 3) == d.dcd
            && Bit(v, k + 4) == Bit(rest, k)
  {
    hide Cat, Bit;
    var c := Cat(d.dcd, rest);
    var b := Cat(d.ri, c);
    var a := Cat(d.dsr, b);
    CatBit(d.dcd, rest, k);
    CatBit(d.ri, c, 0);
    CatBit(d.ri, c, k + 1);
    CatBit(d.dsr, b, 0);
    CatBit(d.dsr, b, 1);
    CatBit(d.dsr, b, k + 2);
    CatBit(d.cts, a, 0);
    CatBit(d.cts, a, 1);
    CatBit(d.cts, a, 2);
    CatBit(d.cts, a, k + 3);
  }

  /** Each MSR bit reads back where the data sheet puts it. */
  lemma {:induction false} MsrImage(r: Msr)
    ensures var b := EncodeMsr(r);
            && Bit(b, 0) == r.delta.cts && Bit(b, 1) == r.delta.dsr
            && Bit(b, 2) == r.delta.ri && Bit(b, 3) == r.delta.dcd
            && Bit(b, 4) == r.state.cts && Bit(b, 5) == r.state.dsr
            && Bit(b, 6) == r.state.ri && Bit(b, 7) == r.state.dcd
  {
    hide Nibble, Bit;
    var high := Nibble(r.state, 0);
    NibbleBits(r.state, 0, 0);
    NibbleBits(r.delta, high, 0);
    NibbleBits(r.delta, high, 1);
    NibbleBits(r.delta, high, 2);
    NibbleBits(r.delta, high, 3);
  }
}
