/** The configuration space a virtio function advertises, and what no guest write can change in it. */
module PciConfig {
  import opened Arith
  import opened Bytes
  import Le
  import opened PciModel
  import opened Memory

  const COMMON_CAP := 0x40
  const NOTIFY_CAP := 0x50
  const ISR_CAP := 0x64
  const DEVICE_CAP := 0x74
  const MSIX_CAP := 0x84

  /** One vendor capability, pointing at `barLen` bytes at `barOffset` of BAR0. */
  function WriteCap(c: seq<byte>, at: nat, next: byte, len: byte, kind: byte, barOffset: u32, barLen: u32)
    : (r: seq<byte>)
    requires at + 16 <= |c|
    ensures |r| == |c|
  {
    SetU32(SetU32(c[at := 0x09][at + 1 := next][at + 2 := len][at + 3 := kind]
                  [at + 4 := 0][at + 5 := 0][at + 6 := 0][at + 7 := 0],
                  at + 8, barOffset), at + 12, barLen)
  }

  /** The header: identifiers, status, class, capability pointer, interrupt line and pin. */
  function Header(id: u32, irqLine: byte): (c: seq<byte>)
    ensures |c| == 256
  {
    var ids := SetU16(SetU16(Zeros(256), 0x00, 0x1af4), 0x02, (0x1040 + id % POW16) % POW16);
    var top := SetU16(SetU16(ids, 0x04, 0), 0x06, 0x0010);
    var classed := top[0x08 := 1][0x09 := 0][0x0a := 0][0x0b := if id == 2 then 0x01 else 0xff][0x0e := 0];
    var subsystem := SetU16(SetU16(SetU32(classed, 0x10, 0), 0x2c, 0x1af4), 0x2e, id % POW16);
    subsystem[0x34 := COMMON_CAP][0x3c := irqLine][0x3d := 1]
  }

  function Caps(c: seq<byte>): (r: seq<byte>)
    requires |c| == 256
    ensures |r| == 256
  {
    var common := WriteCap(c, COMMON_CAP, NOTIFY_CAP, 0x10, 1, 0, COMMON_END);
    var notify := WriteCap(common, NOTIFY_CAP, ISR_CAP, 0x14, 2, NOTIFY_OFFSET, 0x10);
    var isr := WriteCap(SetU32(notify, NOTIFY_CAP + 16, 0), ISR_CAP, DEVICE_CAP, 0x10, 3, ISR_OFFSET, 0x10);
    WriteCap(isr, DEVICE_CAP, MSIX_CAP, 0x10, 4, DEVICE_OFFSET, 0x100)
  }

  /** The table size field holds one less than the number of vectors, modulo 2^16. */
  function SizeField(numVectors: u16): (v: u16) { (numVectors + (POW16 - 1)) % POW16 }

  function MsixCap(c: seq<byte>, numVectors: u16): (r: seq<byte>)
    requires |c| == 256
    ensures |r| == 256
  {
    SetU32(SetU32(SetU16(c[MSIX_CAP := 0x11][MSIX_CAP + 1 := 0], MSIX_CAP + 2, SizeField(numVectors)),
                  MSIX_CAP + 4, TABLE_OFFSET), MSIX_CAP + 8, PBA_OFFSET)
  }

  /** `build_config`. */
  function BuildConfig(id: u32, irqLine: byte, numVectors: u16): (c: seq<byte>)
    ensures |c| == 256
  {
    MsixCap(Caps(Header(id, irqLine)), numVectors)
  }

  /** One vector per queue and one for configuration changes, cut to 16 bits. */
  function Vectors(numQueues: nat): (n: u16) { (numQueues + 1) % POW16 }

  /** `new`: every vector masked. */
  function NewDevice(id: u32, irqLine: byte, numQueues: nat): (d: Pci)
    ensures d.Shaped()
  {
    Fresh(BuildConfig(id, irqLine, Vectors(numQueues)), NewTable(Vectors(numQueues)), numQueues)
  }

  // ---- What configuration writes keep ----

  predicate Writable(i: nat)
  {
    i == 0x04 || i == 0x05 || 0x10 <= i <= 0x13 || i == 0x3c || i == 0x87
  }

  /** `c` differs from `b` only in writable bits. */
  ghost predicate Keeps(b: seq<byte>, c: seq<byte>)
    requires |b| == |c| == 256
  {
    && (forall i :: 0 <= i < 256 && !Writable(i) ==> c[i] == b[i])
    && c[0x87] % 64 == b[0x87] % 64
  }

  predicate BarAligned(c: seq<byte>)
    requires |c| == 256
  {
    U32At(c, 0x10) % 0x1000 == 0
  }

  lemma {:induction false} WriteByteKeeps(b: seq<byte>, c: seq<byte>, off: nat, v: byte)
    requires |b| == |c| == 256 && Keeps(b, c)
    ensures Keeps(b, WriteByte(c, off, v))
  {
    TopBits(v, c[0x87]);
  }

  lemma {:induction false} TopBits(v: byte, was: byte)
    ensures 0 <= v - v % 64 + was % 64 < 0x100 && (v - v % 64 + was % 64) % 64 == was % 64
  {
    var q: int := v / 64;
    assert v - v % 64 == 64 * q;
  }

  lemma {:induction false} WriteBytesKeeps(b: seq<byte>, c: seq<byte>, offset: u64, data: seq<byte>)
    requires |b| == |c| == 256 && Keeps(b, c)
    ensures Keeps(b, WriteBytes(c, offset, data))
    decreases |data|
  {
    hide Keeps, WriteByte, Wrap64;
    if data != [] {
      var n := |data| - 1;
      WriteBytesKeeps(b, c, offset, data[..n]);
      WriteByteKeeps(b, WriteBytes(c, offset, data[..n]), Wrap64(offset + n), data[n]);
    }
  }

  lemma SetReads(c: seq<byte>, at: nat, v: u32)
    requires at + 4 <= |c|
    ensures U32At(SetU32(c, at, v), at) == v
    ensures forall i :: 0 <= i < |c| && !(at <= i < at + 4) ==> SetU32(c, at, v)[i] == c[i]
  {
  }

  lemma {:induction false} AlignKeeps(b: seq<byte>, c: seq<byte>)
    requires |b| == |c| == 256 && Keeps(b, c)
    ensures Keeps(b, AlignBar(c)) && BarAligned(AlignBar(c))
    ensures AlignBar(c)[0x87] == c[0x87]
  {
    hide SetU32, U32At;
    var bar: int := U32At(c, 0x10);
    SetReads(c, 0x10, bar - bar % 0x1000);
    DropLow(bar);
  }

  lemma DropLow(x: nat)
    ensures (x - x % 0x1000) % 0x1000 == 0
  {
  }

  lemma {:induction false} DeliverConfig(d: Pci)
    requires d.Shaped()
    ensures var e := Deliver(d).dev; e.config == d.config && e.table == d.table
  {
    hide DeliverTo;
  }

  /** One access of any kind. */
  lemma {:induction false} StepKeeps(b: seq<byte>, d: Pci, op: Op)
    requires d.Shaped() && |b| == 256 && Keeps(b, d.config) && BarAligned(d.config)
    ensures var e := Step(d, op).dev; Keeps(b, e.config) && BarAligned(e.config) && |e.table| == |d.table|
  {
    hide Keeps, BarAligned, WriteBytes, AlignBar, Deliver, EntryWrite, QueueWrite, SignalMsix;
    match op
    case WriteConfig(offset, data) =>
      var c := WriteBytes(d.config, offset, data);
      WriteBytesKeeps(b, d.config, offset, data);
      AlignKeeps(b, c);
      DeliverConfig(d.(config := AlignBar(c)));
    case WriteBar(offset, data, a) =>
      BarKeeps(d, offset, data, a);
    case _ =>
  }

  lemma {:induction false} CommonConfig(d: Pci, offset: nat, value: u64)
    requires d.Shaped()
    ensures var e := CommonWrite(d, offset, value).dev; e.config == d.config && e.table == d.table
  {
    hide QueueWrite, WithLow, WithHigh;
  }

  lemma NotifyConfig(d: Pci, queue: nat, a: Answer)
    requires d.Shaped()
    ensures var e := Notify(d, queue, a).dev; e.config == d.config && e.table == d.table
  {
  }

  lemma {:induction false} BarKeeps(d: Pci, offset: u64, data: seq<byte>, a: Answer)
    requires d.Shaped()
    ensures var e := MmioWrite(d, offset, data, a).dev; e.config == d.config && |e.table| == |d.table|
  {
    hide Deliver, EntryWrite, CommonWrite, Notify, Le.Taken;
    CommonConfig(d, offset, Le.Taken(data));
    NotifyConfig(d, Le.Taken(data), a);
    if TABLE_OFFSET <= offset < TABLE_OFFSET + 16 * |d.table| {
      var rel := offset - TABLE_OFFSET;
      DeliverConfig(EntrySet(d, rel, Le.Taken(data)));
    }
  }

  lemma {:induction false} RunKeeps(d: Pci, ops: seq<Op>)
    requires d.Shaped() && BarAligned(d.config)
    ensures var e := Run(d, ops).dev; Keeps(d.config, e.config) && BarAligned(e.config) && |e.table| == |d.table|
    decreases |ops|
  {
    hide Step, BarAligned;
    if ops != [] {
      RunKeeps(d, ops[..|ops| - 1]);
      StepKeeps(d.config, Run(d, ops[..|ops| - 1]).dev, ops[|ops| - 1]);
    }
  }

  // ---- An independent reader of the capability list ----

  datatype Cap = Cap(at: nat, id: byte, len: nat, kind: byte, barOffset: u32, barLen: u32)

  /** Decode the capability at `p`: a vendor one carries its own length, an MSI-X one is twelve bytes. */
  function ReadCap(c: seq<byte>, p: byte): (cap: Cap)
    requires |c| == 256 && p + 16 <= 256
  {
    if c[p] == 0x11 then Cap(p, 0x11, 12, 0, U32At(c, p + 4), U32At(c, p + 8))
    else Cap(p, c[p], c[p + 2], c[p + 3], U32At(c, p + 8), U32At(c, p + 12))
  }

  /** Follow the list from `p`, for at most `ttl` links. */
  function Walk(c: seq<byte>, p: byte, ttl: nat): (caps: seq<Cap>)
    requires |c| == 256
    decreases ttl
  {
    if ttl == 0 || p < 0x40 || p + 16 > 256 then []
    else [ReadCap(c, p)] + Walk(c, c[p + 1], ttl - 1)
  }

  function Advertised(): (caps: seq<Cap>)
  {
    [Cap(0x40, 0x09, 0x10, 1, 0x000, 0x40),
     Cap(0x50, 0x09, 0x14, 2, 0x050, 0x10),
     Cap(0x64, 0x09, 0x10, 3, 0x040, 0x10),
     Cap(0x74, 0x09, 0x10, 4, 0x100, 0x100),
     Cap(0x84, 0x11, 12, 0, 0x800, 0xc00)]
  }

  /** The capability bytes a driver reads, at the places it reads them. */
  predicate Linked(c: seq<byte>)
    requires |c| == 256
  {
    && c[0x34] == COMMON_CAP
    && c[COMMON_CAP + 1] == NOTIFY_CAP && c[NOTIFY_CAP + 1] == ISR_CAP && c[ISR_CAP + 1] == DEVICE_CAP
    && c[DEVICE_CAP + 1] == MSIX_CAP && c[MSIX_CAP + 1] == 0
    && ReadCap(c, COMMON_CAP) == Advertised()[0] && ReadCap(c, NOTIFY_CAP) == Advertised()[1]
    && ReadCap(c, ISR_CAP) == Advertised()[2] && ReadCap(c, DEVICE_CAP) == Advertised()[3]
    && ReadCap(c, MSIX_CAP) == Advertised()[4]
  }

  lemma {:induction false} WalkIs(c: seq<byte>, ttl: nat)
    requires |c| == 256 && Linked(c) && ttl >= 5
    ensures Walk(c, c[0x34], ttl) == Advertised()
  {
    hide ReadCap;
    assert Walk(c, 0, ttl - 5) == [];
    assert Walk(c, MSIX_CAP, ttl - 4) == [Advertised()[4]];
    assert Walk(c, DEVICE_CAP, ttl - 3) == [Advertised()[3], Advertised()[4]];
    assert Walk(c, ISR_CAP, ttl - 2) == [Advertised()[2], Advertised()[3], Advertised()[4]];
    assert Walk(c, NOTIFY_CAP, ttl - 1) == [Advertised()[1], Advertised()[2], Advertised()[3], Advertised()[4]];
  }

  lemma LinkedKept(b: seq<byte>, c: seq<byte>)
    requires |b| == |c| == 256 && Keeps(b, c) && Linked(b)
    ensures Linked(c)
  {
  }

  lemma CapReads(c: seq<byte>, at: byte, next: byte, len: byte, kind: byte, barOffset: u32, barLen: u32)
    requires |c| == 256 && at + 16 <= 256
    ensures var r := WriteCap(c, at, next, len, kind, barOffset, barLen);
            r[at + 1] == next && ReadCap(r, at) == Cap(at, 0x09, len, kind, barOffset, barLen)
    ensures forall i :: 0 <= i < 256 && !(at <= i < at + 16) ==>
              WriteCap(c, at, next, len, kind, barOffset, barLen)[i] == c[i]
  {
  }

  lemma CapSame(c: seq<byte>, r: seq<byte>, p: byte)
    requires |c| == |r| == 256 && p + 16 <= 256 && forall i :: p <= i < p + 16 ==> r[i] == c[i]
    ensures ReadCap(r, p) == ReadCap(c, p) && r[p + 1] == c[p + 1]
  {
  }

  lemma {:induction false} CapsLink(c: seq<byte>)
    requires |c| == 256
    ensures var r := Caps(c);
            && ReadCap(r, COMMON_CAP) == Advertised()[0] && r[COMMON_CAP + 1] == NOTIFY_CAP
            && ReadCap(r, NOTIFY_CAP) == Advertised()[1] && r[NOTIFY_CAP + 1] == ISR_CAP
            && ReadCap(r, ISR_CAP) == Advertised()[2] && r[ISR_CAP + 1] == DEVICE_CAP
            && ReadCap(r, DEVICE_CAP) == Advertised()[3] && r[DEVICE_CAP + 1] == MSIX_CAP
    ensures forall i :: 0 <= i < 256 && !(COMMON_CAP <= i < MSIX_CAP) ==> Caps(c)[i] == c[i]
  {
    hide WriteCap, ReadCap, SetU32;
    var common := WriteCap(c, COMMON_CAP, NOTIFY_CAP, 0x10, 1, 0, COMMON_END);
    CapReads(c, COMMON_CAP, NOTIFY_CAP, 0x10, 1, 0, COMMON_END);
    var notify := WriteCap(common, NOTIFY_CAP, ISR_CAP, 0x14, 2, NOTIFY_OFFSET, 0x10);
    CapReads(common, NOTIFY_CAP, ISR_CAP, 0x14, 2, NOTIFY_OFFSET, 0x10);
    var multiplier := SetU32(notify, NOTIFY_CAP + 16, 0);
    SetReads(notify, NOTIFY_CAP + 16, 0);
    var isr := WriteCap(multiplier, ISR_CAP, DEVICE_CAP, 0x10, 3, ISR_OFFSET, 0x10);
    CapReads(multiplier, ISR_CAP, DEVICE_CAP, 0x10, 3, ISR_OFFSET, 0x10);
    CapReads(isr, DEVICE_CAP, MSIX_CAP, 0x10, 4, DEVICE_OFFSET, 0x100);
    CapSame(common, Caps(c), COMMON_CAP);
    CapSame(notify, Caps(c), NOTIFY_CAP);
    CapSame(isr, Caps(c), ISR_CAP);
  }

  lemma MsixReads(c: seq<byte>, numVectors: u16)
    requires |c| == 256
    ensures var r := MsixCap(c, numVectors);
            && ReadCap(r, MSIX_CAP) == Advertised()[4] && r[MSIX_CAP + 1] == 0
            && U16At(r, MSIX_CAP + 2) == SizeField(numVectors)
    ensures forall i :: 0 <= i < 256 && !(MSIX_CAP <= i < MSIX_CAP + 12) ==> MsixCap(c, numVectors)[i] == c[i]
  {
  }

  lemma HeaderReads(id: u32, irqLine: byte)
    ensures var c := Header(id, irqLine); c[0x34] == COMMON_CAP && BarAligned(c)
  {
  }

  lemma {:induction false} BuiltLinked(id: u32, irqLine: byte, numVectors: u16)
    ensures var c := BuildConfig(id, irqLine, numVectors);
            Linked(c) && BarAligned(c) && U16At(c, 0x86) == SizeField(numVectors)
  {
    hide Header, Caps, MsixCap, ReadCap;
    var header := Header(id, irqLine);
    var caps := Caps(header);
    var c := MsixCap(caps, numVectors);
    HeaderReads(id, irqLine);
    CapsLink(header);
    MsixReads(caps, numVectors);
    CapSame(caps, c, COMMON_CAP);
    CapSame(caps, c, NOTIFY_CAP);
    CapSame(caps, c, ISR_CAP);
    CapSame(caps, c, DEVICE_CAP);
  }

  // ---- Over whole runs ----

  ghost predicate Disjoint(caps: seq<Cap>)
  {
    && (forall i :: 0 <= i < |caps| ==> 0x40 <= caps[i].at && caps[i].at + caps[i].len <= 0x100)
    && (forall i, j :: 0 <= i < j < |caps| ==> caps[i].at + caps[i].len <= caps[j].at)
  }

  /**
   * Whatever accesses a guest makes, of any width and offset: every read-only byte keeps its built value, the
   * capability walk ends after the same five disjoint structures, and BAR0 stays 4 KiB aligned.
   */
  lemma {:induction false} ConfigStaysSound(id: u32, irqLine: byte, numQueues: nat, ops: seq<Op>, ttl: nat)
    requires ttl >= 5
    ensures var c := Run(NewDevice(id, irqLine, numQueues), ops).dev.config;
            && Keeps(BuildConfig(id, irqLine, Vectors(numQueues)), c)
            && Walk(c, c[0x34], ttl) == Advertised() && Disjoint(Advertised())
            && BarAligned(c)
  {
    hide BuildConfig, Run, Keeps, Linked, BarAligned, Walk;
    var d := NewDevice(id, irqLine, numQueues);
    BuiltLinked(id, irqLine, Vectors(numQueues));
    RunKeeps(d, ops);
    var c := Run(d, ops).dev.config;
    LinkedKept(d.config, c);
    WalkIs(c, ttl);
  }

  /**
   * The table size a driver reads (eleven bits, one less than the number of entries) matches the table at every
   * moment exactly when the number of queues, modulo 2^16, is below 2048; MSI-X then starts off and unmasked. There is
   * a vector for every queue and one more exactly when that number fits 16 bits.
   */
  lemma {:induction false} TableSizeMatches(id: u32, irqLine: byte, numQueues: nat, ops: seq<Op>)
    ensures var e := Run(NewDevice(id, irqLine, numQueues), ops).dev;
            && (U16At(e.config, 0x86) % 0x800 + 1 == |e.table| <==> numQueues % POW16 < 0x800)
            && (|e.table| == numQueues + 1 <==> numQueues + 1 < POW16)
    ensures numQueues % POW16 < 0x800 ==>
              var d := NewDevice(id, irqLine, numQueues); !d.Enabled() && !d.FunctionMasked()
  {
    hide BuildConfig, Run, Linked, BarAligned, SizeField, Vectors;
    var d := NewDevice(id, irqLine, numQueues);
    BuiltLinked(id, irqLine, Vectors(numQueues));
    RunKeeps(d, ops);
    var e := Run(d, ops).dev;
    FieldOf(numQueues);
    LowBits(d.config[0x86], d.config[0x87], e.config[0x87], numQueues % POW16);
  }

  lemma {:induction false} FieldOf(numQueues: nat)
    ensures SizeField(Vectors(numQueues)) == numQueues % POW16
    ensures Vectors(numQueues) == (numQueues % POW16 + 1) % POW16
    ensures Vectors(numQueues) == numQueues + 1 <==> numQueues + 1 < POW16
  {
    var q, r := numQueues / POW16, numQueues % POW16;
    assert numQueues == q * POW16 + r;
  }

  lemma {:induction false} LowBits(lo: byte, hi: byte, hi2: byte, n: nat)
    requires lo + 0x100 * hi == n && hi2 % 64 == hi % 64
    ensures (lo + 0x100 * hi2) % 0x800 + 1 == (n + 1) % POW16 <==> n < 0x800
  {
    var a: nat, b: nat, low: nat := hi / 64, hi2 / 64, hi % 64;
    var x: nat := lo + 0x100 * (low % 8);
    assert hi == 64 * a + low && hi2 == 64 * b + low && low == 8 * (low / 8) + low % 8;
    DivUnique(lo + 0x100 * hi2, 8 * b + low / 8, x, 0x800);
    assert n == 0x800 * (8 * a + low / 8) + x;
  }

  /** The advertised table and pending-bit regions are disjoint and inside the 4 KiB BAR exactly up to 64 vectors. */
  lemma TableAndPbaApart(d: Pci)
    ensures var msix := Advertised()[4];
            var tableEnd := msix.barOffset + 16 * |d.table|;
            var pbaEnd := msix.barLen + 8 * ((|d.table| + 63) / 64);
            && tableEnd <= 0x1000 && pbaEnd <= 0x1000
            && (tableEnd <= msix.barLen || pbaEnd <= msix.barOffset)
            <==> |d.table| <= 64
  {
  }

  // ---- Routing ----

  predicate MemEnabled(c: seq<byte>)
    requires |c| == 256
  {
    U16At(c, 0x04) / 2 % 2 == 1
  }

  function BarBase(c: seq<byte>): (base: nat)
    requires |c| == 256
  {
    U32At(c, 0x10) - U32At(c, 0x10) % 0x1000
  }

  /** The function behind `c` answers at `addr`. */
  predicate Answers(c: seq<byte>, addr: u64)
    requires |c| == 256
  {
    MemEnabled(c) && BarBase(c) != 0 && BarBase(c) <= addr < BarBase(c) + 0x1000
  }

  /** Functions with different bases never both answer, whatever the guest did to either. */
  lemma {:induction false} OneAnswers(c: seq<byte>, e: seq<byte>, addr: u64)
    requires |c| == |e| == 256 && BarBase(c) != BarBase(e)
    ensures !(Answers(c, addr) && Answers(e, addr))
  {
    hide U32At, MemEnabled;
    Apart(U32At(c, 0x10), U32At(e, 0x10), addr);
  }

  lemma {:induction false} Apart(x: nat, y: nat, addr: nat)
    requires x - x % 0x1000 != y - y % 0x1000
    ensures !(x - x % 0x1000 <= addr < x - x % 0x1000 + 0x1000 && y - y % 0x1000 <= addr < y - y % 0x1000 + 0x1000)
  {
    var a, b := x / 0x1000, y / 0x1000;
    assert x - x % 0x1000 == 0x1000 * a && y - y % 0x1000 == 0x1000 * b;
  }

  /** A guest that has sized and assigned BAR0 reads back the base the router uses. */
  lemma {:induction false} BaseReadsBack(d: Pci, value: u32)
    requires d.Shaped()
    ensures var c := ConfigWrite(d, 0x10, Le32(value)).dev.config;
            U32At(c, 0x10) == value - value % 0x1000 && BarBase(c) == value - value % 0x1000
  {
    hide SetU32, U32At, Deliver, WriteBytes;
    var w := WriteBytes(d.config, 0x10, Le32(value));
    BarWritten(d.config, value);
    SetReads(w, 0x10, value - value % 0x1000);
    DeliverConfig(d.(config := AlignBar(w)));
    DropLow(value);
  }

  lemma {:induction false} BarWritten(c: seq<byte>, value: u32)
    requires |c| == 256
    ensures U32At(WriteBytes(c, 0x10, Le32(value)), 0x10) == value
  {
    hide Le32;
    var s := Le32(value);
    WriteBytesSnoc(c, 0x10, s, 0);
    WriteBytesSnoc(c, 0x10, s, 1);
    WriteBytesSnoc(c, 0x10, s, 2);
    WriteBytesSnoc(c, 0x10, s, 3);
    assert s[..4] == s;
    assert U32At(s, 0) == value;
  }

  lemma {:induction false} WriteBytesSnoc(c: seq<byte>, offset: u64, s: seq<byte>, n: nat)
    requires |c| == 256 && n < |s|
    ensures WriteBytes(c, offset, s[..n + 1]) == WriteByte(WriteBytes(c, offset, s[..n]), Wrap64(offset + n), s[n])
  {
    assert s[..n + 1][..n] == s[..n];
  }
}
