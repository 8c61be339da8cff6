/**
 * The virtio-pci function in numbers, as a driver programs and reads it: identification, registers, queues, MSI-X
 * entries and the interrupt status (src/virtio/pci.rs; section 4.1.4 of VIRTIO 1.0).
 */
module PciGuest {
  import opened Arith
  import opened Bytes
  import opened Memory
  import opened Le
  import opened Virtq
  import opened PciModel
  import opened PciConfig
  import opened PciDevice
  import opened PciRuns

  // ---- Values on the wire ----

  lemma {:induction false} Value1(b: byte)
    ensures Value([b]) == b
  {
    assert [b][..0] == [];
  }

  lemma {:induction false} Value2(s: seq<byte>)
    requires |s| == 2
    ensures Value(s) == U16At(s, 0)
  {
    assert s[..1] == [s[0]];
    Value1(s[0]);
    assert Pow256(1) == 0x100;
  }

  lemma {:induction false} Value4(s: seq<byte>)
    requires |s| == 4
    ensures Value(s) == U32At(s, 0)
  {
    assert s[..3][..2] == s[..2];
    Value2(s[..2]);
    assert Pow256(2) == 0x1_0000 && Pow256(3) == 0x100_0000;
  }

  /** A driver's little-endian writes of 1, 2 and 4 bytes are taken at their value. */
  lemma {:induction false} WireValues(b: byte, v: u16, w: u32)
    ensures Taken([b]) == b && Taken(Le16(v)) == v && Taken(Le32(w)) == w
  {
    hide Le16, Le32, Value, U16At, U32At;
    assert [b][..1] == [b] && Le16(v)[..2] == Le16(v) && Le32(w)[..4] == Le32(w);
    Value1(b);
    Value2(Le16(v));
    Value4(Le32(w));
  }

  lemma {:induction false} SameParts(a: nat, b: nat, c: nat, d: nat, n: nat)
    requires a < n && c < n && a + n * b == c + n * d
    ensures a == c && b == d
  {
    var x := a + n * b;
    DivUnique(x, b, a, n);
    DivUnique(x, d, c, n);
  }

  lemma {:induction false} SameWord(s: seq<byte>, i: nat, t: seq<byte>, j: nat)
    requires i + 2 <= |s| && j + 2 <= |t| && U16At(s, i) == U16At(t, j)
    ensures s[i] == t[j] && s[i + 1] == t[j + 1]
  {
    SameParts(s[i], s[i + 1], t[j], t[j + 1], 0x100);
  }

  lemma {:induction false} SameDword(s: seq<byte>, t: seq<byte>)
    requires |s| == |t| == 4 && U32At(s, 0) == U32At(t, 0)
    ensures s == t
  {
    hide U16At;
    SameParts(U16At(s, 0), U16At(s, 2), U16At(t, 0), U16At(t, 2), 0x1_0000);
    SameWord(s, 0, t, 0);
    SameWord(s, 2, t, 2);
  }

  /** A register's value is returned little-endian. */
  lemma {:induction false} WireReads(b: byte, v: u16, w: u32)
    ensures Packed(b, 1) == [b] && Packed(v, 2) == Le16(v) && Packed(w, 4) == Le32(w)
  {
    hide Le16, Le32, Value, U16At, U32At, Packed;
    PackedValue(b, 1);
    PackedValue(v, 2);
    PackedValue(w, 4);
    Widths();
    assert Packed(b, 1) == [Packed(b, 1)[0]];
    Value1(Packed(b, 1)[0]);
    Value2(Packed(v, 2));
    SameWord(Packed(v, 2), 0, Le16(v), 0);
    Value4(Packed(w, 4));
    SameDword(Packed(w, 4), Le32(w));
  }

  lemma {:induction false} Widths()
    ensures Pow256(1) == 0x100 && Pow256(2) == POW16 && Pow256(4) == POW32
  {
    assert Pow256(3) == 0x100 * Pow256(2);
  }

  // ---- Interrupt status ----

  /**
   * Reading the interrupt status, at 0x40 to 0x4f, returns it in the first byte, clears it and lowers the line, and
   * changes nothing else; a read anywhere else changes nothing.
   */
  lemma {:induction false} StatusReadClears(d: Pci, t: seq<Event>, offset: u64, n: nat, features: u64, fill: seq<byte>)
    requires d.Shaped() && |fill| == n
    ensures var o := Step(d, ReadBar(offset));
            if 0x40 <= offset < 0x50 then
              && o.dev == d.(isr := 0) && !Line(t + o.events)
              && (forall i :: 0 <= i < n ==>
                    BarBytes(d, offset, n, features, fill)[i] == if i == 0 then d.isr else 0)
            else o.dev == d && o.events == []
  {
    hide Line, Packed, CommonRead, TableRead, PendingWord;
    LineLast(t, Level(false));
  }

  /** The other regions of BAR0, as numbers; everything between them reads as zero and ignores writes. */
  lemma {:induction false} Regions(d: Pci, offset: u64, n: nat, features: u64, fill: seq<byte>, data: seq<byte>,
                                   a: Answer)
    requires d.Shaped() && |fill| == n
    ensures var read, end := BarBytes(d, offset, n, features, fill), 0x800 + 16 * |d.table|;
            && (offset < 0x40 ==> read == Packed(CommonRead(d, features, offset), n))
            && (0x50 <= offset < 0x100 || 0x200 <= offset < 0x800 ==> forall i :: 0 <= i < n ==> read[i] == 0)
            && (0x100 <= offset < 0x200 ==> read == fill)
            && (0x800 <= offset < end ==> read == Packed(TableRead(d, offset - 0x800), n))
            && (end <= offset && 0xc00 <= offset < 0xc08 ==> read == Packed(PendingWord(d.pending), n))
            && (end <= offset && !(0xc00 <= offset < 0xc08) ==> forall i :: 0 <= i < n ==> read[i] == 0)
            && (0x40 <= offset < 0x50 || 0x60 <= offset < 0x800 || end <= offset ==>
                  Step(d, WriteBar(offset, data, a)) == Out(d, []))
  {
    hide Packed, CommonRead, TableRead, PendingWord, Taken;
  }

  /** The access is a notification for which INTx is the way to interrupt, and the back end wants an interrupt. */
  ghost predicate WantsIntx(d: Pci, op: Op)
    requires d.Shaped()
  {
    && op.WriteBar? && 0x50 <= op.offset < 0x60 && op.answer.wants && Taken(op.data) < |d.queues|
    && U16At(d.config, 0x86) < 0x8000
  }

  /** The access reads the interrupt status, or resets the device. */
  predicate EndsIntx(op: Op)
  {
    || (op.ReadBar? && 0x40 <= op.offset < 0x50)
    || (op.WriteBar? && op.offset == 0x14 && Taken(op.data) % 0x100 == 0)
  }

  /** An INTx interrupt was wanted since the status was last read or the device reset. */
  ghost predicate IntxSince(d: Pci, ops: seq<Op>)
    requires d.Shaped()
    decreases |ops|
  {
    ops != [] &&
    var before, op := ops[..|ops| - 1], ops[|ops| - 1];
    !EndsIntx(op) && (WantsIntx(Run(d, before).dev, op) || IntxSince(d, before))
  }

  lemma TopBit(v: u16)
    ensures v / 0x8000 % 2 == 1 <==> v >= 0x8000
  {
  }

  lemma {:induction false} NotifyIsr(d: Pci, queue: nat, a: Answer)
    requires d.Shaped() && d.isr <= 1
    ensures Notify(d, queue, a).dev.isr
         == if queue < |d.queues| && a.wants && U16At(d.config, 0x86) < 0x8000 then 1 else d.isr
  {
    hide U16At;
    TopBit(U16At(d.config, 0x86));
  }

  lemma {:induction false} CommonIsr(d: Pci, offset: nat, v: u64)
    requires d.Shaped()
    ensures CommonWrite(d, offset, v).dev.isr == if offset == 0x14 && v % 0x100 == 0 then 0 else d.isr
  {
    hide QueueWrite, WithLow, WithHigh;
  }

  lemma {:induction false} TableIsr(d: Pci, rel: nat, v: u64)
    requires d.Shaped()
    ensures TableWrite(d, rel, v).dev.isr == d.isr
  {
    hide EntryWrite, Deliver;
    DeliverOnlyPending(EntrySet(d, rel, v));
  }

  lemma {:induction false} StepIsr(d: Pci, op: Op)
    requires d.Shaped() && d.isr <= 1
    ensures Step(d, op).dev.isr == if EndsIntx(op) then 0 else if WantsIntx(d, op) then 1 else d.isr
  {
    hide Taken, U16At, Notify, CommonWrite, TableWrite, Deliver, WriteBytes, AlignBar;
    match op
    case WriteConfig(offset, data) =>
      DeliverOnlyPending(d.(config := AlignBar(WriteBytes(d.config, offset, data))));
    case WriteBar(offset, data, a) =>
      NotifyIsr(d, Taken(data), a);
      CommonIsr(d, offset, Taken(data));
      if TABLE_OFFSET <= offset {
        TableIsr(d, offset - TABLE_OFFSET, Taken(data));
      }
    case _ =>
  }

  /** Over every run of a new device the status is 1 exactly when an INTx interrupt is unread, and 0 otherwise. */
  lemma {:induction false} StatusIsHistory(id: u32, irqLine: byte, numQueues: nat, ops: seq<Op>)
    ensures var d := NewDevice(id, irqLine, numQueues);
            Run(d, ops).dev.isr == if IntxSince(d, ops) then 1 else 0
    decreases |ops|
  {
    hide Step, EndsIntx, WantsIntx, BuildConfig;
    var d := NewDevice(id, irqLine, numQueues);
    if ops != [] {
      StatusIsHistory(id, irqLine, numQueues, ops[..|ops| - 1]);
      StepIsr(Run(d, ops[..|ops| - 1]).dev, ops[|ops| - 1]);
    }
  }

  /** So that is what a guest's status read returns. */
  lemma {:induction false} StatusSeen(id: u32, irqLine: byte, numQueues: nat, ops: seq<Op>, n: nat, fill: seq<byte>)
    requires 0 < n == |fill|
    ensures var d := NewDevice(id, irqLine, numQueues);
            BarBytes(Run(d, ops).dev, 0x40, n, 0, fill)[0] == if IntxSince(d, ops) then 1 else 0
  {
    hide IntxSince, Run, BuildConfig;
    StatusIsHistory(id, irqLine, numQueues, ops);
  }

  // ---- Common configuration ----

  /** What a driver finds before it has written anything. */
  lemma {:induction false} FreshRegisters(id: u32, irqLine: byte, numQueues: nat, features: u64, offset: nat)
    ensures var d := NewDevice(id, irqLine, numQueues);
            CommonRead(d, features, offset)
            == match offset
               case 0x04 => features % POW32
               case 0x10 => 0xffff
               case 0x12 => numQueues % POW64
               case 0x18 => if numQueues > 0 then 256 else 0
               case 0x1a => 0xffff
               case _ => 0
  {
    hide BuildConfig;
  }

  /** The device features are read in two halves, through the selector at 0x00; no other selector shows any. */
  lemma {:induction false} FeaturesRead(d: Pci, features: u64, sel: u32, a: Answer)
    requires d.Shaped()
    ensures var e := Step(d, WriteBar(0x00, Le32(sel), a)).dev;
            && CommonRead(e, features, 0x00) == sel
            && CommonRead(e, features, 0x04)
               == if sel == 0 then features % POW32 else if sel == 1 then features / POW32 else 0
  {
    hide Le32, Taken;
    WireValues(0, 0, sel);
  }

  /** The driver's features are written in two halves, through the selector at 0x08. */
  lemma {:induction false} FeaturesWritten(d: Pci, sel: u32, half: u32, a: Answer)
    requires d.Shaped()
    ensures var e := Step(Step(d, WriteBar(0x08, Le32(sel), a)).dev, WriteBar(0x0c, Le32(half), a)).dev;
            && CommonRead(e, 0, 0x08) == sel
            && e.driverFeatures % POW32 == (if sel == 0 then half else d.driverFeatures % POW32)
            && e.driverFeatures / POW32 == (if sel == 1 then half else d.driverFeatures / POW32)
  {
    hide Le32, Taken, WithLow, WithHigh;
    WireValues(0, 0, sel);
    WireValues(0, 0, half);
    Halves(d.driverFeatures, half);
  }

  /** The queue selector is read back, and from then on the queue registers are those of that queue. */
  lemma {:induction false} QueueSelected(d: Pci, sel: u16, a: Answer)
    requires d.Shaped()
    ensures var e := Step(d, WriteBar(0x16, Le16(sel), a)).dev;
            e == d.(queueSel := sel) && CommonRead(e, 0, 0x16) == sel
  {
    hide Le16, Taken;
    WireValues(0, sel, 0);
  }

  /** One write to a register of the selected queue. */
  lemma {:induction false} QueueStep(d: Pci, offset: u64, data: seq<byte>, a: Answer)
    requires d.Shaped() && d.queueSel < |d.queues|
    requires offset in {0x18, 0x1c, 0x20, 0x24, 0x28, 0x2c, 0x30, 0x34}
    ensures var q := d.queues[d.queueSel];
            Step(d, WriteBar(offset, data, a)).dev
            == d.(queues := d.queues[d.queueSel := QueueWrite(q, offset, Taken(data))])
  {
    hide QueueWrite, Taken;
  }

  /** Size, the three ring addresses in halves, then ready: how a driver sets a queue up. */
  function SetUp(num: u16, desc: u64, avail: u64, used: u64, a: Answer): (ops: seq<Op>)
    ensures |ops| == 8
  {
    [WriteBar(0x18, Le16(num), a),
     WriteBar(0x20, Le32(desc % POW32), a), WriteBar(0x24, Le32(desc / POW32), a),
     WriteBar(0x28, Le32(avail % POW32), a), WriteBar(0x2c, Le32(avail / POW32), a),
     WriteBar(0x30, Le32(used % POW32), a), WriteBar(0x34, Le32(used / POW32), a),
     WriteBar(0x1c, Le16(1), a)]
  }

  /** The queue after the first `k` of those writes. */
  function Half(q: Queue, num: u16, desc: u64, avail: u64, used: u64, k: nat): (r: Queue)
  {
    var q1 := if k >= 1 then q.(num := num) else q;
    var q2 := if k >= 2 then q1.(descTable := q.descTable / POW32 * POW32 + desc % POW32) else q1;
    var q3 := if k >= 3 then q2.(descTable := desc) else q2;
    var q4 := if k >= 4 then q3.(availRing := q.availRing / POW32 * POW32 + avail % POW32) else q3;
    var q5 := if k >= 5 then q4.(availRing := avail) else q4;
    var q6 := if k >= 6 then q5.(usedRing := q.usedRing / POW32 * POW32 + used % POW32) else q5;
    var q7 := if k >= 7 then q6.(usedRing := used) else q6;
    if k >= 8 then q7.(ready := true) else q7
  }

  lemma {:induction false} LowThenHigh(x: u64, v: u64)
    ensures WithLow(x, v % POW32) == x / POW32 * POW32 + v % POW32
    ensures WithHigh(x / POW32 * POW32 + v % POW32, v / POW32) == v
  {
    var y: nat := x / POW32 * POW32 + v % POW32;
    DivUnique(y, x / POW32, v % POW32, POW32);
  }

  lemma {:induction false} HalfStep(q: Queue, num: u16, desc: u64, avail: u64, used: u64, a: Answer, k: nat)
    requires k < 8
    ensures var op := SetUp(num, desc, avail, used, a)[k];
            QueueWrite(Half(q, num, desc, avail, used, k), op.offset, Taken(op.data))
            == Half(q, num, desc, avail, used, k + 1)
  {
    hide Le16, Le32, Taken, WithLow, WithHigh;
    WireValues(0, if k == 0 then num else 1, 0);
    if k == 1 || k == 2 {
      WireHalves(desc);
      LowThenHigh(q.descTable, desc);
    } else if k == 3 || k == 4 {
      WireHalves(avail);
      LowThenHigh(q.availRing, avail);
    } else if k == 5 || k == 6 {
      WireHalves(used);
      LowThenHigh(q.usedRing, used);
    }
  }

  lemma {:induction false} WireHalves(x: u64)
    ensures Taken(Le32(x % POW32)) == x % POW32 && Taken(Le32(x / POW32)) == x / POW32
  {
    hide Le32, Taken;
    WireValues(0, 0, x % POW32);
    WireValues(0, 0, x / POW32);
  }

  lemma {:induction false} SetUpSteps(d: Pci, num: u16, desc: u64, avail: u64, used: u64, a: Answer, k: nat)
    requires d.Shaped() && d.queueSel < |d.queues| && k <= 8
    ensures var q := d.queues[d.queueSel];
            Run(d, SetUp(num, desc, avail, used, a)[..k]).dev
            == d.(queues := d.queues[d.queueSel := Half(q, num, desc, avail, used, k)])
  {
    hide Step, SetUp, Half, QueueWrite, Taken;
    var ops, q := SetUp(num, desc, avail, used, a), d.queues[d.queueSel];
    if k == 0 {
      assert Half(q, num, desc, avail, used, 0) == q by { HalfNone(q, num, desc, avail, used); }
      assert ops[..0] == [];
    } else {
      SetUpSteps(d, num, desc, avail, used, a, k - 1);
      assert ops[..k][..k - 1] == ops[..k - 1];
      var e := Run(d, ops[..k - 1]).dev;
      SetUpOffset(num, desc, avail, used, a, k - 1);
      QueueStep(e, ops[k - 1].offset, ops[k - 1].data, a);
      HalfStep(q, num, desc, avail, used, a, k - 1);
    }
  }

  lemma HalfNone(q: Queue, num: u16, desc: u64, avail: u64, used: u64)
    ensures Half(q, num, desc, avail, used, 0) == q
  {
  }

  lemma SetUpOffset(num: u16, desc: u64, avail: u64, used: u64, a: Answer, k: nat)
    requires k < 8
    ensures var op := SetUp(num, desc, avail, used, a)[k];
            op.WriteBar? && op.answer == a && op.offset in {0x18, 0x1c, 0x20, 0x24, 0x28, 0x2c, 0x30, 0x34}
  {
  }

  /** After it the selected queue is the one described, ready, and nothing else has changed. */
  lemma {:induction false} QueueProgrammed(d: Pci, num: u16, desc: u64, avail: u64, used: u64, a: Answer)
    requires d.Shaped() && d.queueSel < |d.queues|
    ensures var last := d.queues[d.queueSel].lastAvail;
            Run(d, SetUp(num, desc, avail, used, a)).dev
            == d.(queues := d.queues[d.queueSel := Queue(desc, avail, used, num, last, true)])
  {
    hide Run, SetUp;
    var ops := SetUp(num, desc, avail, used, a);
    SetUpSteps(d, num, desc, avail, used, a, 8);
    assert ops[..8] == ops;
  }

  /** The vector of the selected queue, at 0x1a. */
  lemma {:induction false} VectorAssigned(d: Pci, v: u16, a: Answer)
    requires d.Shaped() && d.queueSel < |d.queues|
    ensures Step(d, WriteBar(0x1a, Le16(v), a)).dev == d.(queueVectors := d.queueVectors[d.queueSel := v])
  {
    hide Le16, Taken;
    WireValues(0, v, 0);
  }

  // ---- MSI-X entries ----

  /** Message address in halves at 0 and 4, data at 8, control at 12. */
  lemma {:induction false} EntryProgrammed(e: MsixEntry, address: u64, data: u32, control: u32)
    ensures var addressed := EntryWrite(EntryWrite(e, 0, address % POW32), 4, address / POW32);
            EntryWrite(EntryWrite(addressed, 8, data), 12, control) == MsixEntry(address, data, control)
  {
    hide WithLow, WithHigh;
    LowThenHigh(e.address, address);
  }

  /** A dword written at `0x800 + 16 * v + field` goes to that field of entry `v`, and to no other entry. */
  lemma {:induction false} EntryWritten(d: Pci, v: nat, field: nat, w: u32, a: Answer)
    requires d.Shaped() && v < |d.table| && field < 16 && 0x800 + 16 * v + field < POW64
    ensures Step(d, WriteBar(0x800 + 16 * v + field, Le32(w), a)).dev.table
         == d.table[v := EntryWrite(d.table[v], field, w)]
  {
    hide Le32, Taken, EntryWrite, Deliver;
    WireValues(0, 0, w);
    DivUnique(16 * v + field, v, field, 16);
    DeliverConfig(EntrySet(d, 16 * v + field, w));
  }

  // ---- Configuration space ----

  /** What a guest reads at `offset`: the bytes of configuration space, all ones past its end. */
  function ConfigBytes(c: seq<byte>, offset: u64, n: nat): (s: seq<byte>)
    requires |c| == 256
    ensures |s| == n
  {
    seq(n, i requires 0 <= i => if Wrap64(offset + i) < 256 then c[Wrap64(offset + i)] else 0xff)
  }

  method ConfigRead(config: seq<byte>, offset: u64, data: array<byte>)
    requires |config| == 256
    modifies data
    ensures data[..] == ConfigBytes(config, offset, data.Length)
  {
    for i := 0 to data.Length
      invariant forall k :: 0 <= k < i ==>
                  data[k] == if Wrap64(offset + k) < 256 then config[Wrap64(offset + k)] else 0xff
    {
      var idx := Wrap64(offset + i);
      data[i] := if idx < 256 then config[idx] else 0xff;
    }
  }

  /** A driver that reads a word inside configuration space gets the number stored there. */
  lemma {:induction false} ConfigWord(c: seq<byte>, offset: u64)
    requires |c| == 256 && offset + 2 <= 256
    ensures U16At(ConfigBytes(c, offset, 2), 0) == U16At(c, offset)
  {
    assert Wrap64(offset + 0) == offset && Wrap64(offset + 1) == offset + 1;
  }

  /** Identification: vendor, device, revision, class, status, header type, subsystem, interrupt pin. */
  predicate Identifies(c: seq<byte>, id: u32)
    requires |c| == 256
  {
    && U16At(c, 0x00) == 0x1af4 && U16At(c, 0x02) == (0x1040 + id) % POW16
    && U16At(c, 0x06) == 0x0010
    && c[0x08] == 1 && c[0x09] == 0 && c[0x0a] == 0 && c[0x0b] == (if id == 2 then 0x01 else 0xff) && c[0x0e] == 0
    && U16At(c, 0x2c) == 0x1af4 && U16At(c, 0x2e) == id % POW16
    && c[0x3d] == 1
  }

  lemma WordSet(c: seq<byte>, at: nat, v: u16)
    requires at + 2 <= |c|
    ensures U16At(SetU16(c, at, v), at) == v
    ensures forall i :: 0 <= i < |c| && i != at && i != at + 1 ==> SetU16(c, at, v)[i] == c[i]
  {
  }

  lemma WordSame(b: seq<byte>, c: seq<byte>, at: nat)
    requires at + 2 <= |b| && at + 2 <= |c| && b[at] == c[at] && b[at + 1] == c[at + 1]
    ensures U16At(b, at) == U16At(c, at)
  {
  }

  lemma {:induction false} HeaderIdentifies(id: u32, irqLine: byte)
    ensures var c := Header(id, irqLine);
            Identifies(c, id) && c[0x3c] == irqLine && U16At(c, 0x04) == 0 && U32At(c, 0x10) == 0
  {
    hide SetU16, SetU32, U16At, Zeros;
    var device: u16 := (0x1040 + id % POW16) % POW16;
    var id': nat := id;
    ModShift(0x1040 + id' % POW16, id' / POW16, POW16);
    var vendor := SetU16(Zeros(256), 0x00, 0x1af4);
    var ids := SetU16(vendor, 0x02, device);
    var command := SetU16(ids, 0x04, 0);
    var top := SetU16(command, 0x06, 0x0010);
    var classed := top[0x08 := 1][0x09 := 0][0x0a := 0][0x0b := if id == 2 then 0x01 else 0xff][0x0e := 0];
    var bar := SetU32(classed, 0x10, 0);
    var maker := SetU16(bar, 0x2c, 0x1af4);
    var subsystem := SetU16(maker, 0x2e, id % POW16);
    WordSet(Zeros(256), 0x00, 0x1af4);
    WordSet(vendor, 0x02, device);
    WordSet(ids, 0x04, 0);
    WordSet(command, 0x06, 0x0010);
    SetReads(classed, 0x10, 0);
    WordSet(bar, 0x2c, 0x1af4);
    WordSet(maker, 0x2e, id % POW16);
    var c := Header(id, irqLine);
    WordSame(vendor, c, 0x00);
    WordSame(ids, c, 0x02);
    WordSame(command, c, 0x04);
    WordSame(top, c, 0x06);
    WordSame(bar, c, 0x10);
    WordSame(bar, c, 0x12);
    WordSame(maker, c, 0x2c);
    WordSame(subsystem, c, 0x2e);
  }

  lemma {:induction false} BuiltIdentifies(id: u32, irqLine: byte, numVectors: u16)
    ensures var c := BuildConfig(id, irqLine, numVectors);
            Identifies(c, id) && c[0x3c] == irqLine && U16At(c, 0x04) == 0 && U32At(c, 0x10) == 0
  {
    hide Header, Caps, MsixCap, ReadCap, Advertised;
    var header := Header(id, irqLine);
    HeaderIdentifies(id, irqLine);
    CapsLink(header);
    MsixReads(Caps(header), numVectors);
  }

  /** A function identifies itself the same way whatever has been done to it. */
  lemma {:induction false} AlwaysIdentifies(id: u32, irqLine: byte, numQueues: nat, ops: seq<Op>)
    ensures Identifies(Run(NewDevice(id, irqLine, numQueues), ops).dev.config, id)
  {
    hide BuildConfig, Run, BarAligned, PciConfig.Linked;
    var d := NewDevice(id, irqLine, numQueues);
    BuiltLinked(id, irqLine, Vectors(numQueues));
    BuiltIdentifies(id, irqLine, Vectors(numQueues));
    PciConfig.RunKeeps(d, ops);
  }

  /** A word written to the command register takes effect: its bit 1 switches memory decoding. */
  lemma {:induction false} CommandTakes(d: Pci, v: u16)
    requires d.Shaped()
    ensures var c := Step(d, WriteConfig(0x04, Le16(v))).dev.config;
            U16At(c, 0x04) == v && (MemEnabled(c) <==> v / 2 % 2 == 1)
  {
    hide AlignBar, Deliver, U32At, SetU32;
    var s := Le16(v);
    WriteBytesSnoc(d.config, 0x04, s, 0);
    WriteBytesSnoc(d.config, 0x04, s, 1);
    assert s[..0] == [] && s[..2] == s;
    var c := WriteBytes(d.config, 0x04, s);
    assert c[4] == s[0] && c[5] == s[1];
    AlignElsewhere(c);
    DeliverConfig(d.(config := AlignBar(c)));
  }

  lemma {:induction false} BarWriteElsewhere(c: seq<byte>, v: u32)
    requires |c| == 256
    ensures U16At(AlignBar(WriteBytes(c, 0x10, Le32(v))), 0x04) == U16At(c, 0x04)
  {
    hide AlignBar, Le32, U32At, SetU32;
    var s := Le32(v);
    WriteBytesSnoc(c, 0x10, s, 0);
    WriteBytesSnoc(c, 0x10, s, 1);
    WriteBytesSnoc(c, 0x10, s, 2);
    WriteBytesSnoc(c, 0x10, s, 3);
    assert s[..0] == [] && s[..4] == s;
    AlignElsewhere(WriteBytes(c, 0x10, s));
  }

  /** Once a guest has written command and base, the function answers in 4 KiB from the base, if bit 1 is set. */
  lemma {:induction false} AnswersWhereAssigned(d: Pci, command: u16, base: u32, addr: u64)
    requires d.Shaped()
    ensures var e := Step(Step(d, WriteConfig(0x04, Le16(command))).dev, WriteConfig(0x10, Le32(base))).dev;
            Answers(e.config, addr)
            <==> command / 2 % 2 == 1 && base >= 0x1000 && base - base % 0x1000 <= addr < base - base % 0x1000 + 0x1000
  {
    hide AlignBar, Deliver, WriteBytes, Le16, Le32, U16At, U32At;
    var e := Step(d, WriteConfig(0x04, Le16(command))).dev;
    CommandTakes(d, command);
    BaseReadsBack(e, base);
    BarWriteElsewhere(e.config, base);
    DeliverConfig(e.(config := AlignBar(WriteBytes(e.config, 0x10, Le32(base)))));
  }

  lemma {:induction false} AlignElsewhere(c: seq<byte>)
    requires |c| == 256
    ensures forall i :: 0 <= i < 256 && !(0x10 <= i < 0x14) ==> AlignBar(c)[i] == c[i]
  {
    hide SetU32, U32At;
    SetReads(c, 0x10, U32At(c, 0x10) - U32At(c, 0x10) % 0x1000);
  }

  lemma {:induction false} ControlWritten(c: seq<byte>, v: u16)
    requires |c| == 256
    ensures var r := AlignBar(WriteBytes(c, 0x86, Le16(v)));
            r[0x86] == c[0x86] && r[0x87] == v / 0x100 - v / 0x100 % 64 + c[0x87] % 64
  {
    hide AlignBar, U32At, SetU32;
    var s := Le16(v);
    WriteBytesSnoc(c, 0x86, s, 0);
    WriteBytesSnoc(c, 0x86, s, 1);
    assert s[..0] == [] && s[..2] == s;
    AlignElsewhere(WriteBytes(c, 0x86, s));
  }

  /** Message control: bits 15 and 14 of a word written there enable MSI-X and mask the function; the rest is kept. */
  lemma {:induction false} MessageControlTakes(d: Pci, v: u16)
    requires d.Shaped()
    ensures var e := Step(d, WriteConfig(0x86, Le16(v))).dev;
            && (e.Enabled() <==> v / 0x8000 == 1) && (e.FunctionMasked() <==> v / 0x4000 % 2 == 1)
            && U16At(e.config, 0x86) % 0x4000 == U16At(d.config, 0x86) % 0x4000
  {
    hide AlignBar, Deliver, WriteBytes, Le16;
    ControlWritten(d.config, v);
    DeliverConfig(d.(config := AlignBar(WriteBytes(d.config, 0x86, Le16(v)))));
    ControlBits(v / 0x100, d.config[0x86], d.config[0x87]);
  }

  lemma {:induction false} ControlBits(top: byte, lo: byte, hi: byte)
    ensures var w: nat := lo + 0x100 * (top - top % 64 + hi % 64);
            && (w / 0x8000 % 2 == 1 <==> top >= 0x80) && (w / 0x4000 % 2 == 1 <==> top / 0x40 % 2 == 1)
            && w % 0x4000 == (lo + 0x100 * hi) % 0x4000
  {
    var q: nat, r: nat, h: nat := top / 64, hi % 64, hi / 64;
    var x: nat := lo + 0x100 * r;
    assert top - top % 64 == 64 * q && hi == 64 * h + r && q < 4;
    var w: nat := lo + 0x100 * (top - top % 64 + hi % 64);
    assert w == q * 0x4000 + x;
    DivUnique(w, q, x, 0x4000);
    DivUnique(lo + 0x100 * hi, h, x, 0x4000);
    DivUnique(w, q / 2, q % 2 * 0x4000 + x, 0x8000);
  }

  /** The interrupt line register holds what is written to it. */
  lemma {:induction false} InterruptLineTakes(d: Pci, b: byte)
    requires d.Shaped()
    ensures Step(d, WriteConfig(0x3c, [b])).dev.config[0x3c] == b
  {
    hide AlignBar, Deliver;
    assert [b][..0] == [];
    var c := WriteBytes(d.config, 0x3c, [b]);
    AlignElsewhere(c);
    DeliverConfig(d.(config := AlignBar(c)));
  }
}
