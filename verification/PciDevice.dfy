/** The virtio-pci function itself: in-place state, register handlers, the delivery loop (src/virtio/pci.rs). */
module PciDevice {
  import opened Arith
  import opened Bytes
  import opened Le
  import opened Virtq
  import opened PciModel
  import opened PciConfig

  // ---- What reads return ----

  function CommonRead(d: Pci, features: u64, offset: nat): (v: u64)
    requires d.Shaped()
  {
    var sel: int := d.queueSel;
    var q := if sel < |d.queues| then Some(d.queues[sel]) else None;
    match offset
    case 0x00 => d.deviceSel
    case 0x04 => if d.deviceSel == 0 then features % POW32 else if d.deviceSel == 1 then features / POW32 else 0
    case 0x08 => d.driverSel
    case 0x0c =>
      if d.driverSel == 0 then d.driverFeatures % POW32 else if d.driverSel == 1 then d.driverFeatures / POW32 else 0
    case 0x10 => d.configVector
    case 0x1a => if sel < |d.queueVectors| then d.queueVectors[sel] else NO_VECTOR
    case 0x12 => Wrap64(|d.queues|)
    case 0x14 => d.status
    case 0x16 => d.queueSel
    case _ => if q.Some? then QueueRead(q.value, offset) else 0
  }

  function QueueRead(q: Queue, offset: nat): (v: u64)
  {
    match offset
    case 0x18 => q.num
    case 0x1c => if q.ready then 1 else 0
    case 0x20 => q.descTable % POW32
    case 0x24 => q.descTable / POW32
    case 0x28 => q.availRing % POW32
    case 0x2c => q.availRing / POW32
    case 0x30 => q.usedRing % POW32
    case 0x34 => q.usedRing / POW32
    case _ => 0
  }

  function EntryRead(e: MsixEntry, field: nat): (v: u32)
  {
    match field
    case 0 => e.address % POW32
    case 4 => e.address / POW32
    case 8 => e.data
    case 12 => e.control
    case _ => 0
  }

  function TableRead(d: Pci, rel: nat): (v: u32)
  {
    if rel / 16 < |d.table| then EntryRead(d.table[rel / 16], rel % 16) else 0
  }

  /** The common-configuration registers that hold a value, rather than select what another register refers to. */
  predicate Holds(d: Pci, offset: nat)
  {
    || offset in {0x10, 0x14, 0x18, 0x1a, 0x1c, 0x20, 0x24, 0x28, 0x2c, 0x30, 0x34}
    || (offset == 0x0c && d.driverSel <= 1)
  }

  /** What such a register keeps of a written value. */
  function Kept(offset: nat, v: u64): (r: u64)
  {
    if offset == 0x14 then v % 0x100
    else if offset == 0x1c then if v != 0 then 1 else 0
    else if offset in {0x10, 0x18, 0x1a} then v % POW16
    else v % POW32
  }

  /** With a queue selected, a value written to a register is read back and every other register reads as before. */
  lemma {:induction false} RegistersReadBack(d: Pci, features: u64, offset: nat, v: u64, other: nat)
    requires d.Shaped() && d.queueSel < |d.queues| && Holds(d, offset) && (offset == 0x14 ==> v % 0x100 != 0)
    ensures var e := CommonWrite(d, offset, v).dev;
            CommonRead(e, features, other)
            == if other == offset then Kept(offset, v) else CommonRead(d, features, other)
  {
    hide QueueWrite, QueueRead, WithLow, WithHigh;
    var sel: int := d.queueSel;
    Halves(d.driverFeatures, v % POW32);
    HalvesCut(d.driverFeatures, v);
    QueueReadsBack(d.queues[sel], offset, v, other);
  }

  lemma HalvesCut(x: u64, v: u64)
    ensures WithLow(x, v) == WithLow(x, v % POW32) && WithHigh(x, v) == WithHigh(x, v % POW32)
  {
  }

  lemma {:induction false} QueueReadsBack(q: Queue, offset: nat, v: u64, other: nat)
    ensures QueueRead(QueueWrite(q, offset, v), other)
         == if other == offset && offset in {0x18, 0x1c, 0x20, 0x24, 0x28, 0x2c, 0x30, 0x34} then Kept(offset, v)
            else QueueRead(q, other)
  {
    hide WithLow, WithHigh;
    Halves(q.descTable, v % POW32);
    HalvesCut(q.descTable, v);
    Halves(q.availRing, v % POW32);
    HalvesCut(q.availRing, v);
    Halves(q.usedRing, v % POW32);
    HalvesCut(q.usedRing, v);
  }

  /** Pending bits `i` to 63 as a number, bit `i` the lowest. */
  function PendingFrom(p: seq<bool>, i: nat): (v: nat)
    requires i <= 64
    decreases 64 - i
  {
    if i == 64 || i >= |p| then 0 else (if p[i] then 1 else 0) + 2 * PendingFrom(p, i + 1)
  }

  function Pow2(n: nat): (p: nat)
    ensures p > 0
  {
    if n == 0 then 1 else 2 * Pow2(n - 1)
  }

  lemma {:induction false} PendingBound(p: seq<bool>, i: nat)
    requires i <= 64
    ensures PendingFrom(p, i) < Pow2(64 - i)
    decreases 64 - i
  {
    if i < 64 {
      PendingBound(p, i + 1);
    }
  }

  lemma {:induction false} Pow2Is()
    ensures Pow2(64) == POW64
  {
    hide Pow2;
    Pow2Is8();
    Pow2Add(8, 8);
    Pow2Add(16, 16);
    Pow2Add(32, 32);
  }

  lemma {:induction false} Pow2Is8()
    ensures Pow2(8) == 0x100
  {
    assert Pow2(4) == 16;
  }

  lemma {:induction false} Pow2Add(a: nat, b: nat)
    ensures Pow2(a + b) == Pow2(a) * Pow2(b)
  {
    if a > 0 {
      Pow2Add(a - 1, b);
      MulAssoc(2, Pow2(a - 1), Pow2(b));
    }
  }

  /** One round of the loop that assembles the pending bits; `p` is the weight of bit `i`. */
  lemma {:induction false} PendingStep(s: seq<bool>, i: nat, p: nat)
    requires i < |s| && i < 64
    ensures p * PendingFrom(s, i) == (if s[i] then p else 0) + (2 * p) * PendingFrom(s, i + 1)
  {
    var rest := PendingFrom(s, i + 1);
    if s[i] {
      assert p * (1 + 2 * rest) == p + (2 * p) * rest;
    } else {
      assert p * (2 * rest) == (2 * p) * rest;
    }
  }

  lemma PendingDone(s: seq<bool>, i: nat, p: nat)
    requires i <= 64 && (i >= |s| || i == 64)
    ensures p * PendingFrom(s, i) == 0
  {
  }

  function PendingWord(p: seq<bool>): (v: u64)
  {
    PendingBound(p, 0);
    Pow2Is();
    PendingFrom(p, 0)
  }

  lemma {:induction false} PendingUnfolds(p: seq<bool>, i: nat)
    requires i < 64
    ensures i < |p| ==>
              (PendingFrom(p, i) % 2 == 1 <==> p[i]) && PendingFrom(p, i) / 2 == PendingFrom(p, i + 1)
    ensures i >= |p| ==> PendingFrom(p, i) == 0
  {
    if i < |p| {
      DivUnique(PendingFrom(p, i), PendingFrom(p, i + 1), if p[i] then 1 else 0, 2);
    }
  }

  lemma {:induction false} PendingBits(p: seq<bool>, i: nat, k: nat)
    requires i + k < 64
    ensures Bit(PendingFrom(p, i), k) <==> i + k < |p| && p[i + k]
    decreases k
  {
    hide PendingFrom;
    PendingUnfolds(p, i);
    if i >= |p| {
      NoBit(k);
    } else if k > 0 {
      PendingBits(p, i + 1, k - 1);
    }
  }

  lemma {:induction false} NoBit(k: nat)
    ensures !Bit(0, k)
  {
    if k > 0 {
      NoBit(k - 1);
    }
  }

  /** A dword written to an MSI-X table entry is read back, and the entry's other dwords are kept. */
  lemma {:induction false} TableReadsBack(d: Pci, rel: nat, value: u64, other: nat)
    requires d.Shaped() && rel < 16 * |d.table| && rel % 4 == 0 && other % 4 == 0
    ensures var e := TableWrite(d, rel, value).dev;
            TableRead(e, other) == if other == rel then value % POW32 else TableRead(d, other)
  {
    hide Deliver, EntryWrite, EntryRead;
    CellOf(rel, |d.table|);
    CellOf(other, |d.table|);
    var idx := rel / 16;
    var e := d.table[idx];
    var d' := d.(table := d.table[idx := EntryWrite(e, rel % 16, value % POW32)]);
    DeliverConfig(d');
    if other / 16 == idx {
      EntryReadsBack(e, rel % 16, other % 16, value % POW32);
    }
  }

  lemma {:induction false} CellOf(a: nat, n: nat)
    requires a % 4 == 0
    ensures a == 16 * (a / 16) + a % 16 && a % 16 % 4 == 0 && (a < 16 * n ==> a / 16 < n)
  {
    var q, r := a / 16, a % 16;
    assert a == 16 * q + r;
    DivUnique(a, 4 * q + r / 4, r % 4, 4);
  }

  lemma {:induction false} EntryReadsBack(e: MsixEntry, field: nat, other: nat, v: u32)
    requires field < 16 && field % 4 == 0 && other < 16 && other % 4 == 0
    ensures EntryRead(EntryWrite(e, field, v), other) == if other == field then v else EntryRead(e, other)
  {
    hide WithLow, WithHigh;
    Halves(e.address, v);
  }

  lemma Halves(x: u64, v: u32)
    ensures WithLow(x, v) % POW32 == v && WithLow(x, v) / POW32 == x / POW32
    ensures WithHigh(x, v) % POW32 == x % POW32 && WithHigh(x, v) / POW32 == v
  {
  }

  /** The bytes of a BAR0 read of width `n`; `fill` is what the back end's own configuration read produces. */
  function BarBytes(d: Pci, offset: u64, n: nat, features: u64, fill: seq<byte>): (s: seq<byte>)
    requires d.Shaped() && |fill| == n
    ensures |s| == n
  {
    if offset < COMMON_END then Packed(CommonRead(d, features, offset), n)
    else if offset < NOTIFY_OFFSET then seq(n, i => if i == 0 then d.isr else 0)
    else if offset < NOTIFY_END then seq(n, _ => 0)
    else if DEVICE_OFFSET <= offset < DEVICE_END then fill
    else if TABLE_OFFSET <= offset < TABLE_OFFSET + 16 * |d.table| then Packed(TableRead(d, offset - TABLE_OFFSET), n)
    else if PBA_OFFSET <= offset < PBA_OFFSET + 8 then Packed(PendingWord(d.pending), n)
    else seq(n, _ => 0)
  }

  // ---- The pending-bit array as a driver reads it ----

  predicate PendingAt(d: Pci, k: nat) { k < |d.pending| && d.pending[k] }

  /** A qword read of the pending-bit array shows the pending bit of every vector at its place. */
  ghost predicate PbaShown(d: Pci, features: u64, fill: seq<byte>)
    requires d.Shaped() && |fill| == 8
  {
    var v := Value(BarBytes(d, PBA_OFFSET, 8, features, fill));
    forall k :: 0 <= k < 64 ==> (Bit(v, k) <==> PendingAt(d, k))
  }

  lemma {:induction false} PbaShows(d: Pci, features: u64, fill: seq<byte>)
    requires d.Shaped() && |fill| == 8 && |d.table| <= 64
    ensures PbaShown(d, features, fill)
  {
    hide PendingWord, Bit, Packed;
    var v := PendingWord(d.pending);
    Pow256Eight();
    PackedValue(v, 8);
    forall k | 0 <= k < 64
      ensures Bit(v, k) <==> PendingAt(d, k)
    {
      PendingBits(d.pending, 0, k);
      PendingWordIs(d.pending);
    }
  }

  lemma PendingWordIs(p: seq<bool>)
    ensures PendingWord(p) == PendingFrom(p, 0)
  {
  }

  /** Switching MSI-X on with a one-byte configuration write changes nothing else but pending bits. */
  lemma {:induction false} TurnOn(d: Pci)
    requires d.Shaped()
    ensures var e := Step(d, WriteConfig(0x87, [0x80])).dev;
            e.Enabled() && e == d.(config := e.config, pending := e.pending)
  {
    hide AlignBar, Deliver, DeliverTo, Keeps;
    var c := WriteBytes(d.config, 0x87, [0x80]);
    assert [0x80][..0] == [];
    assert c[0x87] >= 0x80;
    SelfKeeps(c);
    AlignKeeps(c, c);
    var e := d.(config := AlignBar(c));
    DeliverOnlyPending(e);
  }

  lemma SelfKeeps(c: seq<byte>)
    requires |c| == 256
    ensures Keeps(c, c)
  {
  }

  lemma {:induction false} DeliverOnlyPending(d: Pci)
    requires d.Shaped()
    ensures var e := Deliver(d).dev; e == d.(pending := e.pending)
  {
    hide DeliverTo;
  }

  /** Giving the selected queue vector 0. */
  lemma AssignVector(d: Pci, a: Answer)
    requires d.Shaped() && d.queueSel == 0 && |d.queues| > 0 && Taken([0, 0]) == 0
    ensures Step(d, WriteBar(0x1a, [0, 0], a)).dev == d.(queueVectors := d.queueVectors[0 := 0])
  {
  }

  /** A wanted interrupt on masked vector 0 becomes pending. */
  lemma RaiseMasked(d: Pci, a: Answer)
    requires d.Shaped() && d.Enabled() && |d.queues| > 0 && d.queueVectors[0] == 0 && a.wants
    requires |d.table| > 0 && d.table[0].Masked() && Taken([0]) == 0
    ensures var e := Step(d, WriteBar(NOTIFY_OFFSET, [0], a)).dev; e.table == d.table && e.pending[0]
  {
    hide Taken;
  }

  lemma {:induction false} TakenZero()
    ensures Taken([0]) == 0 && Taken([0, 0]) == 0
  {
    assert [0][..1] == [0] && [0][..0] == [];
    assert [0, 0][..2] == [0, 0] && [0, 0][..1] == [0];
    assert Value([0]) == 0;
  }

  /** Enable MSI-X, give queue 0 the masked vector 0, and notify the queue. */
  function HidingRun(a: Answer): seq<Op>
  {
    [WriteConfig(0x87, [0x80]), WriteBar(0x1a, [0, 0], a), WriteBar(NOTIFY_OFFSET, [0], a)]
  }

  lemma {:induction false} HidingRunRaises(d: Pci, a: Answer)
    requires d.Shaped() && d.queueSel == 0 && |d.queues| > 0 && |d.table| > 0 && d.table[0].Masked() && a.wants
    ensures var e := Run(d, HidingRun(a)).dev; e.table == d.table && e.pending[0]
  {
    hide Step, Taken;
    var ops := HidingRun(a);
    TakenZero();
    TurnOn(d);
    var d1 := Step(d, ops[0]).dev;
    AssignVector(d1, a);
    var d2 := Step(d1, ops[1]).dev;
    RaiseMasked(d2, a);
    assert ops[..2][..1] == ops[..1] && ops[..1][..0] == [] == ops[..0];
    assert Run(d, ops[..0]) == Out(d, []);
    assert Run(d, ops[..1]).dev == d1;
    assert Run(d, ops[..2]).dev == d2;
  }

  /** Past 64 vectors the table lies over the array: after that run the read returns a message address instead. */
  lemma {:induction false} PbaHidden(id: u32, irqLine: byte, numQueues: nat, features: u64, fill: seq<byte>, a: Answer)
    requires |fill| == 8 && Vectors(numQueues) > 64 && a.wants
    ensures !PbaShown(Run(NewDevice(id, irqLine, numQueues), HidingRun(a)).dev, features, fill)
  {
    hide Packed, Run, BuildConfig;
    var d := NewDevice(id, irqLine, numQueues);
    assert numQueues > 0;
    HidingRunRaises(d, a);
    var e := Run(d, HidingRun(a)).dev;
    PackedValue(0, 8);
    assert BarBytes(e, PBA_OFFSET, 8, features, fill) == Packed(0, 8);
    assert PendingAt(e, 0) && !Bit(0, 0);
  }

  /** So a device's pending bits are shown in every state it can reach exactly when it has at most 64 vectors. */
  lemma {:induction false} PbaReports(id: u32, irqLine: byte, numQueues: nat, features: u64, fill: seq<byte>)
    requires |fill| == 8
    ensures (forall ops :: PbaShown(Run(NewDevice(id, irqLine, numQueues), ops).dev, features, fill))
            <==> Vectors(numQueues) <= 64
  {
    hide PbaShown, Run, BuildConfig;
    var d := NewDevice(id, irqLine, numQueues);
    if Vectors(numQueues) <= 64 {
      forall ops
        ensures PbaShown(Run(d, ops).dev, features, fill)
      {
        BuiltLinked(id, irqLine, Vectors(numQueues));
        RunKeeps(d, ops);
        PbaShows(Run(d, ops).dev, features, fill);
      }
    } else {
      PbaHidden(id, irqLine, numQueues, features, fill, Answer(true, NewQueue()));
    }
  }

  // ---- Qword accesses to the MSI-X table ----

  /** Different byte sequences of one length have different values. */
  lemma {:induction false} ValueInjective(s: seq<byte>, t: seq<byte>)
    requires |s| == |t| && Value(s) == Value(t)
    ensures s == t
  {
    if s != [] {
      var n := |s| - 1;
      var p := Pow256(n);
      DivUnique(Value(s), s[n], Value(s[..n]), p);
      DivUnique(Value(t), t[n], Value(t[..n]), p);
      ValueInjective(s[..n], t[..n]);
      assert s == s[..n] + [s[n]] && t == t[..n] + [t[n]];
    }
  }

  /**
   * A qword write keeps the low dword only and a qword read returns one dword, so the pair reads back exactly for
   * values below 2^32.
   */
  lemma {:induction false} QwordReadsBack(d: Pci, offset: u64, data: seq<byte>, a: Answer, features: u64,
                                          fill: seq<byte>)
    requires d.Shaped() && |data| == 8 && |fill| == 8
    requires TABLE_OFFSET <= offset < TABLE_OFFSET + 16 * |d.table| && (offset - TABLE_OFFSET) % 8 == 0
    ensures var e := PciModel.MmioWrite(d, offset, data, a).dev;
            && Value(BarBytes(e, offset, 8, features, fill)) == Value(data) % POW32
            && (BarBytes(e, offset, 8, features, fill) == data <==> Value(data) < POW32)
  {
    hide Value, Packed, TableWrite, TableRead, EntryWrite;
    var rel := offset - TABLE_OFFSET;
    assert data[..8] == data;
    var v := Taken(data);
    var e := TableWrite(d, rel, v).dev;
    SameSize(d, rel, v);
    MultipleOfFour(rel);
    TableReadsBack(d, rel, v, rel);
    var r := BarBytes(e, offset, 8, features, fill);
    assert r == Packed(v % POW32, 8);
    Pow256Eight();
    PackedValue(v % POW32, 8);
    if Value(data) < POW32 {
      ValueInjective(r, data);
    }
  }

  /** A qword read of an entry's address returns all of it exactly when it is below 2^32. */
  lemma {:induction false} QwordRead(d: Pci, idx: nat, features: u64, fill: seq<byte>)
    requires d.Shaped() && idx < |d.table| && |fill| == 8 && TABLE_OFFSET + 16 * idx < POW64
    ensures Value(BarBytes(d, TABLE_OFFSET + 16 * idx, 8, features, fill)) == d.table[idx].address
            <==> d.table[idx].address < POW32
  {
    hide Value, Packed;
    DivUnique(16 * idx, idx, 0, 16);
    Pow256Eight();
    PackedValue(d.table[idx].address % POW32, 8);
  }

  lemma MultipleOfFour(x: nat)
    requires x % 8 == 0
    ensures x % 4 == 0
  {
  }

  lemma {:induction false} SameSize(d: Pci, rel: nat, v: u64)
    requires d.Shaped()
    ensures |TableWrite(d, rel, v).dev.table| == |d.table|
  {
    hide Deliver, EntryWrite;
    DeliverConfig(EntrySet(d, rel, v));
  }

  /**
   * What a driver means by a qword write, the whole address or data and control together, happens exactly when the
   * upper dword was already what it asks for: the control word, and with it the mask, is never written this way.
   */
  lemma {:induction false} QwordWrite(d: Pci, idx: nat, v: u64)
    requires d.Shaped() && idx < |d.table|
    ensures var e := TableWrite(d, 16 * idx, v).dev.table[idx];
            e.address == v <==> v / POW32 == d.table[idx].address / POW32
    ensures var e := TableWrite(d, 16 * idx + 8, v).dev.table[idx];
            e.data == v % POW32 && e.control == d.table[idx].control
  {
    hide WithLow, WithHigh;
    var x := d.table[idx].address;
    DivUnique(16 * idx, idx, 0, 16);
    DivUnique(16 * idx + 8, idx, 8, 16);
    Halves(x, v % POW32);
    HalvesCut(x, v);
    var w: int := WithLow(x, v);
    assert w == w / POW32 * POW32 + w % POW32;
  }

  /** Reduction modulo 2^n keeps the bits below n. */
  lemma {:induction false} BitMod(v: nat, n: nat, k: nat)
    requires k < n
    ensures Bit(v % Pow2(n), k) <==> Bit(v, k)
    decreases n
  {
    var half := Pow2(n - 1);
    ModHalf(v, half);
    DivUnique(v % Pow2(n), v / 2 % half, v % 2, 2);
    if k > 0 {
      BitMod(v / 2, n - 1, k - 1);
    }
  }

  lemma {:induction false} Pow2Is32()
    ensures Pow2(32) == Pow256(4)
  {
    hide Pow2;
    Pow2Is8();
    Pow2Add(8, 8);
    Pow2Add(16, 16);
    assert Pow256(4) == 0x100 * (0x100 * (0x100 * 0x100)) by {
      assert Pow256(2) == 0x1_0000;
    }
  }

  /**
   * A dword read of the upper half returns the lower half again: it shows vectors 32 to 63 exactly when those agree
   * with vectors 0 to 31.
   */
  lemma {:induction false} PbaUpperHalf(d: Pci, features: u64, fill: seq<byte>)
    requires d.Shaped() && |fill| == 4 && |d.table| <= 64
    ensures var v := Value(BarBytes(d, PBA_OFFSET + 4, 4, features, fill));
            && (forall k :: 0 <= k < 32 ==> (Bit(v, k) <==> PendingAt(d, k)))
            && ((forall k :: 0 <= k < 32 ==> (Bit(v, k) <==> PendingAt(d, 32 + k)))
                <==> (forall k :: 0 <= k < 32 ==> (PendingAt(d, k) <==> PendingAt(d, 32 + k))))
  {
    hide PendingWord, Bit, Packed, PendingAt, Pow2, Pow256;
    var w := PendingWord(d.pending);
    var v := Value(BarBytes(d, PBA_OFFSET + 4, 4, features, fill));
    PackedValue(w, 4);
    Pow2Is32();
    forall k | 0 <= k < 32
      ensures Bit(v, k) <==> PendingAt(d, k)
    {
      BitMod(w, 32, k);
      PendingWordIs(d.pending);
      PendingBits(d.pending, 0, k);
      assert PendingAt(d, k) <==> k < |d.pending| && d.pending[k] by {
        PendingAtIs(d, k);
      }
    }
  }

  lemma PendingAtIs(d: Pci, k: nat)
    ensures PendingAt(d, k) <==> k < |d.pending| && d.pending[k]
  {
  }

  method Fill(data: array<byte>, b: byte)
    modifies data
    ensures data[..] == seq(data.Length, _ => b)
  {
    for i := 0 to data.Length
      invariant forall k :: 0 <= k < i ==> data[k] == b
    {
      data[i] := b;
    }
  }

  // ---- The device ----

  class VirtioPciDevice {
    var config: seq<byte>
    var queues: seq<Queue>
    var deviceSel: u32
    var driverSel: u32
    var driverFeatures: u64
    var status: byte
    var queueSel: u16
    var isr: byte
    var table: seq<MsixEntry>
    var pending: seq<bool>
    var queueVectors: seq<u16>
    var configVector: u16
    /** Calls on the interrupt and message sinks, with the markers of `Event`. */
    ghost var trace: seq<Event>

    function State(): (d: Pci)
      reads this
    {
      Pci(config, queues, deviceSel, driverSel, driverFeatures, status, queueSel, isr, table, pending, queueVectors,
          configVector)
    }

    ghost predicate Valid()
      reads this
    {
      State().Shaped()
    }

    /** The device is in the state of `o`, having emitted its events after `before`. */
    ghost predicate Did(before: seq<Event>, o: Out)
      reads this
    {
      State() == o.dev && trace == before + o.events
    }

    constructor (id: u32, irqLine: byte, numQueues: nat)
      ensures Valid() && State() == NewDevice(id, irqLine, numQueues) && trace == []
    {
      var numVectors := (numQueues + 1) % POW16;
      config := BuildConfig(id, irqLine, numVectors);
      deviceSel, driverSel, driverFeatures, status, queueSel, isr := 0, 0, 0, 0, 0, 0;
      queues := NewQueues(numQueues);
      table := NewTable(numVectors);
      pending := NonePending(numVectors);
      queueVectors := NoVectors(numQueues);
      configVector := NO_VECTOR;
      trace := [];
    }

    method ReplaceIrqSink()
      requires Valid()
      modifies `trace
      ensures Valid() && Did(old(trace), Step(old(State()), SwapSink))
    {
      trace := trace + [Swap];
    }

    method SignalMsix(vector: u16)
      requires Valid()
      modifies this
      ensures Valid() && Did(old(trace), PciModel.SignalMsix(old(State()), vector))
    {
      if vector == NO_VECTOR || vector >= |table| {
        return;
      }
      trace := trace + [Raise(vector)];
      if U16At(config, 0x86) / 0x4000 % 2 == 1 || table[vector].Masked() {
        pending := pending[vector := true];
        return;
      }
      var entry := table[vector];
      trace := trace + [Signal(vector, entry.address, entry.data)];
    }

    method RaiseQueueInterrupt(queue: nat)
      requires Valid()
      modifies this
      ensures Valid() && Did(old(trace), RaiseQueue(old(State()), queue))
    {
      hide PciModel.SignalMsix;
      if U16At(config, 0x86) / 0x8000 % 2 == 1 {
        var vector := if queue < |queueVectors| then queueVectors[queue] else NO_VECTOR;
        SignalMsix(vector);
      } else {
        isr := isr - isr % 2 + 1;
        trace := trace + [Level(true)];
      }
    }

    method DeliverPending()
      requires Valid()
      modifies `pending, `trace
      ensures Valid() && Did(old(trace), Deliver(old(State())))
    {
      if !(U16At(config, 0x86) / 0x8000 % 2 == 1) || U16At(config, 0x86) / 0x4000 % 2 == 1 {
        return;
      }
      ghost var d := State();
      var idx: nat := 0;
      while idx < |table|
        invariant idx <= |table| && Valid() && Did(old(trace), DeliverTo(d, idx))
      {
        if pending[idx] && !table[idx].Masked() {
          pending := pending[idx := false];
          var entry := table[idx];
          trace := trace + [Signal(idx, entry.address, entry.data)];
        }
        idx := idx + 1;
      }
    }

    method ResetQueues()
      modifies `queues
      ensures queues == NewQueues(|old(queues)|)
    {
      var i: nat := 0;
      while i < |queues|
        invariant i <= |queues| == |old(queues)|
        invariant forall k :: 0 <= k < i ==> queues[k] == NewQueue()
      {
        queues := queues[i := NewQueue()];
        i := i + 1;
      }
    }

    method Reset()
      requires Valid()
      modifies this
      ensures Valid() && Did(old(trace), ResetDev(old(State())))
    {
      ResetQueues();
      deviceSel, driverSel, driverFeatures, queueSel, isr := 0, 0, 0, 0, 0;
      trace := trace + [Level(false)];
      ResetVectors();
      assert trace == old(trace) + [Level(false), PciModel.Reset];
    }

    method ResetVectors()
      modifies `queueVectors, `configVector, `pending, `trace
      ensures queueVectors == NoVectors(|old(queueVectors)|) && pending == NonePending(|old(pending)|)
      ensures configVector == NO_VECTOR && trace == old(trace) + [PciModel.Reset]
    {
      queueVectors := NoVectors(|queueVectors|);
      configVector := NO_VECTOR;
      pending := NonePending(|pending|);
      trace := trace + [PciModel.Reset];
    }

    method MsixTableWrite(rel: nat, data: seq<byte>)
      requires Valid()
      modifies this
      ensures Valid() && Did(old(trace), TableWrite(old(State()), rel, Taken(data)))
    {
      hide Taken, Deliver, WithLow, WithHigh;
      var value := GetLe(data);
      var idx, field := rel / 16, rel % 16;
      if idx < |table| {
        table := table[idx := EntryWrite(table[idx], field, value % POW32)];
      }
      if field == 12 {
        DeliverPending();
      }
    }

    method CommonCfgWrite(offset: u64, data: seq<byte>)
      requires Valid()
      modifies this
      ensures Valid() && Did(old(trace), CommonWrite(old(State()), offset, Taken(data)))
    {
      hide Taken, ResetDev, WithLow, WithHigh;
      var value := GetLe(data);
      var sel: int := queueSel;
      if offset == 0x00 {
        deviceSel := value % POW32;
      } else if offset == 0x08 {
        driverSel := value % POW32;
      } else if offset == 0x0c {
        if driverSel == 0 {
          driverFeatures := WithLow(driverFeatures, value);
        } else if driverSel == 1 {
          driverFeatures := WithHigh(driverFeatures, value);
        }
      } else if offset == 0x10 {
        configVector := value % POW16;
      } else if offset == 0x14 {
        status := value % 0x100;
        if status == 0 {
          Reset();
        }
      } else if offset == 0x16 {
        queueSel := value % POW16;
      } else if offset == 0x1a {
        if sel < |queueVectors| {
          queueVectors := queueVectors[sel := value % POW16];
        }
      } else if sel < |queues| {
        queues := queues[sel := QueueWrite(queues[sel], offset, value)];
      }
    }

    /** `answer` is what the back end does if this write is a notification. */
    method MmioWrite(offset: u64, data: seq<byte>, answer: Answer)
      requires Valid()
      modifies this
      ensures Valid() && Did(old(trace), PciModel.MmioWrite(old(State()), offset, data, answer))
    {
      hide Taken, CommonWrite, RaiseQueue, TableWrite;
      if offset < COMMON_END {
        CommonCfgWrite(offset, data);
      } else if NOTIFY_OFFSET <= offset < NOTIFY_END {
        var queue := GetLe(data);
        if queue < |queues| {
          queues := queues[queue := answer.queue];
          if answer.wants {
            RaiseQueueInterrupt(queue);
          }
        }
      } else if TABLE_OFFSET <= offset < TABLE_OFFSET + 16 * |table| {
        MsixTableWrite(offset - TABLE_OFFSET, data);
      }
    }

    method ReadPending(data: array<byte>)
      requires Valid()
      modifies data
      ensures data[..] == Packed(PendingWord(pending), data.Length)
    {
      hide PendingFrom, Packed;
      var qword: nat, p: nat, i: nat := 0, 1, 0;
      while i < |pending| && i < 64
        invariant i <= |pending| && i <= 64
        invariant qword + p * PendingFrom(pending, i) == PendingFrom(pending, 0)
      {
        PendingStep(pending, i, p);
        if pending[i] {
          qword := qword + p;
        }
        p := 2 * p;
        i := i + 1;
      }
      PendingDone(pending, i, p);
      assert qword == PendingWord(pending);
      PutLe(data, qword);
    }

    /** `features` and `fill` are the back end's feature bits and its answer to a device-configuration read. */
    method MmioRead(offset: u64, data: array<byte>, features: u64, fill: seq<byte>)
      requires Valid() && |fill| == data.Length
      modifies this, data
      ensures data[..] == BarBytes(old(State()), offset, data.Length, features, fill)
      ensures Valid() && Did(old(trace), PciModel.MmioRead(old(State()), offset))
    {
      hide Packed, CommonRead, TableRead, PendingWord;
      if offset < COMMON_END {
        PutLe(data, CommonRead(State(), features, offset));
      } else if offset < NOTIFY_OFFSET {
        Fill(data, 0);
        if data.Length > 0 {
          data[0] := isr;
        }
        isr := 0;
        trace := trace + [Level(false)];
      } else if offset < NOTIFY_END {
        Fill(data, 0);
      } else if DEVICE_OFFSET <= offset < DEVICE_END {
        forall i | 0 <= i < data.Length {
          data[i] := fill[i];
        }
      } else if TABLE_OFFSET <= offset < TABLE_OFFSET + 16 * |table| {
        PutLe(data, TableRead(State(), offset - TABLE_OFFSET));
      } else if PBA_OFFSET <= offset < PBA_OFFSET + 8 {
        ReadPending(data);
      } else {
        Fill(data, 0);
      }
    }

    method ConfigWrite(offset: u64, data: seq<byte>)
      requires Valid()
      modifies this
      ensures Valid() && Did(old(trace), PciModel.ConfigWrite(old(State()), offset, data))
    {
      hide Deliver, WriteByte, U32At, SetU32;
      var i: nat := 0;
      while i < |data|
        invariant i <= |data| && |config| == 256 && Valid()
        invariant config == WriteBytes(old(config), offset, data[..i])
        invariant State() == old(State()).(config := config) && trace == old(trace)
      {
        WriteBytesSnoc(old(config), offset, data, i);
        config := WriteByte(config, Wrap64(offset + i), data[i]);
        i := i + 1;
      }
      assert data[..i] == data;
      config := SetU32(config, 0x10, U32At(config, 0x10) - U32At(config, 0x10) % 0x1000);
      DeliverPending();
    }
  }
}
