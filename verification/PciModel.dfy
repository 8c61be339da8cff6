/** The virtio-pci transport as a state machine: what every register access does (src/virtio/pci.rs, src/pci.rs). */
module PciModel {
  import opened Bytes
  import opened Le
  import opened Virtq

  const NO_VECTOR: u16 := 0xffff
  const QUEUE_SIZE_MAX: u16 := 256

  const COMMON_END := 0x40
  const ISR_OFFSET := 0x40
  const NOTIFY_OFFSET := 0x50
  const NOTIFY_END := 0x60
  const DEVICE_OFFSET := 0x100
  const DEVICE_END := 0x200
  const TABLE_OFFSET := 0x800
  const PBA_OFFSET := 0xc00

  datatype MsixEntry = MsixEntry(address: u64, data: u32, control: u32) {
    predicate Masked() { control % 2 == 1 }
  }

  datatype Pci = Pci(
    config: seq<byte>, queues: seq<Queue>, deviceSel: u32, driverSel: u32, driverFeatures: u64, status: byte,
    queueSel: u16, isr: byte, table: seq<MsixEntry>, pending: seq<bool>, queueVectors: seq<u16>, configVector: u16)
  {
    /** The sizes `new` fixes and nothing changes. */
    predicate Shaped()
    {
      && |config| == 256
      && |table| == |pending|
      && |queueVectors| == |queues|
    }

    predicate Enabled()
      requires Shaped()
    {
      U16At(config, 0x86) / 0x8000 % 2 == 1
    }

    predicate FunctionMasked()
      requires Shaped()
    {
      U16At(config, 0x86) / 0x4000 % 2 == 1
    }
  }

  /**
   * What leaves the device, and two markers: `Raise` when a queue asks for an MSI-X vector, `Reset` when the driver
   * resets the device. `Swap` marks a new interrupt sink, which starts low.
   */
  datatype Event = Level(high: bool) | Signal(vector: nat, address: u64, data: u32) | Raise(vector: nat) | Reset | Swap

  datatype Out = Out(dev: Pci, events: seq<Event>)

  function Then(o: Out, more: Out): (r: Out) { Out(more.dev, o.events + more.events) }

  // ---- Configuration space ----

  function SetU16(c: seq<byte>, at: nat, v: u16): (r: seq<byte>)
    requires at + 2 <= |c|
    ensures |r| == |c|
  {
    c[at := v % 0x100][at + 1 := v / 0x100]
  }

  function SetU32(c: seq<byte>, at: nat, v: u32): (r: seq<byte>)
    requires at + 4 <= |c|
    ensures |r| == |c|
  {
    SetU16(SetU16(c, at, v % 0x1_0000), at + 2, v / 0x1_0000)
  }

  /** One byte of a configuration write: command, BAR0 and interrupt line, and the top two bits of message control. */
  function WriteByte(c: seq<byte>, off: nat, b: byte): (r: seq<byte>)
    requires |c| == 256
    ensures |r| == 256
  {
    if off == 0x04 || off == 0x05 || 0x10 <= off <= 0x13 || off == 0x3c then c[off := b]
    else if off == 0x87 then c[0x87 := b - b % 64 + c[0x87] % 64]
    else c
  }

  function WriteBytes(c: seq<byte>, offset: u64, data: seq<byte>): (r: seq<byte>)
    requires |c| == 256
    ensures |r| == 256
    decreases |data|
  {
    if data == [] then c
    else
      var n := |data| - 1;
      WriteByte(WriteBytes(c, offset, data[..n]), Wrap64(offset + n), data[n])
  }

  /** BAR0 is a 4 KiB region: its low twelve bits are hard-wired to zero. */
  function AlignBar(c: seq<byte>): (r: seq<byte>)
    requires |c| == 256
    ensures |r| == 256
  {
    SetU32(c, 0x10, U32At(c, 0x10) - U32At(c, 0x10) % 0x1000)
  }

  function ConfigWrite(d: Pci, offset: u64, data: seq<byte>): (o: Out)
    requires d.Shaped()
    ensures o.dev.Shaped()
  {
    Deliver(d.(config := AlignBar(WriteBytes(d.config, offset, data))))
  }

  // ---- Interrupts ----

  function SignalOf(d: Pci, v: nat): (e: Event)
    requires v < |d.table|
  {
    Signal(v, d.table[v].address, d.table[v].data)
  }

  /** `signal_msix`. */
  function SignalMsix(d: Pci, vector: u16): (o: Out)
    requires d.Shaped()
    ensures o.dev.Shaped()
  {
    if vector == NO_VECTOR || vector >= |d.table| then Out(d, [])
    else if d.FunctionMasked() || d.table[vector].Masked() then
      Out(d.(pending := d.pending[vector := true]), [Raise(vector)])
    else Out(d, [Raise(vector), SignalOf(d, vector)])
  }

  /** `raise_queue_interrupt`. */
  function RaiseQueue(d: Pci, queue: nat): (o: Out)
    requires d.Shaped()
    ensures o.dev.Shaped()
  {
    if d.Enabled() then
      SignalMsix(d, if queue < |d.queueVectors| then d.queueVectors[queue] else NO_VECTOR)
    else Out(d.(isr := d.isr - d.isr % 2 + 1), [Level(true)])
  }

  predicate Owed(d: Pci, v: nat)
    requires d.Shaped() && v < |d.table|
  {
    d.pending[v] && !d.table[v].Masked()
  }

  /** The first `n` rounds of the delivery loop. */
  function DeliverTo(d: Pci, n: nat): (o: Out)
    requires d.Shaped() && n <= |d.table|
    ensures o.dev == d.(pending := o.dev.pending) && o.dev.Shaped()
  {
    if n == 0 then Out(d, [])
    else
      var o := DeliverTo(d, n - 1);
      if Owed(o.dev, n - 1) then
        Out(o.dev.(pending := o.dev.pending[n - 1 := false]), o.events + [SignalOf(d, n - 1)])
      else o
  }

  /** `deliver_pending`. */
  function Deliver(d: Pci): (o: Out)
    requires d.Shaped()
    ensures o.dev.Shaped()
  {
    if d.Enabled() && !d.FunctionMasked() then DeliverTo(d, |d.table|) else Out(d, [])
  }

  // ---- Device registers ----

  function NewQueue(): (q: Queue) { Queue(0, 0, 0, QUEUE_SIZE_MAX, 0, false) }

  function NewQueues(n: nat): (s: seq<Queue>)
    ensures |s| == n
  {
    seq(n, _ => NewQueue())
  }

  function NoVectors(n: nat): (s: seq<u16>)
    ensures |s| == n
  {
    seq(n, _ => NO_VECTOR)
  }

  function NonePending(n: nat): (s: seq<bool>)
    ensures |s| == n
  {
    seq(n, _ => false)
  }

  /** Every vector masked, with no message. */
  function NewTable(n: nat): (s: seq<MsixEntry>)
    ensures |s| == n
  {
    seq(n, _ => MsixEntry(0, 0, 1))
  }

  /** `reset`: everything but configuration space, the MSI-X table and `status`, which its caller has just written. */
  function ResetDev(d: Pci): (o: Out)
    requires d.Shaped()
    ensures o.dev.Shaped()
  {
    Out(d.(queues := NewQueues(|d.queues|), deviceSel := 0, driverSel := 0, driverFeatures := 0,
           queueSel := 0, isr := 0, pending := NonePending(|d.pending|),
           queueVectors := NoVectors(|d.queueVectors|), configVector := NO_VECTOR),
        [Level(false), Reset])
  }

  function WithLow(x: u64, v: u64): (r: u64) { x - x % POW32 + v % POW32 }

  function WithHigh(x: u64, v: u64): (r: u64) { x % POW32 + v % POW32 * POW32 }

  /** The selected queue after a write of `v` to a per-queue register. */
  function QueueWrite(q: Queue, offset: nat, v: u64): (r: Queue)
  {
    match offset
    case 0x18 => q.(num := v % POW16)
    case 0x1c => q.(ready := v != 0)
    case 0x20 => q.(descTable := WithLow(q.descTable, v))
    case 0x24 => q.(descTable := WithHigh(q.descTable, v))
    case 0x28 => q.(availRing := WithLow(q.availRing, v))
    case 0x2c => q.(availRing := WithHigh(q.availRing, v))
    case 0x30 => q.(usedRing := WithLow(q.usedRing, v))
    case 0x34 => q.(usedRing := WithHigh(q.usedRing, v))
    case _ => q
  }

  function CommonWrite(d: Pci, offset: nat, v: u64): (o: Out)
    requires d.Shaped()
    ensures o.dev.Shaped()
  {
    var sel: int := d.queueSel;
    match offset
    case 0x00 => Out(d.(deviceSel := v % POW32), [])
    case 0x08 => Out(d.(driverSel := v % POW32), [])
    case 0x0c =>
      Out(d.(driverFeatures :=
               if d.driverSel == 0 then WithLow(d.driverFeatures, v)
               else if d.driverSel == 1 then WithHigh(d.driverFeatures, v)
               else d.driverFeatures), [])
    case 0x10 => Out(d.(configVector := v % POW16), [])
    case 0x14 =>
      var d' := d.(status := v % 0x100);
      if d'.status == 0 then ResetDev(d') else Out(d', [])
    case 0x16 => Out(d.(queueSel := v % POW16), [])
    case 0x1a =>
      Out(if sel < |d.queueVectors| then d.(queueVectors := d.queueVectors[sel := v % POW16]) else d, [])
    case _ =>
      Out(if sel < |d.queues| then d.(queues := d.queues[sel := QueueWrite(d.queues[sel], offset, v)]) else d, [])
  }

  /** What the back end did with a notification: the queue it left behind, and whether it wants an interrupt. */
  datatype Answer = Answer(wants: bool, queue: Queue)

  function Notify(d: Pci, queue: nat, a: Answer): (o: Out)
    requires d.Shaped()
    ensures o.dev.Shaped()
  {
    if queue >= |d.queues| then Out(d, [])
    else
      var d' := d.(queues := d.queues[queue := a.queue]);
      if a.wants then RaiseQueue(d', queue) else Out(d', [])
  }

  function EntryWrite(e: MsixEntry, field: nat, v: u32): (r: MsixEntry)
  {
    match field
    case 0 => e.(address := WithLow(e.address, v))
    case 4 => e.(address := WithHigh(e.address, v))
    case 8 => e.(data := v)
    case 12 => e.(control := v)
    case _ => e
  }

  /** One dword of one entry replaced. */
  function EntrySet(d: Pci, rel: nat, v: u64): (r: Pci)
    requires d.Shaped()
    ensures r.Shaped()
  {
    var idx := rel / 16;
    if idx < |d.table| then d.(table := d.table[idx := EntryWrite(d.table[idx], rel % 16, v % POW32)]) else d
  }

  /** `msix_table_write`: a write to a control word then delivers what it unmasked. */
  function TableWrite(d: Pci, rel: nat, v: u64): (o: Out)
    requires d.Shaped()
    ensures o.dev.Shaped()
  {
    if rel % 16 == 12 then Deliver(EntrySet(d, rel, v)) else Out(EntrySet(d, rel, v), [])
  }

  function MmioWrite(d: Pci, offset: u64, data: seq<byte>, a: Answer): (o: Out)
    requires d.Shaped()
    ensures o.dev.Shaped()
  {
    if offset < COMMON_END then CommonWrite(d, offset, Taken(data))
    else if NOTIFY_OFFSET <= offset < NOTIFY_END then Notify(d, Taken(data), a)
    else if TABLE_OFFSET <= offset < TABLE_OFFSET + 16 * |d.table| then
      TableWrite(d, offset - TABLE_OFFSET, Taken(data))
    else Out(d, [])
  }

  /** A BAR0 read changes nothing, except that reading the interrupt status clears it. */
  function MmioRead(d: Pci, offset: u64): (o: Out)
    requires d.Shaped()
    ensures o.dev.Shaped()
  {
    if ISR_OFFSET <= offset < NOTIFY_OFFSET then Out(d.(isr := 0), [Level(false)]) else Out(d, [])
  }

  // ---- Runs ----

  datatype Op =
    | WriteConfig(offset: u64, data: seq<byte>)
    | WriteBar(offset: u64, data: seq<byte>, answer: Answer)
    | ReadBar(offset: u64)
    | SwapSink

  function Step(d: Pci, op: Op): (o: Out)
    requires d.Shaped()
    ensures o.dev.Shaped()
  {
    match op
    case WriteConfig(offset, data) => ConfigWrite(d, offset, data)
    case WriteBar(offset, data, a) => MmioWrite(d, offset, data, a)
    case ReadBar(offset) => MmioRead(d, offset)
    case SwapSink => Out(d, [Swap])
  }

  function Run(d: Pci, ops: seq<Op>): (o: Out)
    requires d.Shaped()
    ensures o.dev.Shaped()
    decreases |ops|
  {
    if ops == [] then Out(d, [])
    else
      var o := Run(d, ops[..|ops| - 1]);
      Then(o, Step(o.dev, ops[|ops| - 1]))
  }

  /** A device as `new` leaves it, around a given configuration space and MSI-X table. */
  function Fresh(config: seq<byte>, table: seq<MsixEntry>, numQueues: nat): (d: Pci)
    requires |config| == 256
    ensures d.Shaped()
  {
    Pci(config, NewQueues(numQueues), 0, 0, 0, 0, 0, 0, table, NonePending(|table|), NoVectors(numQueues), NO_VECTOR)
  }
}
