/** The Intel MP table written for guests without ACPI (src/mptable.rs), and a reader for it. */
module MpTable {
  import opened Bytes

  const MPF_ADDR := 0xf_0000
  const MPC_ADDR := 0xf_0010
  const HEADER_LEN := 44

  const LAPIC_VERSION: byte := 0x14
  const IOAPIC_VERSION: byte := 0x11
  const LAPIC_BASE: u32 := 0xfee0_0000
  const IOAPIC_BASE: u32 := 0xfec0_0000

  const IRQ_INT: byte := 0
  const IRQ_NMI: byte := 1
  const IRQ_EXTINT: byte := 3
  const ALL_APICS: byte := 0xff

  // ---- Entries ----

  type BusName = s: seq<byte> | |s| == 6 witness [0, 0, 0, 0, 0, 0]

  datatype Entry =
    | Processor(id: byte, version: byte, flags: byte, sig: u32, feat: u32)
    | IoBus(id: byte, name: BusName)
    | IoApic(id: byte, version: byte, flags: byte, address: u32)
    | IntSrc(kind: byte, trigger: u16, bus: byte, irq: byte, apic: byte, pin: byte)
    | LintSrc(kind: byte, trigger: u16, bus: byte, irq: byte, apic: byte, lint: byte)

  function Encode(e: Entry): (bs: seq<byte>)
    ensures |bs| == if e.Processor? then 20 else 8
  {
    match e
    case Processor(id, version, flags, sig, feat) =>
      [0, id, version, flags] + Le32(sig) + Le32(feat) + Le32(0) + Le32(0)
    case IoBus(id, name) => [1, id] + name
    case IoApic(id, version, flags, address) => [2, id, version, flags] + Le32(address)
    case IntSrc(kind, trigger, bus, irq, apic, pin) => [3, kind] + Le16(trigger) + [bus, irq, apic, pin]
    case LintSrc(kind, trigger, bus, irq, apic, lint) => [4, kind] + Le16(trigger) + [bus, irq, apic, lint]
  }

  function EncodeAll(es: seq<Entry>): (bs: seq<byte>)
    decreases |es|
  {
    if es == [] then [] else EncodeAll(es[..|es| - 1]) + Encode(es[|es| - 1])
  }

  /** One processor entry per CPU; CPU 0 is the bootstrap processor. */
  function CpuEntry(id: byte, sig: u32, feat: u32): Entry
  {
    Processor(id, LAPIC_VERSION, if id == 0 then 3 else 1, sig, feat)
  }

  /** ISA interrupt `pin`: straight through, or with the timer on pin 2 and ExtINT on pin 0. */
  function PinEntry(pin: byte, apic: byte, timerOnPin2: bool): Entry
  {
    if timerOnPin2 && pin == 0 then IntSrc(IRQ_EXTINT, 0, 0, 0, apic, 0)
    else if timerOnPin2 && pin == 2 then IntSrc(IRQ_INT, 0, 0, 0, apic, 2)
    else IntSrc(IRQ_INT, 0, 0, pin, apic, pin)
  }

  /** Bus 0, named "ISA" padded with blanks. */
  function IsaBus(): Entry { IoBus(0, [0x49, 0x53, 0x41, 0x20, 0x20, 0x20]) }

  /** A usable I/O APIC at its default address. */
  function ApicEntry(id: byte): Entry { IoApic(id, IOAPIC_VERSION, 1, IOAPIC_BASE) }

  /** A local interrupt of every CPU. */
  function LintEntry(kind: byte, lint: byte): Entry { LintSrc(kind, 0, 0, 0, ALL_APICS, lint) }

  function Cpus(n: nat, sig: u32, feat: u32): (es: seq<Entry>)
    requires n <= 256
    ensures |es| == n && forall i :: 0 <= i < n ==> es[i] == CpuEntry(i, sig, feat)
  {
    if n == 0 then [] else Cpus(n - 1, sig, feat) + [CpuEntry(n - 1, sig, feat)]
  }

  function Pins(n: nat, apic: byte, timerOnPin2: bool): (es: seq<Entry>)
    requires n <= 16
    ensures |es| == n && forall i :: 0 <= i < n ==> es[i] == PinEntry(i, apic, timerOnPin2)
  {
    if n == 0 then [] else Pins(n - 1, apic, timerOnPin2) + [PinEntry(n - 1, apic, timerOnPin2)]
  }

  /** What the table is meant to describe. */
  function Entries(n: byte, sig: u32, feat: u32, timerOnPin2: bool): (es: seq<Entry>)
    ensures |es| == n + 20
  {
    Cpus(n, sig, feat) + [IsaBus(), ApicEntry(n)] + Pins(16, n, timerOnPin2)
    + [LintEntry(IRQ_EXTINT, 0), LintEntry(IRQ_NMI, 1)]
  }

  // ---- A reader, written from the MultiProcessor Specification ----

  /** Entry at `pos`, by its type byte; None where the bytes run out or the type is unknown. */
  function ReadEntry(bs: seq<byte>, pos: nat): (e: Option<Entry>)
  {
    if pos >= |bs| then None
    else if bs[pos] == 0 then
      if pos + 20 > |bs| then None
      else Some(Processor(bs[pos + 1], bs[pos + 2], bs[pos + 3], U32At(bs, pos + 4), U32At(bs, pos + 8)))
    else if pos + 8 > |bs| then None
    else if bs[pos] == 1 then
      Some(IoBus(bs[pos + 1], [bs[pos + 2], bs[pos + 3], bs[pos + 4], bs[pos + 5], bs[pos + 6], bs[pos + 7]]))
    else if bs[pos] == 2 then Some(IoApic(bs[pos + 1], bs[pos + 2], bs[pos + 3], U32At(bs, pos + 4)))
    else if bs[pos] == 3 then
      Some(IntSrc(bs[pos + 1], U16At(bs, pos + 2), bs[pos + 4], bs[pos + 5], bs[pos + 6], bs[pos + 7]))
    else if bs[pos] == 4 then
      Some(LintSrc(bs[pos + 1], U16At(bs, pos + 2), bs[pos + 4], bs[pos + 5], bs[pos + 6], bs[pos + 7]))
    else None
  }

  /** Entry sizes: 20 bytes for a processor, 8 for every other entry. */
  function SizeOf(kind: byte): nat { if kind == 0 then 20 else 8 }

  datatype Parsed = Parsed(entries: seq<Entry>, end: nat)

  /** Walk `count` entries from `pos`, stepping by the size each type byte implies. */
  function Parse(bs: seq<byte>, pos: nat, count: nat, found: seq<Entry>): (p: Option<Parsed>)
    decreases count
  {
    if count == 0 then Some(Parsed(found, pos))
    else
      match ReadEntry(bs, pos)
      case None => None
      case Some(e) => Parse(bs, pos + SizeOf(bs[pos]), count - 1, found + [e])
  }

  /** Read a whole configuration table: signature, then the stored number of entries. */
  function ReadTable(bs: seq<byte>): (p: Option<Parsed>)
  {
    if |bs| < HEADER_LEN || Slice(bs, 0, 4) != [0x50, 0x43, 0x4d, 0x50] then None
    else Parse(bs, HEADER_LEN, U16At(bs, 34), [])
  }

  // ---- Checksums ----

  function Sum(bs: seq<byte>, n: nat): (s: nat)
    requires n <= |bs|
  {
    if n == 0 then 0 else Sum(bs, n - 1) + bs[n - 1]
  }

  /** The byte that makes the sum of all bytes zero modulo 256. */
  function Checksum(bs: seq<byte>): (c: byte)
  {
    (256 - Sum(bs, |bs|) % 256) % 256
  }

  lemma {:induction false} SumUpdate(bs: seq<byte>, n: nat, i: nat, v: byte)
    requires n <= |bs| && i < |bs|
    ensures Sum(bs[i := v], n) == Sum(bs, n) + if i < n then v - bs[i] else 0
  {
    if n > 0 {
      SumUpdate(bs, n - 1, i, v);
    }
  }

  /** Storing the checksum in a byte that was zero makes the structure sum to zero. */
  lemma {:induction false} ChecksumBalances(bs: seq<byte>, i: nat)
    requires i < |bs| && bs[i] == 0
    ensures Sum(bs[i := Checksum(bs)], |bs|) % 256 == 0
  {
    hide Sum;
    SumUpdate(bs, |bs|, i, Checksum(bs));
  }

  // ---- The reader recovers the entries ----

  lemma {:induction false} EncodeAllSnoc(es: seq<Entry>, e: Entry)
    ensures EncodeAll(es + [e]) == EncodeAll(es) + Encode(e)
  {
    assert (es + [e])[..|es|] == es;
  }

  /** Entry `i` sits behind the encodings of those before it. */
  lemma {:induction false} EncodedAt(es: seq<Entry>, i: nat, k: nat)
    requires i < |es| && k < |Encode(es[i])|
    ensures |EncodeAll(es[..i])| + |Encode(es[i])| == |EncodeAll(es[..i + 1])| <= |EncodeAll(es)|
    ensures EncodeAll(es)[|EncodeAll(es[..i])| + k] == Encode(es[i])[k]
    decreases |es|
  {
    hide Encode;
    var n := |es| - 1;
    if i < n {
      EncodedAt(es[..n], i, k);
      assert es[..n][..i] == es[..i] && es[..n][..i + 1] == es[..i + 1];
    } else {
      assert es[..i + 1] == es;
    }
  }

  lemma {:induction false} ReadsEntry(bs: seq<byte>, pos: nat, e: Entry)
    requires pos + |Encode(e)| <= |bs|
    requires forall k :: 0 <= k < |Encode(e)| ==> bs[pos + k] == Encode(e)[k]
    ensures ReadEntry(bs, pos) == Some(e) && SizeOf(bs[pos]) == |Encode(e)|
  {
    hide U32At, U16At, Le32, Le16;
    var c := Encode(e);
    assert bs[pos] == c[0] && bs[pos + 1] == c[1] && bs[pos + 2] == c[2] && bs[pos + 3] == c[3];
    assert bs[pos + 4] == c[4] && bs[pos + 5] == c[5] && bs[pos + 6] == c[6] && bs[pos + 7] == c[7];
    match e
    case Processor(_, _, _, sig, feat) =>
      assert bs[pos + 8] == c[8] && bs[pos + 9] == c[9] && bs[pos + 10] == c[10] && bs[pos + 11] == c[11];
      Reads32(bs, pos + 4, sig);
      Reads32(bs, pos + 8, feat);
    case IoBus(_, name) =>
      assert name == [name[0], name[1], name[2], name[3], name[4], name[5]];
    case IoApic(_, _, _, address) =>
      Reads32(bs, pos + 4, address);
    case IntSrc(_, trigger, _, _, _, _) =>
      Reads16(bs, pos + 2, trigger);
    case LintSrc(_, trigger, _, _, _, _) =>
      Reads16(bs, pos + 2, trigger);
  }

  /** From entry `i` on, the walk finds the remaining entries and ends where the encodings end. */
  lemma {:induction false} ParseFrom(head: seq<byte>, es: seq<Entry>, i: nat)
    requires i <= |es|
    ensures Parse(head + EncodeAll(es), |head| + |EncodeAll(es[..i])|, |es| - i, es[..i])
         == Some(Parsed(es, |head| + |EncodeAll(es)|))
    decreases |es| - i
  {
    hide Encode, ReadEntry, SizeOf, EncodeAll;
    var bs := head + EncodeAll(es);
    var pos := |head| + |EncodeAll(es[..i])|;
    if i == |es| {
      assert es[..i] == es;
    } else {
      forall k | 0 <= k < |Encode(es[i])|
        ensures pos + k < |bs| && bs[pos + k] == Encode(es[i])[k]
      {
        EncodedAt(es, i, k);
      }
      EncodedAt(es, i, 0);
      ReadsEntry(bs, pos, es[i]);
      assert es[..i] + [es[i]] == es[..i + 1];
      ParseFrom(head, es, i + 1);
    }
  }

  // ---- The table ----

  /** Header with its length, count and checksum fields still zero. */
  function Blank(): (h: seq<byte>)
    ensures |h| == HEADER_LEN
  {
    [0x50, 0x43, 0x4d, 0x50, 0, 0, 4, 0]
    + [0x46, 0x45, 0x52, 0x52, 0x56, 0x4d, 0x30, 0x30]
    + [0x66, 0x65, 0x72, 0x72, 0x76, 0x6d, 0x20, 0x30, 0x2e, 0x31, 0x20, 0x20]
    + Le32(0) + Le16(0) + Le16(0) + Le32(LAPIC_BASE) + Le32(0)
  }

  /** Length, entry count and checksum filled in. */
  function Fill(t: seq<byte>, count: u16): (r: seq<byte>)
    requires HEADER_LEN <= |t| < POW16
    ensures |r| == |t|
  {
    var t1 := t[4 := Le16(|t|)[0]][5 := Le16(|t|)[1]][34 := Le16(count)[0]][35 := Le16(count)[1]];
    t1[7 := Checksum(t1)]
  }

  function Table(n: byte, sig: u32, feat: u32, timerOnPin2: bool): (t: seq<byte>)
  {
    var es := Entries(n, sig, feat, timerOnPin2);
    TableLength(n, sig, feat, timerOnPin2);
    Fill(Blank() + EncodeAll(es), |es|)
  }

  lemma {:induction false} EncodeLength(es: seq<Entry>, cpus: nat)
    requires cpus <= |es|
    requires forall i :: 0 <= i < |es| ==> (es[i].Processor? <==> i < cpus)
    ensures |EncodeAll(es)| == 20 * cpus + 8 * (|es| - cpus)
    decreases |es|
  {
    if es != [] {
      var n := |es| - 1;
      EncodeLength(es[..n], if cpus > n then n else cpus);
    }
  }

  lemma {:induction false} TableLength(n: byte, sig: u32, feat: u32, timerOnPin2: bool)
    ensures |Blank() + EncodeAll(Entries(n, sig, feat, timerOnPin2))| == HEADER_LEN + 20 * n + 160
  {
    EncodeLength(Entries(n, sig, feat, timerOnPin2), n);
  }

  function Pointer(): (f: seq<byte>)
    ensures |f| == 16
  {
    var f := [0x5f, 0x4d, 0x50, 0x5f] + Le32(MPC_ADDR) + [1, 4, 0, 0, 0, 0, 0, 0];
    f[10 := Checksum(f)]
  }

  /** The stored fields: the table's own length, the number of entries, the signature, a zero byte sum. */
  lemma {:induction false} FilledHeader(t: seq<byte>, count: u16)
    requires HEADER_LEN <= |t| < POW16 && t[7] == 0
    ensures var r := Fill(t, count);
            && U16At(r, 4) == |t| && U16At(r, 34) == count && Sum(r, |r|) % 256 == 0
            && (forall i :: 0 <= i < |t| && i !in {4, 5, 7, 34, 35} ==> r[i] == t[i])
  {
    hide Checksum, Sum;
    var t1 := t[4 := Le16(|t|)[0]][5 := Le16(|t|)[1]][34 := Le16(count)[0]][35 := Le16(count)[1]];
    ChecksumBalances(t1, 7);
  }

  /**
   * For every CPU count, CPU signature and timer wiring: the reader, walking by entry size, finds the stored
   * number of entries, ends exactly at the stored length, and recovers the intended entries; the bytes sum to zero.
   */
  lemma {:induction false} TableReadsBack(n: byte, sig: u32, feat: u32, timerOnPin2: bool)
    ensures var t := Table(n, sig, feat, timerOnPin2); var es := Entries(n, sig, feat, timerOnPin2);
            && |t| == HEADER_LEN + 20 * n + 160 == U16At(t, 4) && U16At(t, 34) == |es|
            && ReadTable(t) == Some(Parsed(es, |t|))
            && Sum(t, |t|) % 256 == 0
  {
    hide Entries, EncodeAll, Fill, Sum, Parse, Le16, Le32;
    var es := Entries(n, sig, feat, timerOnPin2);
    var raw := Blank() + EncodeAll(es);
    var t := Table(n, sig, feat, timerOnPin2);
    TableLength(n, sig, feat, timerOnPin2);
    FilledHeader(raw, |es|);
    var head := t[..HEADER_LEN];
    assert t == head + EncodeAll(es);
    assert Slice(t, 0, 4) == [0x50, 0x43, 0x4d, 0x50];
    ParseFrom(head, es, 0);
    assert es[..0] == [] && EncodeAll([]) == [] by { EmptyEncode(); }
  }

  lemma EmptyEncode()
    ensures EncodeAll([]) == []
  {
  }

  /** Processor `i` of the table: its identification, enabled, and the bootstrap processor exactly if it is CPU 0. */
  predicate CpuRight(e: Entry, i: nat, sig: u32, feat: u32)
  {
    && e.Processor? && e.id == i && e.version == 0x14 && e.sig == sig && e.feat == feat
    && e.flags == if i == 0 then 3 else 1
  }

  /**
   * What those entries say: CPUs 0 to n-1 in order, CPU 0 alone the bootstrap processor; one ISA bus; one usable I/O
   * APIC at its default address with an id no CPU has, to which every ISA interrupt is routed with conforming polarity
   * and trigger; ExtINT and NMI on the local inputs of all CPUs.
   */
  lemma EntriesMean(n: byte, sig: u32, feat: u32, timerOnPin2: bool)
    ensures var es := Entries(n, sig, feat, timerOnPin2);
            && (forall i :: 0 <= i < n ==> CpuRight(es[i], i, sig, feat))
            && es[n] == IoBus(0, [0x49, 0x53, 0x41, 0x20, 0x20, 0x20])
            && es[n + 1] == IoApic(n, 0x11, 1, 0xfec0_0000)
            && (forall i :: 0 <= i < n ==> es[i].id != es[n + 1].id)
            && (forall i :: n + 2 <= i < n + 18 ==>
                  es[i].IntSrc? && es[i].trigger == 0 && es[i].bus == 0 && es[i].apic == n && es[i].pin == i - (n + 2))
            && es[n + 18] == LintSrc(3, 0, 0, 0, 0xff, 0)
            && es[n + 19] == LintSrc(1, 0, 0, 0, 0xff, 1)
  {
  }

  /** The timer, ISA interrupt 0, arrives on pin 0 or on pin 2, as wired; the others go straight through. */
  lemma PinsMean(pin: byte, apic: byte, timerOnPin2: bool)
    requires pin < 16
    ensures var e := PinEntry(pin, apic, timerOnPin2);
            && (e.kind == 3 <==> timerOnPin2 && pin == 0) && (e.kind == 0 <==> !(timerOnPin2 && pin == 0))
            && (e.kind == 0 && e.irq == 0 <==> pin == if timerOnPin2 then 2 else 0)
            && (e.kind == 0 && e.irq != 0 ==> e.irq == e.pin)
  {
  }

  /** The floating pointer structure sums to zero and points at the table. */
  lemma {:induction false} PointerIsSound()
    ensures Sum(Pointer(), 16) % 256 == 0 && U32At(Pointer(), 4) == MPC_ADDR
  {
    hide Sum, Checksum, Le32, U32At;
    var f := [0x5f, 0x4d, 0x50, 0x5f] + Le32(MPC_ADDR) + [1, 4, 0, 0, 0, 0, 0, 0];
    ChecksumBalances(f, 10);
    Reads32(Pointer(), 4, MPC_ADDR);
  }
}
