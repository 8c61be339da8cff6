/** Building the MP table byte by byte and placing it in guest memory (src/mptable.rs). */
module MpWriter {
  import opened Bytes
  import opened Memory
  import opened MpTable

  /** The stores that place the table and its pointer: the table first, and nothing more if it does not fit. */
  function TableStores(t: seq<byte>, size: nat): (ws: seq<Write>)
  {
    if MPC_ADDR + |t| > size then [] else [Write(MPC_ADDR, t), Write(MPF_ADDR, Pointer())]
  }

  method ComputeChecksum(bs: seq<byte>) returns (c: byte)
    ensures c == Checksum(bs)
  {
    var sum: nat := 0;
    for i := 0 to |bs|
      invariant sum == Sum(bs, i) % 256
    {
      var b: nat := bs[i];
      sum := (sum + b) % 256;
    }
    c := (256 - sum) % 256;
  }

  lemma BytesAssoc(a: seq<byte>, b: seq<byte>, c: seq<byte>)
    ensures (a + b) + c == a + (b + c)
  {
  }

  /** One processor entry, pushed field by field. */
  method PushCpu(table: seq<byte>, id: byte, sig: u32, feat: u32) returns (mpc: seq<byte>)
    ensures mpc == table + Encode(CpuEntry(id, sig, feat))
  {
    hide Le32;
    var flags := if id == 0 then 3 else 1;
    mpc := table + [0, id, LAPIC_VERSION, flags];
    mpc := mpc + Le32(sig);
    mpc := mpc + Le32(feat);
    mpc := mpc + Le32(0);
    mpc := mpc + Le32(0);
  }

  method PushCpus(table: seq<byte>, numCpus: byte, sig: u32, feat: u32) returns (mpc: seq<byte>, count: u16)
    ensures mpc == table + EncodeAll(Cpus(numCpus, sig, feat)) && count == numCpus
  {
    hide Encode, EncodeAll;
    mpc, count := table, 0;
    var id: nat := 0;
    EmptyEncode();
    while id < numCpus
      invariant 0 <= id <= numCpus && count == id
      invariant mpc == table + EncodeAll(Cpus(id, sig, feat))
    {
      mpc := PushCpu(mpc, id, sig, feat);
      BytesAssoc(table, EncodeAll(Cpus(id, sig, feat)), Encode(CpuEntry(id, sig, feat)));
      EncodeAllSnoc(Cpus(id, sig, feat), CpuEntry(id, sig, feat));
      id, count := id + 1, count + 1;
    }
  }

  method PushPin(table: seq<byte>, pin: byte, apic: byte, timerOnPin2: bool) returns (mpc: seq<byte>)
    ensures mpc == table + Encode(PinEntry(pin, apic, timerOnPin2))
  {
    hide Le16;
    var kind, irq := IRQ_INT, pin;
    if timerOnPin2 {
      if pin == 0 {
        kind, irq := IRQ_EXTINT, 0;
      } else if pin == 2 {
        irq := 0;
      }
    }
    mpc := table + [3, kind];
    mpc := mpc + Le16(0);
    mpc := mpc + [0, irq, apic, pin];
  }

  method PushPins(table: seq<byte>, apic: byte, timerOnPin2: bool, entries: u16) returns (mpc: seq<byte>, count: u16)
    requires entries + 16 < POW16
    ensures mpc == table + EncodeAll(Pins(16, apic, timerOnPin2)) && count == entries + 16
  {
    hide Encode, EncodeAll;
    mpc, count := table, entries;
    var pin: nat := 0;
    EmptyEncode();
    while pin < 16
      invariant 0 <= pin <= 16 && count == entries + pin
      invariant mpc == table + EncodeAll(Pins(pin, apic, timerOnPin2))
    {
      mpc := PushPin(mpc, pin, apic, timerOnPin2);
      BytesAssoc(table, EncodeAll(Pins(pin, apic, timerOnPin2)), Encode(PinEntry(pin, apic, timerOnPin2)));
      EncodeAllSnoc(Pins(pin, apic, timerOnPin2), PinEntry(pin, apic, timerOnPin2));
      pin, count := pin + 1, count + 1;
    }
  }

  lemma {:induction false} EncodeAllConcat(a: seq<Entry>, b: seq<Entry>)
    ensures EncodeAll(a + b) == EncodeAll(a) + EncodeAll(b)
    decreases |b|
  {
    hide Encode, EncodeAll;
    if b == [] {
      assert a + b == a;
      EmptyEncode();
    } else {
      var init, last := b[..|b| - 1], b[|b| - 1];
      EncodeAllConcat(a, init);
      assert b == init + [last] && a + b == (a + init) + [last];
      EncodeAllSnoc(a + init, last);
      EncodeAllSnoc(init, last);
      BytesAssoc(EncodeAll(a), EncodeAll(init), Encode(last));
    }
  }

  /** The pushes, part by part, make up the encoding of all entries. */
  lemma {:induction false} PartsEncode(n: byte, sig: u32, feat: u32, timerOnPin2: bool)
    ensures EncodeAll(Entries(n, sig, feat, timerOnPin2))
         == EncodeAll(Cpus(n, sig, feat)) + Encode(IsaBus()) + Encode(ApicEntry(n))
            + EncodeAll(Pins(16, n, timerOnPin2))
            + Encode(LintEntry(IRQ_EXTINT, 0)) + Encode(LintEntry(IRQ_NMI, 1))
  {
    hide Encode, EncodeAll;
    var cpus, pins := Cpus(n, sig, feat), Pins(16, n, timerOnPin2);
    var bus, apic, l0, l1 := IsaBus(), ApicEntry(n), LintEntry(IRQ_EXTINT, 0), LintEntry(IRQ_NMI, 1);
    EncodeAllSnoc(cpus, bus);
    EncodeAllSnoc(cpus + [bus], apic);
    var front := cpus + [bus] + [apic];
    EncodeAllConcat(front, pins);
    EncodeAllSnoc(front + pins, l0);
    EncodeAllSnoc(front + pins + [l0], l1);
    assert Entries(n, sig, feat, timerOnPin2) == front + pins + [l0] + [l1];
  }

  /** Header and entries, before the backfill. */
  method PushAll(numCpus: byte, sig: u32, feat: u32, timerOnPin2: bool) returns (mpc: seq<byte>, entries: u16)
    ensures var es := Entries(numCpus, sig, feat, timerOnPin2); mpc == Blank() + EncodeAll(es) && entries == |es|
  {
    hide EncodeAll, Le16, Le32, Cpus, Pins, Blank, Encode;
    mpc, entries := PushCpus(Blank(), numCpus, sig, feat);
    mpc := PushRest(mpc, numCpus);
    entries := entries + 2;
    mpc, entries := PushPins(mpc, numCpus, timerOnPin2, entries);
    mpc := PushLints(mpc);
    entries := entries + 2;
    PartsEncode(numCpus, sig, feat, timerOnPin2);
    Gather(Blank(), EncodeAll(Cpus(numCpus, sig, feat)), Encode(IsaBus()), Encode(ApicEntry(numCpus)),
           EncodeAll(Pins(16, numCpus, timerOnPin2)), Encode(LintEntry(IRQ_EXTINT, 0)), Encode(LintEntry(IRQ_NMI, 1)));
  }

  lemma {:induction false} Gather(h: seq<byte>, a: seq<byte>, b: seq<byte>, c: seq<byte>, d: seq<byte>,
                                  e: seq<byte>, f: seq<byte>)
    ensures h + a + b + c + d + e + f == h + (a + b + c + d + e + f)
  {
    BytesAssoc(h, a, b);
    BytesAssoc(h, a + b, c);
    BytesAssoc(h, a + b + c, d);
    BytesAssoc(h, a + b + c + d, e);
    BytesAssoc(h, a + b + c + d + e, f);
  }

  /** The ISA bus and the I/O APIC. */
  method PushRest(table: seq<byte>, apic: byte) returns (mpc: seq<byte>)
    ensures mpc == table + Encode(IsaBus()) + Encode(ApicEntry(apic))
  {
    hide Le32;
    mpc := table + ([1, 0] + [0x49, 0x53, 0x41, 0x20, 0x20, 0x20]);
    mpc := mpc + ([2, apic, IOAPIC_VERSION, 1] + Le32(IOAPIC_BASE));
  }

  /** ExtINT on LINT0 and NMI on LINT1 of every CPU. */
  method PushLints(table: seq<byte>) returns (mpc: seq<byte>)
    ensures mpc == table + Encode(LintEntry(IRQ_EXTINT, 0)) + Encode(LintEntry(IRQ_NMI, 1))
  {
    hide Le16;
    mpc := table + ([4, IRQ_EXTINT] + Le16(0) + [0, 0, ALL_APICS, 0]);
    mpc := mpc + ([4, IRQ_NMI] + Le16(0) + [0, 0, ALL_APICS, 1]);
  }

  /** Build the configuration table: header, entries, then the backfilled length, count and checksum. */
  method BuildTable(numCpus: byte, sig: u32, feat: u32, timerOnPin2: bool) returns (mpc: seq<byte>)
    ensures mpc == Table(numCpus, sig, feat, timerOnPin2)
  {
    hide EncodeAll, Checksum, Le16, Blank, Entries;
    var entries;
    mpc, entries := PushAll(numCpus, sig, feat, timerOnPin2);
    TableLength(numCpus, sig, feat, timerOnPin2);
    var length := Le16(|mpc|);
    var counted := Le16(entries);
    mpc := mpc[4 := length[0]][5 := length[1]];
    mpc := mpc[34 := counted[0]][35 := counted[1]];
    var c := ComputeChecksum(mpc);
    mpc := mpc[7 := c];
  }

  method BuildPointer() returns (mpf: seq<byte>)
    ensures mpf == Pointer()
  {
    hide Checksum, Le32;
    mpf := [0x5f, 0x4d, 0x50, 0x5f] + Le32(MPC_ADDR) + [1, 4, 0, 0, 0, 0, 0, 0];
    var c := ComputeChecksum(mpf);
    mpf := mpf[10 := c];
  }

  method WriteMptable(mem: GuestMemory, numCpus: byte, sig: u32, feat: u32, timerOnPin2: bool) returns (ok: bool)
    requires mem.Valid()
    modifies mem, mem.data
    ensures mem.Valid()
    ensures var t := Table(numCpus, sig, feat, timerOnPin2);
            ok == (MPC_ADDR + |t| <= mem.data.Length) && mem.log == old(mem.log) + TableStores(t, mem.data.Length)
  {
    hide Table, Pointer, Splice;
    var mpc := BuildTable(numCpus, sig, feat, timerOnPin2);
    var mpf := BuildPointer();
    ok := mem.WriteAt(MPC_ADDR, mpc);
    if ok {
      ok := mem.WriteAt(MPF_ADDR, mpf);
    }
  }

  /** Afterwards the table is at the address in the floating structure, so a guest reader gets the intended entries. */
  lemma {:induction false} GuestReadsTable(m: seq<byte>, n: byte, sig: u32, feat: u32, timerOnPin2: bool)
    requires MPC_ADDR + |Table(n, sig, feat, timerOnPin2)| <= |m|
    ensures var t := Table(n, sig, feat, timerOnPin2); var m' := Replay(m, TableStores(t, |m|));
            && Slice(m', MPF_ADDR, 16) == Pointer()
            && ReadTable(Slice(m', U32At(m', MPF_ADDR + 4), |t|))
               == Some(Parsed(Entries(n, sig, feat, timerOnPin2), |t|))
  {
    hide Table, Pointer, Entries, ReadTable, Sum;
    var t := Table(n, sig, feat, timerOnPin2);
    var w0, w1 := Write(MPC_ADDR, t), Write(MPF_ADDR, Pointer());
    TwoStores(m, w0, w1);
    var m' := Splice(Splice(m, w0.at, w0.data), w1.at, w1.data);
    assert Slice(m', MPF_ADDR, 16) == Pointer();
    PointerIsSound();
    assert U32At(m', MPF_ADDR + 4) == U32At(Pointer(), 4);
    assert Slice(m', MPC_ADDR, |t|) == t;
    TableReadsBack(n, sig, feat, timerOnPin2);
  }
}
