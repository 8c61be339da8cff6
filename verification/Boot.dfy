/** The ELF boot path: everything written to guest memory before the vCPUs start (src/boot.rs, src/main.rs). */
module Boot {
  import opened Arith
  import opened Bytes
  import opened Memory
  import opened Elf
  import opened Paging
  import Mp = MpTable
  import MpWriter

  const GDT_ADDR := 0x500
  const ZERO_PAGE := 0x7000
  const CMDLINE_ADDR := 0x2_0000
  const CMDLINE_MAX := 2048
  const INITRD_ADDR := 0x800_0000

  /** A segment descriptor: base, 20-bit limit, access byte, flag nibble, as `segment_gdt_entry` packs them. */
  function GdtEntry(base: u32, limit: nat, access: byte, flags: nat): u64
    requires limit < 0x10_0000 && flags < 16
  {
    base / 0x100_0000 * 0x100_0000_0000_0000 + base % 0x100_0000 * 0x1_0000
    + limit % 0x1_0000 + limit / 0x1_0000 * 0x1_0000_0000_0000
    + flags * 0x10_0000_0000_0000 + access * 0x100_0000_0000
  }

  /** The fields of a segment descriptor (Intel SDM volume 3A, section 3.4.5). */
  datatype Descriptor = Descriptor(base: nat, limit: nat, access: nat, flags: nat)

  function ReadDescriptor(e: u64): (d: Descriptor)
  {
    Descriptor(e / 0x1_0000 % 0x100_0000 + e / 0x100_0000_0000_0000 * 0x100_0000,
               e % 0x1_0000 + e / 0x1_0000_0000_0000 % 0x10 * 0x1_0000,
               e / 0x100_0000_0000 % 0x100,
               e / 0x10_0000_0000_0000 % 0x10)
  }

  /** A packed descriptor reads back field by field, for every base, limit, access byte and flags. */
  lemma {:induction false} DescriptorReadsBack(base: u32, limit: nat, access: byte, flags: nat)
    requires limit < 0x10_0000 && flags < 16
    ensures ReadDescriptor(GdtEntry(base, limit, access, flags)) == Descriptor(base, limit, access, flags)
  {
    var e: nat := GdtEntry(base, limit, access, flags);
    var b1, b0, l1, l0 := base / 0x100_0000, base % 0x100_0000, limit / 0x1_0000, limit % 0x1_0000;
    var x3: nat := b1 * 0x10 + flags;
    var x2: nat := x3 * 0x10 + l1;
    var x1: nat := x2 * 0x100 + access;
    var x0: nat := x1 * 0x100_0000 + b0;
    DivUnique(e, x0, l0, 0x1_0000);
    DivUnique(x0, x1, b0, 0x100_0000);
    DivUnique(e, x1, b0 * 0x1_0000 + l0, 0x100_0000_0000);
    DivUnique(x1, x2, access, 0x100);
    DivUnique(e, x2, access * 0x100_0000_0000 + b0 * 0x1_0000 + l0, 0x1_0000_0000_0000);
    DivUnique(x2, x3, l1, 0x10);
    DivUnique(e, x3, e - x3 * 0x10_0000_0000_0000, 0x10_0000_0000_0000);
    DivUnique(x3, b1, flags, 0x10);
    DivUnique(e, b1, e - b1 * 0x100_0000_0000_0000, 0x100_0000_0000_0000);
  }

  /** Null, 64-bit code, data: present, ring 0, limit 0xfffff, page granular, long mode. */
  function GdtTable(): (t: seq<u64>)
    ensures |t| == 3
  {
    [0, GdtEntry(0, 0xf_ffff, 0x9b, 0xa), GdtEntry(0, 0xf_ffff, 0x93, 0xa)]
  }

  lemma {:induction false} GdtMeans()
    ensures GdtTable()[0] == 0
    ensures ReadDescriptor(GdtTable()[1]) == Descriptor(0, 0xf_ffff, 0x9b, 0xa)
    ensures ReadDescriptor(GdtTable()[2]) == Descriptor(0, 0xf_ffff, 0x93, 0xa)
  {
    hide GdtEntry, ReadDescriptor;
    DescriptorReadsBack(0, 0xf_ffff, 0x9b, 0xa);
    DescriptorReadsBack(0, 0xf_ffff, 0x93, 0xa);
  }

  function GdtStores(k: nat): (ws: seq<Write>)
    requires k <= 3
    ensures |ws| == k && forall i :: 0 <= i < k ==> ws[i].at == GDT_ADDR + 8 * i && |ws[i].data| == 8
  {
    if k == 0 then [] else GdtStores(k - 1) + [Write(GDT_ADDR + 8 * (k - 1), Le64(GdtTable()[k - 1]))]
  }

  /** `initrd` is None when no image is given; the 4 KiB boot parameters are taken as a block. */
  datatype BootInput = BootInput(kernel: seq<byte>, initrd: Option<seq<byte>>, params: seq<byte>, cmdline: seq<byte>)

  /** Exactly when the kernel loads and everything after it has room. */
  predicate Fits(b: BootInput, size: nat)
  {
    && LoadElf(b.kernel, size).ok
    && (b.initrd.Some? ==> |b.initrd.value| < POW32 && 0x800_0000 + |b.initrd.value| <= size)
    && |b.cmdline| < 2048 && 0x2_0000 + |b.cmdline| < size
  }

  function InitrdStores(initrd: Option<seq<byte>>): (ws: seq<Write>)
  {
    match initrd case Some(image) => [Write(INITRD_ADDR, image)] case None => []
  }

  /** The stores of a successful boot up to the page tables, in order. */
  function EarlyStores(b: BootInput, size: nat): (ws: seq<Write>)
  {
    LoadElf(b.kernel, size).writes + InitrdStores(b.initrd)
    + [Write(ZERO_PAGE, b.params)] + [Write(CMDLINE_ADDR, b.cmdline + [0])] + GdtStores(3)
  }

  // ---- Nothing else touches the tables ----

  lemma HighAvoids(ws: seq<Write>, size: nat)
    requires HighOnly(ws, size)
    ensures Avoids(ws, PML4, TABLES_END)
  {
  }

  lemma {:induction false} EarlyAvoidsTables(b: BootInput, size: nat)
    requires size < POW64 && |b.params| == 4096 && |b.cmdline| < CMDLINE_MAX
    ensures Avoids(EarlyStores(b, size), PML4, TABLES_END)
  {
    hide LoadElf, Avoids;
    var kernel := LoadElf(b.kernel, size).writes;
    KernelAvoids(b.kernel, size);
    var initrd := InitrdStores(b.initrd);
    InitrdAvoids(b.initrd);
    AvoidsConcat(kernel, initrd, PML4, TABLES_END);
    LowAvoids(b.params, b.cmdline);
    AvoidsConcat(kernel + initrd, [Write(ZERO_PAGE, b.params)], PML4, TABLES_END);
    AvoidsConcat(kernel + initrd + [Write(ZERO_PAGE, b.params)], [Write(CMDLINE_ADDR, b.cmdline + [0])],
                 PML4, TABLES_END);
    GdtAvoids();
    AvoidsConcat(kernel + initrd + [Write(ZERO_PAGE, b.params)] + [Write(CMDLINE_ADDR, b.cmdline + [0])], GdtStores(3),
                 PML4, TABLES_END);
  }

  lemma {:induction false} KernelAvoids(file: seq<byte>, size: nat)
    requires size < POW64
    ensures Avoids(LoadElf(file, size).writes, PML4, TABLES_END)
  {
    hide LoadSegments;
    var h := ReadEhdr(file);
    if h.Some? {
      LoaderStaysHigh(file, h.value, size, h.value.phnum);
      HighAvoids(LoadElf(file, size).writes, size);
    }
  }

  lemma InitrdAvoids(initrd: Option<seq<byte>>)
    ensures Avoids(InitrdStores(initrd), PML4, TABLES_END)
  {
  }

  lemma LowAvoids(params: seq<byte>, cmdline: seq<byte>)
    requires |params| == 4096 && |cmdline| < CMDLINE_MAX
    ensures Avoids([Write(ZERO_PAGE, params)], PML4, TABLES_END)
    ensures Avoids([Write(CMDLINE_ADDR, cmdline + [0])], PML4, TABLES_END)
  {
  }

  lemma GdtAvoids()
    ensures Avoids(GdtStores(3), PML4, TABLES_END)
  {
  }

  lemma MpAvoids(t: seq<byte>, size: nat)
    ensures Avoids(MpWriter.TableStores(t, size), PML4, TABLES_END)
  {
  }

  /** The stores of the whole boot sequence; the MP table comes last, and only for more than one CPU. */
  function BootStores(b: BootInput, size: nat, mp: Option<seq<byte>>): (ws: seq<Write>)
  {
    EarlyStores(b, size) + Paging.TableStores()
    + (match mp case Some(t) => MpWriter.TableStores(t, size) case None => [])
  }

  /**
   * After the whole sequence on zeroed memory, a page walk from CR3 maps every address below 1 GiB to itself,
   * writable, and finds every other address below 2^48 not present.
   */
  lemma {:induction false} BootMapsIdentity(b: BootInput, size: nat, mp: Option<seq<byte>>, va: nat)
    requires TABLES_END <= size < POW64 && |b.params| == 4096 && |b.cmdline| < CMDLINE_MAX && va < 0x1_0000_0000_0000
    ensures var m := Replay(Zeros(size), BootStores(b, size, mp));
            PageWalk(m, 0xa000, va) == if va < 0x4000_0000 then Mapped(va, true) else NotPresent
  {
    hide EarlyStores, Paging.TableStores, MpWriter.TableStores, Replay, PageWalk, Installed, Avoids;
    EarlyAvoidsTables(b, size);
    var after := match mp case Some(t) => MpWriter.TableStores(t, size) case None => [];
    if mp.Some? {
      MpAvoids(mp.value, size);
    } else {
      NoneAvoids();
    }
    TablesSurvive(size, EarlyStores(b, size), after);
    IdentityMap(Replay(Zeros(size), EarlyStores(b, size) + Paging.TableStores() + after), va);
  }

  lemma NoneAvoids()
    ensures Avoids([], PML4, TABLES_END)
  {
  }

  // ---- The image after the whole sequence ----

  /** Everything the sequence stores after the kernel, in order. */
  function LaterStores(b: BootInput, size: nat, mp: Option<seq<byte>>): (ws: seq<Write>)
  {
    [Write(ZERO_PAGE, b.params)] + [Write(CMDLINE_ADDR, b.cmdline + [0])] + GdtStores(3) + Paging.TableStores()
    + (match mp case Some(t) => MpWriter.TableStores(t, size) case None => [])
  }

  lemma {:induction false} BootSplits(b: BootInput, size: nat, mp: Option<seq<byte>>)
    ensures BootStores(b, size, mp)
         == LoadElf(b.kernel, size).writes + (InitrdStores(b.initrd) + LaterStores(b, size, mp))
  {
    hide LoadElf, GdtStores, Paging.TableStores, MpWriter.TableStores;
  }

  lemma {:induction false} PdOutside(k: nat, lo: nat, hi: nat)
    requires k <= 512 && (hi <= PML4 || TABLES_END <= lo)
    ensures Avoids(PdStores(k), lo, hi)
  {
    hide Le64, PdEntry;
    if k > 0 {
      PdOutside(k - 1, lo, hi);
    }
  }

  lemma {:induction false} TablesOutside(lo: nat, hi: nat)
    requires hi <= PML4 || TABLES_END <= lo
    ensures Avoids(Paging.TableStores(), lo, hi)
  {
    hide PdStores, Le64;
    PdOutside(512, lo, hi);
    AvoidsConcat(TABLE_HEAD, PdStores(512), lo, hi);
  }

  /** Apart from the initrd nothing is stored above 1 MiB after the kernel. */
  lemma {:induction false} LaterStaysLow(b: BootInput, size: nat, mp: Option<seq<byte>>, a: nat)
    requires |b.params| == 4096 && |b.cmdline| < CMDLINE_MAX && a >= HIMEM
    requires mp.Some? ==> Mp.MPC_ADDR + |mp.value| <= HIMEM
    ensures Avoids(LaterStores(b, size, mp), a, a + 1)
  {
    hide Paging.TableStores, MpWriter.TableStores, GdtStores, Avoids;
    var low := [Write(ZERO_PAGE, b.params)] + [Write(CMDLINE_ADDR, b.cmdline + [0])] + GdtStores(3);
    LowBelow(b, a);
    TablesOutside(a, a + 1);
    AvoidsConcat(low, Paging.TableStores(), a, a + 1);
    var last := match mp case Some(t) => MpWriter.TableStores(t, size) case None => [];
    MpBelow(mp, size, a);
    AvoidsConcat(low + Paging.TableStores(), last, a, a + 1);
  }

  lemma LowBelow(b: BootInput, a: nat)
    requires |b.params| == 4096 && |b.cmdline| < CMDLINE_MAX && a >= HIMEM
    ensures Avoids([Write(ZERO_PAGE, b.params)] + [Write(CMDLINE_ADDR, b.cmdline + [0])] + GdtStores(3), a, a + 1)
  {
  }

  lemma MpBelow(mp: Option<seq<byte>>, size: nat, a: nat)
    requires a >= HIMEM && (mp.Some? ==> Mp.MPC_ADDR + |mp.value| <= HIMEM)
    ensures Avoids(match mp case Some(t) => MpWriter.TableStores(t, size) case None => [], a, a + 1)
  {
  }

  /** Above 1 MiB memory ends up with the initrd where it lies, and what the kernel loader left everywhere else. */
  lemma {:induction false} HighMemory(b: BootInput, size: nat, mp: Option<seq<byte>>, a: nat)
    requires Fits(b, size) && |b.params| == 4096 && HIMEM <= a < size
    requires mp.Some? ==> Mp.MPC_ADDR + |mp.value| <= HIMEM
    ensures var m := Replay(Zeros(size), BootStores(b, size, mp));
            m[a] == if b.initrd.Some? && INITRD_ADDR <= a < INITRD_ADDR + |b.initrd.value| then
                      b.initrd.value[a - INITRD_ADDR]
                    else Replay(Zeros(size), LoadElf(b.kernel, size).writes)[a]
  {
    hide LoadElf, BootStores, LaterStores, Replay, Avoids;
    var kernel, later := LoadElf(b.kernel, size).writes, LaterStores(b, size, mp);
    var m := Replay(Zeros(size), kernel);
    BootSplits(b, size, mp);
    ReplayConcat(Zeros(size), kernel, InitrdStores(b.initrd) + later);
    ReplayConcat(m, InitrdStores(b.initrd), later);
    LaterStaysLow(b, size, mp, a);
    ReplayAvoids(Replay(m, InitrdStores(b.initrd)), later, a, a + 1);
    ReplayNothing(m);
    if b.initrd.Some? {
      var w := Write(INITRD_ADDR, b.initrd.value);
      assert [] + [w] == InitrdStores(b.initrd);
      ReplaySnoc(m, [], w);
    }
  }

  /** Wherever a segment and the initrd share an address, the initrd holds what the segment wants there. */
  ghost predicate InitrdAgrees(b: BootInput, h: Ehdr)
    requires HeadersRead(b.kernel, h, h.phnum)
  {
    b.initrd.Some? ==>
      forall i :: 0 <= i < h.phnum ==> Agrees(b.kernel, Seg(b.kernel, h, i), b.initrd.value)
  }

  ghost predicate Agrees(file: seq<byte>, p: Phdr, initrd: seq<byte>)
  {
    forall a :: INITRD_ADDR <= a < INITRD_ADDR + |initrd| && Covers(p, a) ==>
      initrd[a - INITRD_ADDR] == ImageByte(file, p, a)
  }

  /**
   * After the whole sequence the kernel image is in place exactly when the initrd, which is stored at 128 MiB without a
   * look at the segments, agrees with them where it covers them: in particular when it covers none of their bytes.
   */
  lemma {:induction false} ImageSurvivesBoot(b: BootInput, h: Ehdr, size: nat, mp: Option<seq<byte>>)
    requires size < POW64 && Fits(b, size) && |b.params| == 4096 && ReadEhdr(b.kernel) == Some(h)
    requires mp.Some? ==> Mp.MPC_ADDR + |mp.value| <= HIMEM
    requires HeadersRead(b.kernel, h, h.phnum) && Sound(b.kernel, h, h.phnum)
    ensures Placed(b.kernel, h, h.phnum, Replay(Zeros(size), BootStores(b, size, mp))) <==> InitrdAgrees(b, h)
  {
    hide Replay, BootStores, LoadSegments, Sound, ReadEhdr, ReadPhdr;
    var m := Replay(Zeros(size), BootStores(b, size, mp));
    ImageInPlace(b.kernel, h, Zeros(size), h.phnum);
    forall i | 0 <= i < h.phnum
      ensures InPlace(b.kernel, Seg(b.kernel, h, i), m)
              <==> (b.initrd.Some? ==> Agrees(b.kernel, Seg(b.kernel, h, i), b.initrd.value))
    {
      SegmentSurvives(b, Seg(b.kernel, h, i), size, mp);
    }
  }

  lemma {:induction false} SegmentSurvives(b: BootInput, p: Phdr, size: nat, mp: Option<seq<byte>>)
    requires size < POW64 && Fits(b, size) && |b.params| == 4096
    requires mp.Some? ==> Mp.MPC_ADDR + |mp.value| <= HIMEM
    requires InPlace(b.kernel, p, Replay(Zeros(size), LoadElf(b.kernel, size).writes))
    ensures InPlace(b.kernel, p, Replay(Zeros(size), BootStores(b, size, mp)))
            <==> (b.initrd.Some? ==> Agrees(b.kernel, p, b.initrd.value))
  {
    hide Replay, BootStores, LoadElf, ImageByte, Fits;
    forall a: nat | Covers(p, a) && a < size
      ensures var m := Replay(Zeros(size), BootStores(b, size, mp));
              m[a] == if b.initrd.Some? && INITRD_ADDR <= a < INITRD_ADDR + |b.initrd.value| then
                        b.initrd.value[a - INITRD_ADDR]
                      else Replay(Zeros(size), LoadElf(b.kernel, size).writes)[a]
    {
      HighMemory(b, size, mp, a);
    }
  }

  /** A kernel file of one header and one segment: a byte 0xaa to be loaded at 128 MiB. */
  function ByteAt128M(): (file: seq<byte>)
    ensures |file| == 121
  {
    seq(121, i requires 0 <= i => HeaderByte(i))
  }

  function HeaderByte(i: nat): (b: byte)
  {
    match i
    case 0 => 0x7f
    case 1 => 0x45
    case 2 => 0x4c
    case 3 => 0x46
    case 4 => 2
    case 32 => 64
    case 54 => 56
    case 56 => 1
    case 64 => 1
    case 72 => 120
    case 91 => 8
    case 96 => 1
    case 104 => 1
    case 120 => 0xaa
    case _ => 0
  }

  lemma FileByte(i: nat)
    requires i < 121
    ensures ByteAt128M()[i] == HeaderByte(i)
  {
  }

  lemma {:induction false} HeaderOf128M()
    ensures ReadEhdr(ByteAt128M()) == Some(Ehdr(0, 64, 56, 1))
    ensures ReadPhdr(ByteAt128M(), Ehdr(0, 64, 56, 1), 0) == Some(Phdr(1, 120, INITRD_ADDR, 1, 1))
  {
    hide ByteAt128M, U16At, U32At, U64At;
    var file := ByteAt128M();
    forall i | 0 <= i < 121
      ensures file[i] == HeaderByte(i)
    {
      FileByte(i);
    }
    Sparse(file, 24, 8);
    Sparse(file, 32, 8);
    Sparse(file, 54, 2);
    Sparse(file, 56, 2);
    Sparse(file, 64, 4);
    Sparse(file, 72, 8);
    Sparse(file, 88, 8);
    Sparse(file, 96, 8);
    Sparse(file, 104, 8);
    assert Wrap64(64 + 0 * 56) == 64;
  }

  /** The limit is reached: an initrd of one other byte overwrites that segment, and the boot still succeeds. */
  lemma {:induction false} InitrdOverwrites(params: seq<byte>)
    requires |params| == 4096
    ensures var b := BootInput(ByteAt128M(), Some([0xbb]), params, []);
            var h := Ehdr(0, 64, 56, 1);
            var size := INITRD_ADDR + 0x1000;
            && Fits(b, size) && ReadEhdr(b.kernel) == Some(h)
            && HeadersRead(b.kernel, h, h.phnum) && Sound(b.kernel, h, h.phnum)
            && !Placed(b.kernel, h, h.phnum, Replay(Zeros(size), BootStores(b, size, None)))
  {
    hide ByteAt128M, ReadEhdr, ReadPhdr, Replay, BootStores, Placed, Zeros;
    var file, h, size := ByteAt128M(), Ehdr(0, 64, 56, 1), INITRD_ADDR + 0x1000;
    var b := BootInput(file, Some([0xbb]), params, []);
    HeaderOf128M();
    var p := Phdr(1, 120, INITRD_ADDR, 1, 1);
    assert LoadSegment(file, p, size).ok;
    assert LoadSegments(file, h, size, 0) == Loaded(true, []);
    assert LoadSegments(file, h, size, 1).ok;
    assert Seg(file, h, 0) == p;
    ImageSurvivesBoot(b, h, size, None);
    FileByte(120);
    assert Covers(p, INITRD_ADDR) && ImageByte(file, p, INITRD_ADDR) == 0xaa;
    assert !Agrees(file, p, [0xbb]);
  }

  // ---- The boot code ----

  method LoadInitrd(mem: GuestMemory, initrd: Option<seq<byte>>) returns (ok: bool)
    requires mem.Valid()
    modifies mem, mem.data
    ensures mem.Valid()
    ensures ok ==> mem.log == old(mem.log) + InitrdStores(initrd)
    ensures !ok ==> mem.log == old(mem.log)
    ensures ok <==> initrd.None? || (|initrd.value| < POW32 && 0x800_0000 + |initrd.value| <= mem.data.Length)
  {
    hide Splice, Replay;
    if initrd.None? {
      return true;
    }
    if |initrd.value| >= POW32 {
      return false;
    }
    ok := mem.WriteAt(INITRD_ADDR, initrd.value);
  }

  method SetupCmdline(mem: GuestMemory, cmdline: seq<byte>) returns (ok: bool)
    requires mem.Valid()
    modifies mem, mem.data
    ensures mem.Valid()
    ensures ok <==> |cmdline| < 2048 && 0x2_0000 + |cmdline| < mem.data.Length
    ensures mem.log == old(mem.log) + if ok then [Write(CMDLINE_ADDR, cmdline + [0])] else []
  {
    hide Splice, Replay;
    var bytes := cmdline + [0];
    if |bytes| > CMDLINE_MAX {
      return false;
    }
    ok := mem.WriteAt(CMDLINE_ADDR, bytes);
  }

  method WriteGdt(mem: GuestMemory) returns (ok: bool)
    requires mem.Valid()
    modifies mem, mem.data
    ensures mem.Valid()
    ensures ok <==> GDT_ADDR + 24 <= mem.data.Length
    ensures ok ==> mem.log == old(mem.log) + GdtStores(3)
    ensures !ok ==> exists k :: 0 <= k <= 3 && mem.log == old(mem.log) + GdtStores(k)
  {
    hide Splice, Replay, GdtTable, Le64;
    var table := GdtTable();
    var i: nat := 0;
    while i < 3
      invariant i <= 3 && mem.Valid() && mem.log == old(mem.log) + GdtStores(i)
      invariant i > 0 ==> GDT_ADDR + 8 * i <= mem.data.Length
    {
      var w := mem.WriteAt(GDT_ADDR + 8 * i, Le64(table[i]));
      if !w {
        return false;
      }
      LogAssoc(old(mem.log), GdtStores(i), [Write(GDT_ADDR + 8 * i, Le64(table[i]))]);
      i := i + 1;
    }
    return true;
  }

  lemma PrefixConcat(l: seq<Write>, h: seq<Write>, p: seq<Write>, q: seq<Write>)
    requires p <= q
    ensures l <= l + h + p <= l + (h + q)
  {
  }

  lemma {:induction false} PdPrefix(i: nat, k: nat)
    requires i <= k <= 512
    ensures PdStores(i) <= PdStores(k)
    decreases k
  {
    hide Le64, PdEntry;
    if i < k {
      PdPrefix(i, k - 1);
    }
  }

  /** The page directory: 512 large pages, from address 0 up. */
  method WritePd(mem: GuestMemory) returns (ok: bool)
    requires mem.Valid()
    modifies mem, mem.data
    ensures mem.Valid()
    ensures ok <==> TABLES_END <= mem.data.Length
    ensures ok ==> mem.log == old(mem.log) + PdStores(512)
    ensures !ok ==> exists k :: 0 <= k < 512 && mem.log == old(mem.log) + PdStores(k)
  {
    hide Splice, Replay, Zeros, Le64, PdEntry;
    var i: nat := 0;
    while i < 512
      invariant i <= 512 && mem.Valid() && mem.log == old(mem.log) + PdStores(i)
      invariant PD + 8 * i <= mem.data.Length || i == 0
    {
      ok := mem.WriteAt(PD + 8 * i, Le64(PdEntry(i)));
      if !ok {
        return false;
      }
      LogAssoc(old(mem.log), PdStores(i), [Write(PD + 8 * i, Le64(PdEntry(i)))]);
      i := i + 1;
    }
    return true;
  }

  method WritePageTables(mem: GuestMemory) returns (ok: bool)
    requires mem.Valid()
    modifies mem, mem.data
    ensures mem.Valid()
    ensures ok <==> TABLES_END <= mem.data.Length
    ensures ok ==> mem.log == old(mem.log) + Paging.TableStores()
    ensures old(mem.log) <= mem.log <= old(mem.log) + Paging.TableStores()
  {
    hide Splice, Replay, Zeros, Le64, PdStores;
    LogAssoc(old(mem.log), TABLE_HEAD, PdStores(512));
    ok := mem.WriteAt(PML4, Le64(PDPT + 3));
    if !ok {
      return false;
    }
    ok := mem.WriteAt(PDPT, Le64(PD + 3));
    if !ok {
      return false;
    }
    assert mem.log == old(mem.log) + TABLE_HEAD;
    ok := WritePd(mem);
    if !ok {
      ghost var k :| 0 <= k < 512 && mem.log == old(mem.log) + TABLE_HEAD + PdStores(k);
      PdPrefix(k, 512);
      PrefixConcat(old(mem.log), TABLE_HEAD, PdStores(k), PdStores(512));
    }
  }

  /** The ELF branch of `load_kernel`. */
  method LoadKernel(mem: GuestMemory, b: BootInput) returns (entry: Option<u64>)
    requires mem.Valid() && |b.params| == 4096
    modifies mem, mem.data
    ensures mem.Valid()
    ensures entry.Some? <==> Fits(b, mem.data.Length)
    ensures entry.Some? ==>
              && entry.value == ReadEhdr(b.kernel).value.entry
              && mem.log == old(mem.log) + (EarlyStores(b, mem.data.Length) + Paging.TableStores())
    ensures old(mem.log) <= mem.log <= old(mem.log) + (EarlyStores(b, mem.data.Length) + Paging.TableStores())
  {
    hide Splice, Replay, LoadElf, GdtStores, Paging.TableStores, ReadEhdr;
    ghost var log, kernel := mem.log, LoadElf(b.kernel, mem.data.Length).writes;
    ghost var initrd := InitrdStores(b.initrd);
    Regroup(log, kernel, initrd, [Write(ZERO_PAGE, b.params)], [Write(CMDLINE_ADDR, b.cmdline + [0])], GdtStores(3),
            Paging.TableStores());
    var e := LoadElfKernel(b.kernel, mem);
    if e.None? {
      return None;
    }
    var ok := LoadInitrd(mem, b.initrd);
    if !ok {
      return None;
    }
    ok := mem.WriteAt(ZERO_PAGE, b.params);
    if !ok {
      return None;
    }
    ok := SetupCmdline(mem, b.cmdline);
    if !ok {
      return None;
    }
    ok := WriteGdt(mem);
    if !ok {
      return None;
    }
    ok := WritePageTables(mem);
    if !ok {
      return None;
    }
    return e;
  }

  lemma {:induction false} Regroup(l: seq<Write>, a: seq<Write>, b: seq<Write>, c: seq<Write>, d: seq<Write>,
                                   e: seq<Write>, f: seq<Write>)
    ensures l + a + b + c + d + e + f == l + (a + b + c + d + e + f)
    ensures l + a <= l + a + b <= l + a + b + c <= l + (a + b + c + d + e + f)
  {
    LogAssoc(l, a, b);
    LogAssoc(l, a + b, c);
    LogAssoc(l, a + b + c, d);
    LogAssoc(l, a + b + c + d, e);
    LogAssoc(l, a + b + c + d + e, f);
  }

  /** Boot a fresh guest: kernel and tables, then the MP table when there is more than one CPU. */
  method BootGuest(mem: GuestMemory, b: BootInput, numCpus: byte, sig: u32, feat: u32, timerOnPin2: bool)
    returns (entry: Option<u64>)
    requires mem.Valid() && mem.log == [] && |b.params| == 4096
    modifies mem, mem.data
    ensures mem.Valid()
    ensures entry.Some? <==>
            && Fits(b, mem.data.Length)
            && (numCpus > 1 ==> Mp.MPC_ADDR + |Mp.Table(numCpus, sig, feat, timerOnPin2)| <= mem.data.Length)
    ensures entry.Some? ==> entry.value == ReadEhdr(b.kernel).value.entry
    ensures var mp := if numCpus > 1 then Some(Mp.Table(numCpus, sig, feat, timerOnPin2)) else None;
            && mem.log <= BootStores(b, mem.data.Length, mp)
            && (entry.Some? ==> mem.log == BootStores(b, mem.data.Length, mp))
    ensures entry.Some? ==> forall va: nat :: va < 0x1_0000_0000_0000 ==>
              PageWalk(mem.Contents(), 0xa000, va) == if va < 0x4000_0000 then Mapped(va, true) else NotPresent
  {
    hide Splice, Replay, EarlyStores, Paging.TableStores, MpWriter.TableStores, PageWalk, Mp.Table, LoadElf, ReadEhdr;
    ghost var size := mem.data.Length;
    ghost var mp: Option<seq<byte>> := None;
    entry := LoadKernel(mem, b);
    if entry.None? {
      return None;
    }
    ghost var early := EarlyStores(b, size) + Paging.TableStores();
    assert [] + early == early;
    if numCpus > 1 {
      var ok := MpWriter.WriteMptable(mem, numCpus, sig, feat, timerOnPin2);
      if !ok {
        return None;
      }
      mp := Some(Mp.Table(numCpus, sig, feat, timerOnPin2));
    }
    assert early + [] == early;
    assert mem.log == BootStores(b, size, mp);
    forall va: nat | va < 0x1_0000_0000_0000
      ensures PageWalk(mem.Contents(), 0xa000, va) == if va < 0x4000_0000 then Mapped(va, true) else NotPresent
    {
      BootMapsIdentity(b, size, mp, va);
    }
  }
}
