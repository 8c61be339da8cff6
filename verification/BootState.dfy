/** What a guest finds in memory when its first instruction runs (src/boot.rs, src/main.rs, src/mptable.rs). */
module BootState {
  import opened Bytes
  import opened Memory
  import opened Elf
  import opened Paging
  import opened Boot
  import Mp = MpTable
  import MpWriter
  import opened MpGuest

  /** The bytes of store `k` are still there if no later store touches them. */
  lemma {:induction false} StoreStays(m: seq<byte>, ws: seq<Write>, k: nat)
    requires k < |ws| && ws[k].at + |ws[k].data| <= |m|
    requires Avoids(ws[k + 1..], ws[k].at, ws[k].at + |ws[k].data|)
    ensures Holds(Replay(m, ws), ws[k].at, ws[k].data)
  {
    hide Replay, Splice, Holds;
    var w := ws[k];
    assert ws == (ws[..k] + [w]) + ws[k + 1..];
    ReplayConcat(m, ws[..k] + [w], ws[k + 1..]);
    ReplaySnoc(m, ws[..k], w);
    SpliceHolds(Replay(m, ws[..k]), w);
    ReplayHolds(Replay(m, ws[..k] + [w]), ws[k + 1..], w.at, w.data);
  }

  /** Page tables and MP table: what is stored after the descriptor table. */
  function LastStores(size: nat, mp: Option<seq<byte>>): (ws: seq<Write>)
  {
    Paging.TableStores() + (match mp case Some(t) => MpWriter.TableStores(t, size) case None => [])
  }

  /** Boot parameters, command line, three descriptors, then the rest. */
  function LowStores(b: BootInput): (ws: seq<Write>)
    ensures |ws| == 5
  {
    [Write(ZERO_PAGE, b.params), Write(CMDLINE_ADDR, b.cmdline + [0])] + GdtStores(3)
  }

  lemma {:induction false} LaterIs(b: BootInput, size: nat, mp: Option<seq<byte>>)
    ensures LaterStores(b, size, mp) == LowStores(b) + LastStores(size, mp)
  {
    hide GdtStores, Paging.TableStores, MpWriter.TableStores;
    var later := match mp case Some(t) => MpWriter.TableStores(t, size) case None => [];
    LogAssoc(LowStores(b), Paging.TableStores(), later);
  }

  lemma {:induction false} LastAvoids(size: nat, mp: Option<seq<byte>>, lo: nat, hi: nat)
    requires hi <= 0xa000 || (0xd000 <= lo && hi <= 0xf_0000)
    ensures Avoids(LastStores(size, mp), lo, hi)
  {
    hide Paging.TableStores, Avoids;
    TablesOutside(lo, hi);
    MpOutside(size, mp, lo, hi);
    AvoidsConcat(Paging.TableStores(), match mp case Some(t) => MpWriter.TableStores(t, size) case None => [], lo, hi);
  }

  lemma MpOutside(size: nat, mp: Option<seq<byte>>, lo: nat, hi: nat)
    requires hi <= 0xf_0000
    ensures Avoids(match mp case Some(t) => MpWriter.TableStores(t, size) case None => [], lo, hi)
  {
  }

  /** The place of each of the five low stores. */
  lemma {:induction false} LowPlaces(b: BootInput)
    ensures var ws := LowStores(b);
            && ws[0] == Write(0x7000, b.params) && ws[1] == Write(0x2_0000, b.cmdline + [0])
            && ws[2] == Write(0x500, Le64(GdtTable()[0])) && ws[3] == Write(0x508, Le64(GdtTable()[1]))
            && ws[4] == Write(0x510, Le64(GdtTable()[2]))
  {
    hide Le64, GdtTable;
    assert GdtStores(3) == GdtStores(2) + [Write(GDT_ADDR + 16, Le64(GdtTable()[2]))];
    assert GdtStores(2) == GdtStores(1) + [Write(GDT_ADDR + 8, Le64(GdtTable()[1]))];
    assert GdtStores(1) == GdtStores(0) + [Write(GDT_ADDR, Le64(GdtTable()[0]))];
  }

  /** No low store, and nothing stored later, touches the place of an earlier one. */
  lemma {:induction false} LowStay(b: BootInput, size: nat, mp: Option<seq<byte>>, m: seq<byte>, k: nat)
    requires k < 5 && |b.params| == 4096 && |b.cmdline| < 2048 && 0x2_0000 + |b.cmdline| < |m|
    ensures var w := LowStores(b)[k]; Holds(Replay(m, LaterStores(b, size, mp)), w.at, w.data)
  {
    hide LowStores, LastStores, Replay, Holds, Avoids, LaterStores, GdtTable, Le64;
    LaterIs(b, size, mp);
    LowPlaces(b);
    var low, last := LowStores(b), LastStores(size, mp);
    var w := low[k];
    assert (low + last)[k + 1..] == low[k + 1..] + last;
    LowApart(low, k);
    LastAvoids(size, mp, w.at, w.at + |w.data|);
    AvoidsConcat(low[k + 1..], last, w.at, w.at + |w.data|);
    StoreStays(m, low + last, k);
  }

  lemma LowApart(ws: seq<Write>, k: nat)
    requires k < |ws| == 5
    requires ws[0].at == 0x7000 && |ws[0].data| == 4096 && ws[1].at == 0x2_0000
    requires ws[2].at == 0x500 && ws[3].at == 0x508 && ws[4].at == 0x510
    requires |ws[2].data| == |ws[3].data| == |ws[4].data| == 8
    ensures Avoids(ws[k + 1..], ws[k].at, ws[k].at + |ws[k].data|)
  {
  }

  /** The three segment descriptors, as the CPU reads them: null, 64-bit ring-0 code, ring-0 data, 4 GiB each. */
  ghost predicate DescriptorsRead(m: seq<byte>)
  {
    && 0x518 <= |m| && U64At(m, 0x500) == 0
    && ReadDescriptor(U64At(m, 0x508)) == Descriptor(0, 0xf_ffff, 0x9b, 0xa)
    && ReadDescriptor(U64At(m, 0x510)) == Descriptor(0, 0xf_ffff, 0x93, 0xa)
  }

  /** The initrd, if there is one, is at 128 MiB. */
  ghost predicate InitrdThere(b: BootInput, m: seq<byte>)
  {
    b.initrd.Some? ==> Holds(m, 0x800_0000, b.initrd.value)
  }

  lemma {:induction false} LowRead(b: BootInput, size: nat, mp: Option<seq<byte>>, m: seq<byte>)
    requires |b.params| == 4096 && |b.cmdline| < 2048 && 0x2_0000 + |b.cmdline| < |m|
    ensures var m' := Replay(m, LaterStores(b, size, mp));
            DescriptorsRead(m') && Holds(m', 0x7000, b.params) && Holds(m', 0x2_0000, b.cmdline + [0])
  {
    hide LowStores, LaterStores, Replay, Holds, Le64, GdtTable, ReadDescriptor, U64At;
    var m' := Replay(m, LaterStores(b, size, mp));
    LowPlaces(b);
    LowStay(b, size, mp, m, 0);
    LowStay(b, size, mp, m, 1);
    LowStay(b, size, mp, m, 2);
    LowStay(b, size, mp, m, 3);
    LowStay(b, size, mp, m, 4);
    Loads64(m', 0x500, GdtTable()[0]);
    Loads64(m', 0x508, GdtTable()[1]);
    Loads64(m', 0x510, GdtTable()[2]);
    GdtMeans();
  }

  lemma {:induction false} InitrdStays(b: BootInput, size: nat, mp: Option<seq<byte>>)
    requires Fits(b, size) && |b.params| == 4096 && (mp.Some? ==> 0xf_0010 + |mp.value| <= 0x10_0000)
    ensures InitrdThere(b, Replay(Zeros(size), BootStores(b, size, mp)))
  {
    hide Replay, BootStores, LoadElf;
    if b.initrd.Some? {
      forall i | 0 <= i < |b.initrd.value|
        ensures Replay(Zeros(size), BootStores(b, size, mp))[0x800_0000 + i] == b.initrd.value[i]
      {
        HighMemory(b, size, mp, 0x800_0000 + i);
      }
    }
  }

  lemma {:induction false} BootLeaves(b: BootInput, size: nat, mp: Option<seq<byte>>)
    requires Fits(b, size) && |b.params| == 4096 && (mp.Some? ==> 0xf_0010 + |mp.value| <= 0x10_0000)
    ensures var m := Replay(Zeros(size), BootStores(b, size, mp));
            && DescriptorsRead(m) && Holds(m, 0x7000, b.params) && Holds(m, 0x2_0000, b.cmdline + [0])
            && InitrdThere(b, m)
  {
    hide BootStores, LoadElf, LaterStores, Replay, DescriptorsRead, Holds, InitrdThere;
    var kernel, later := LoadElf(b.kernel, size).writes, LaterStores(b, size, mp);
    BootSplits(b, size, mp);
    ReplayConcat(Zeros(size), kernel, InitrdStores(b.initrd) + later);
    ReplayConcat(Replay(Zeros(size), kernel), InitrdStores(b.initrd), later);
    LowRead(b, size, mp, Replay(Replay(Zeros(size), kernel), InitrdStores(b.initrd)));
    InitrdStays(b, size, mp);
  }

  lemma {:induction false} BootLeavesMp(b: BootInput, size: nat, n: byte, sig: u32, feat: u32, timerOnPin2: bool)
    requires 0xf_0010 + |Mp.Table(n, sig, feat, timerOnPin2)| <= size
    ensures ReadMp(Replay(Zeros(size), BootStores(b, size, Some(Mp.Table(n, sig, feat, timerOnPin2)))), 0xf_0000)
         == Some(Intended(n, sig, feat, timerOnPin2))
  {
    hide EarlyStores, Paging.TableStores, MpWriter.TableStores, Mp.Table, Replay, ReadMp, Intended;
    var t := Mp.Table(n, sig, feat, timerOnPin2);
    var early := EarlyStores(b, size) + Paging.TableStores();
    ReplayConcat(Zeros(size), early, MpWriter.TableStores(t, size));
    GuestReadsMp(Replay(Zeros(size), early), n, sig, feat, timerOnPin2);
  }

  /** The table written for `n` CPUs: none for a single one. */
  function TableFor(n: byte, sig: u32, feat: u32, timerOnPin2: bool): (mp: Option<seq<byte>>)
  {
    if n > 1 then Some(Mp.Table(n, sig, feat, timerOnPin2)) else None
  }

  /**
   * After a successful boot of any number of CPUs: the boot parameters at 0x7000, the command line with its terminator
   * at 0x2_0000, the three descriptors at 0x500, the initrd at 128 MiB, and with more than one CPU the MP table, found
   * from its floating pointer at 0xf_0000.
   */
  lemma {:induction false} GuestFinds(b: BootInput, size: nat, n: byte, sig: u32, feat: u32, timerOnPin2: bool)
    requires Fits(b, size) && |b.params| == 4096
    requires n > 1 ==> 0xf_0010 + |Mp.Table(n, sig, feat, timerOnPin2)| <= size
    ensures var m := Replay(Zeros(size), BootStores(b, size, TableFor(n, sig, feat, timerOnPin2)));
            && DescriptorsRead(m) && Holds(m, 0x7000, b.params) && Holds(m, 0x2_0000, b.cmdline + [0])
            && InitrdThere(b, m)
            && (n > 1 ==> ReadMp(m, 0xf_0000) == Some(Intended(n, sig, feat, timerOnPin2)))
  {
    hide Fits, BootStores, Mp.Table, Replay, DescriptorsRead, Holds, InitrdThere, ReadMp, Intended;
    if n > 1 {
      TableSize(n, sig, feat, timerOnPin2);
      BootLeavesMp(b, size, n, sig, feat, timerOnPin2);
    }
    BootLeaves(b, size, TableFor(n, sig, feat, timerOnPin2));
  }

  lemma {:induction false} TableSize(n: byte, sig: u32, feat: u32, timerOnPin2: bool)
    ensures 0xf_0010 + |Mp.Table(n, sig, feat, timerOnPin2)| <= 0x10_0000
  {
    hide Mp.Table;
    Mp.TableReadsBack(n, sig, feat, timerOnPin2);
  }
}
