/** Boot page tables (src/boot.rs), and the 4-level page walk that reads them (Intel SDM volume 3A, section 4.5). */
module Paging {
  import opened Arith
  import opened Bytes
  import opened Memory

  const PML4 := 0xa000
  const PDPT := 0xb000
  const PD := 0xc000
  const TABLES_END := 0xd000

  const SIZE_2M := 0x20_0000
  const SIZE_1G := 0x4000_0000
  const SIZE_512G := 0x80_0000_0000
  const VA_LIMIT := 0x1_0000_0000_0000

  // ---- The page walk ----

  datatype Translation = NotPresent | Unreadable | Mapped(pa: nat, writable: bool)

  function EntryAt(m: seq<byte>, table: nat, index: nat): (e: Option<u64>)
  {
    if table + 8 * index + 8 <= |m| then Some(U64At(m, table + 8 * index)) else None
  }

  predicate Present(e: u64) { e % 2 == 1 }

  predicate Writable(e: u64) { e / 2 % 2 == 1 }

  predicate Large(e: u64) { e / 128 % 2 == 1 }

  /** Bits 51 to `log2(align)` of an entry: the address it holds. */
  function Frame(e: u64, align: nat): nat
    requires align > 0
  {
    var a := e % 0x10_0000_0000_0000;
    a - a % align
  }

  /** Translate linear address `va` through the tables at `cr3`: 1 GiB, 2 MiB or 4 KiB page. */
  function PageWalk(m: seq<byte>, cr3: u64, va: nat): (t: Translation)
  {
    match EntryAt(m, Frame(cr3, 4096), va / SIZE_512G % 512)
    case None => Unreadable
    case Some(e4) =>
      if !Present(e4) then NotPresent
      else
        match EntryAt(m, Frame(e4, 4096), va / SIZE_1G % 512)
        case None => Unreadable
        case Some(e3) =>
          if !Present(e3) then NotPresent
          else if Large(e3) then Mapped(Frame(e3, SIZE_1G) + va % SIZE_1G, Writable(e4) && Writable(e3))
          else
            match EntryAt(m, Frame(e3, 4096), va / SIZE_2M % 512)
            case None => Unreadable
            case Some(e2) =>
              if !Present(e2) then NotPresent
              else if Large(e2) then
                Mapped(Frame(e2, SIZE_2M) + va % SIZE_2M, Writable(e4) && Writable(e3) && Writable(e2))
              else
                match EntryAt(m, Frame(e2, 4096), va / 4096 % 512)
                case None => Unreadable
                case Some(e1) =>
                  if !Present(e1) then NotPresent
                  else Mapped(Frame(e1, 4096) + va % 4096,
                              Writable(e4) && Writable(e3) && Writable(e2) && Writable(e1))
  }

  // ---- What boot writes ----

  /** Page-directory entry `i`: the 2 MiB page at `i << 21`, present, writable, large. */
  function PdEntry(i: nat): u64
    requires i < 512
  {
    i * SIZE_2M + 0x83
  }

  function PdStores(k: nat): (ws: seq<Write>)
    requires k <= 512
  {
    if k == 0 then [] else PdStores(k - 1) + [Write(PD + 8 * (k - 1), Le64(PdEntry(k - 1)))]
  }

  const TABLE_HEAD := [Write(PML4, Le64(PDPT + 3)), Write(PDPT, Le64(PD + 3))]

  function TableStores(): seq<Write> { TABLE_HEAD + PdStores(512) }

  // ---- What memory must hold ----

  ghost predicate Installed(m: seq<byte>)
  {
    && TABLES_END <= |m|
    && U64At(m, PML4) == PDPT + 3 && U64At(m, PDPT) == PD + 3
    && (forall i :: 0 < i < 512 ==> U64At(m, PML4 + 8 * i) == 0)
    && (forall i :: 0 < i < 512 ==> U64At(m, PDPT + 8 * i) == 0)
    && (forall i :: 0 <= i < 512 ==> U64At(m, PD + 8 * i) == PdEntry(i))
  }

  /** Index of `va` in each table, for addresses in the first GiB and beyond. */
  lemma Indices(va: nat)
    requires va < VA_LIMIT
    ensures va / SIZE_512G % 512 == va / SIZE_512G < 512
    ensures va < SIZE_1G ==> va / SIZE_512G == 0 && va / SIZE_1G % 512 == 0 && va / SIZE_2M % 512 == va / SIZE_2M < 512
    ensures SIZE_1G <= va && va / SIZE_512G == 0 ==> 0 < va / SIZE_1G % 512
  {
  }

  lemma TableEntries()
    ensures Present(PDPT + 3) && Writable(PDPT + 3) && Frame(PDPT + 3, 4096) == PDPT
    ensures Present(PD + 3) && Writable(PD + 3) && !Large(PD + 3) && Frame(PD + 3, 4096) == PD
    ensures Frame(PML4, 4096) == PML4 && !Present(0)
  {
  }

  lemma {:induction false} PdEntryMeans(i: nat)
    requires i < 512
    ensures Present(PdEntry(i)) && Writable(PdEntry(i)) && Large(PdEntry(i))
    ensures Frame(PdEntry(i), SIZE_2M) == i * SIZE_2M
  {
    hide Frame;
    PdFrame(i);
    var e: nat := PdEntry(i);
    DivUnique(e, i * 0x10_0000 + 0x41, 1, 2);
    DivUnique(i * 0x10_0000 + 0x41, i * 0x8_0000 + 0x20, 1, 2);
    DivUnique(e, i * 0x4000 + 1, 3, 128);
    DivUnique(i * 0x4000 + 1, i * 0x2000, 1, 2);
  }

  lemma {:induction false} PdFrame(i: nat)
    requires i < 512
    ensures Frame(PdEntry(i), SIZE_2M) == i * SIZE_2M
  {
    var e: int := PdEntry(i);
    assert e % 0x10_0000_0000_0000 == e;
  }

  /** The first GiB is mapped to itself, writable; every other address below 2^48 is not present. */
  lemma {:induction false} IdentityMap(m: seq<byte>, va: nat)
    requires Installed(m) && va < VA_LIMIT
    ensures va < SIZE_1G ==> PageWalk(m, PML4, va) == Mapped(va, true)
    ensures SIZE_1G <= va ==> PageWalk(m, PML4, va) == NotPresent
  {
    hide U64At, Present, Writable, Large, Frame, PdEntry;
    Indices(va);
    TableEntries();
    var i4 := va / SIZE_512G;
    assert EntryAt(m, PML4, i4) == Some(if i4 == 0 then PDPT + 3 else 0);
    if i4 == 0 {
      var i3 := va / SIZE_1G % 512;
      assert EntryAt(m, PDPT, i3) == Some(if i3 == 0 then PD + 3 else 0);
      if va < SIZE_1G {
        var i2 := va / SIZE_2M;
        PdEntryMeans(i2);
        assert EntryAt(m, PD, i2) == Some(PdEntry(i2));
      }
    }
  }

  // ---- The stores install the tables ----

  lemma U64Kept(m: seq<byte>, m': seq<byte>, a: nat)
    requires a + 8 <= |m| && |m'| == |m|
    requires forall i :: a <= i < a + 8 ==> m'[i] == m[i]
    ensures U64At(m', a) == U64At(m, a)
  {
  }

  lemma {:induction false} U64Reads(m: seq<byte>, a: nat, v: u64)
    requires a + 8 <= |m|
    ensures U64At(Splice(m, a, Le64(v)), a) == v
  {
    hide Le64;
    var m' := Splice(m, a, Le64(v));
    var bs := Le64(v);
    assert forall k :: 0 <= k < 8 ==> m'[a + k] == bs[k];
    assert U32At(m', a) == U32At(bs, 0) && U32At(m', a + 4) == U32At(bs, 4);
  }

  lemma U64Zero(m: seq<byte>, a: nat)
    requires a + 8 <= |m|
    requires forall i :: a <= i < a + 8 ==> m[i] == 0
    ensures U64At(m, a) == 0
  {
  }

  /** After `k` directory stores the first `k` entries are right and nothing outside them has changed. */
  lemma {:induction false} PdInstalled(m: seq<byte>, k: nat)
    requires k <= 512 && TABLES_END <= |m|
    ensures var m' := Replay(m, PdStores(k));
            && (forall i :: 0 <= i < k ==> U64At(m', PD + 8 * i) == PdEntry(i))
            && (forall a :: 0 <= a < |m| && (a < PD || PD + 8 * k <= a) ==> m'[a] == m[a])
  {
    hide U64At, Le64, PdEntry, Replay;
    if k == 0 {
      ReplayNothing(m);
    } else {
      PdInstalled(m, k - 1);
      var m0 := Replay(m, PdStores(k - 1));
      var at := PD + 8 * (k - 1);
      var m1 := Splice(m0, at, Le64(PdEntry(k - 1)));
      ReplaySnoc(m, PdStores(k - 1), Write(at, Le64(PdEntry(k - 1))));
      U64Reads(m0, at, PdEntry(k - 1));
      forall i | 0 <= i < k - 1
        ensures U64At(m1, PD + 8 * i) == PdEntry(i)
      {
        U64Kept(m0, m1, PD + 8 * i);
      }
    }
  }

  /** On memory whose table area is zero, the boot stores install the tables. */
  lemma {:induction false} StoresInstall(m: seq<byte>)
    requires TABLES_END <= |m|
    requires forall a :: PML4 <= a < TABLES_END ==> m[a] == 0
    ensures Installed(Replay(m, TableStores()))
  {
    hide U64At, Le64, PdEntry, Replay;
    var m1 := Splice(m, PML4, Le64(PDPT + 3));
    var m2 := Splice(m1, PDPT, Le64(PD + 3));
    HeadStores(m);
    ReplayConcat(m, TABLE_HEAD, PdStores(512));
    PdInstalled(m2, 512);
    var m' := Replay(m2, PdStores(512));
    U64Reads(m, PML4, PDPT + 3);
    U64Reads(m1, PDPT, PD + 3);
    U64Kept(m1, m', PML4);
    U64Kept(m2, m', PDPT);
    forall i | 0 < i < 512
      ensures U64At(m', PML4 + 8 * i) == 0 && U64At(m', PDPT + 8 * i) == 0
    {
      U64Zero(m', PML4 + 8 * i);
      U64Zero(m', PDPT + 8 * i);
    }
  }

  lemma {:induction false} HeadStores(m: seq<byte>)
    ensures Replay(m, TABLE_HEAD) == Splice(Splice(m, PML4, Le64(PDPT + 3)), PDPT, Le64(PD + 3))
  {
    hide Splice, Le64;
    var w0, w1 := Write(PML4, Le64(PDPT + 3)), Write(PDPT, Le64(PD + 3));
    assert TABLE_HEAD == ([] + [w0]) + [w1];
    ReplaySnoc(m, [], w0);
    ReplaySnoc(m, [] + [w0], w1);
    ReplayNothing(m);
  }

  lemma {:induction false} InstalledSame(m: seq<byte>, m': seq<byte>)
    requires Installed(m) && |m'| == |m|
    requires forall a :: PML4 <= a < TABLES_END ==> m'[a] == m[a]
    ensures Installed(m')
  {
    hide U64At, PdEntry;
    U64Kept(m, m', PML4);
    U64Kept(m, m', PDPT);
    forall i | 0 <= i < 512
      ensures U64At(m', PML4 + 8 * i) == U64At(m, PML4 + 8 * i)
      ensures U64At(m', PDPT + 8 * i) == U64At(m, PDPT + 8 * i)
      ensures U64At(m', PD + 8 * i) == U64At(m, PD + 8 * i)
    {
      U64Kept(m, m', PML4 + 8 * i);
      U64Kept(m, m', PDPT + 8 * i);
      U64Kept(m, m', PD + 8 * i);
    }
  }

  /** Stores before and after that stay off the table area do not disturb the tables. */
  lemma {:induction false} TablesSurvive(size: nat, before: seq<Write>, after: seq<Write>)
    requires TABLES_END <= size
    requires Avoids(before, PML4, TABLES_END) && Avoids(after, PML4, TABLES_END)
    ensures Installed(Replay(Zeros(size), before + TableStores() + after))
  {
    hide Replay, TableStores, Installed;
    var m0 := Replay(Zeros(size), before);
    ReplayAvoids(Zeros(size), before, PML4, TABLES_END);
    StoresInstall(m0);
    ReplayConcat(Zeros(size), before, TableStores());
    ReplayConcat(Zeros(size), before + TableStores(), after);
    var m1 := Replay(m0, TableStores());
    assert TABLES_END <= |m1|;
    ReplayAvoids(m1, after, PML4, TABLES_END);
    InstalledSame(m1, Replay(m1, after));
  }
}
