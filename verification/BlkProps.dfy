/** What block requests mean: segmented transfers refine one flat byte array. */
module BlkProps {
  import opened Bytes
  import opened Memory
  import opened Virtq
  import opened Blk

  // ---- One request ----

  /** Buffer `i` shares no byte with buffer `j`. */
  predicate Apart(a: VirtqDesc, b: VirtqDesc)
  {
    a.addr + a.len <= b.addr || b.addr + b.len <= a.addr
  }

  ghost predicate Disjoint(data: seq<VirtqDesc>)
  {
    forall i, j :: 0 <= i < j < |data| ==> Apart(data[i], data[j])
  }

  /** A store outside the buffers does not change what they hold. */
  lemma {:induction false} GatherFrame(m: seq<byte>, w: Write, data: seq<VirtqDesc>, k: nat)
    requires k <= |data| && Readable(m, data, k)
    requires forall j :: 0 <= j < k ==>
               w.at + |w.data| <= data[j].addr || data[j].addr + data[j].len <= w.at
    ensures Readable(Splice(m, w.at, w.data), data, k)
    ensures Gather(Splice(m, w.at, w.data), data, k) == Gather(m, data, k)
  {
    if k > 0 {
      GatherFrame(m, w, data, k - 1);
      var d := data[k - 1];
      assert Slice(Splice(m, w.at, w.data), d.addr, d.len) == Slice(m, d.addr, d.len);
    }
  }

  lemma SliceJoin(s: seq<byte>, at: nat, n: nat, k: nat)
    requires at + n + k <= |s|
    ensures Slice(s, at, n) + Slice(s, at + n, k) == Slice(s, at, n + k)
  {
  }

  /** What was stored reads back. */
  lemma SpliceReads(m: seq<byte>, w: Write)
    requires w.at + |w.data| <= |m|
    ensures Slice(Splice(m, w.at, w.data), w.at, |w.data|) == w.data
  {
  }

  lemma {:induction false} GatherOneMore(before: seq<byte>, disk: seq<byte>, start: nat, data: seq<VirtqDesc>, k: nat)
    requires 0 < k <= |data| && Readable(before, data, k) && Disjoint(data)
    requires start + Extent(data, k) <= |disk|
    requires Gather(before, data, k - 1) == Slice(disk, start, Extent(data, k - 1))
    ensures var after := Splice(before, data[k - 1].addr, Slice(disk, start + Extent(data, k - 1), data[k - 1].len));
            Readable(after, data, k) && Gather(after, data, k) == Slice(disk, start, Extent(data, k))
  {
    hide Slice, Splice;
    var d := data[k - 1];
    var mid := start + Extent(data, k - 1);
    var w := Write(d.addr, Slice(disk, mid, d.len));
    forall j | 0 <= j < k - 1
      ensures w.at + |w.data| <= data[j].addr || data[j].addr + data[j].len <= w.at
    {
      assert Apart(data[j], data[k - 1]);
    }
    GatherFrame(before, w, data, k - 1);
    SpliceReads(before, w);
    SliceJoin(disk, start, Extent(data, k - 1), d.len);
  }

  /** Scattering disk bytes over disjoint buffers and gathering those buffers gives the disk bytes back. */
  lemma {:induction false} GatherScatter(m: seq<byte>, disk: seq<byte>, start: nat, data: seq<VirtqDesc>, k: nat)
    requires k <= |data| && Readable(m, data, k) && Disjoint(data)
    requires start + Extent(data, k) <= |disk|
    ensures Readable(Replay(m, Scatter(disk, start, data, k)), data, k)
    ensures Gather(Replay(m, Scatter(disk, start, data, k)), data, k) == Slice(disk, start, Extent(data, k))
  {
    if k > 0 {
      GatherScatter(m, disk, start, data, k - 1);
      var mid := start + Extent(data, k - 1);
      var ws := Scatter(disk, start, data, k - 1);
      GatherOneMore(Replay(m, ws), disk, start, data, k);
      ReplaySnoc(m, ws, Write(data[k - 1].addr, Slice(disk, mid, data[k - 1].len)));
    }
  }

  /** `k` is the first buffer that is unreadable or at which the host fails, or the number of buffers if none is. */
  ghost predicate StopsAt(data: seq<VirtqDesc>, size: nat, fault: nat, k: nat)
  {
    && k <= |data|
    && (forall j :: 0 <= j < k ==> Goes(data, size, fault, j))
    && (k < |data| ==> !Goes(data, size, fault, k))
  }

  lemma SomewhereStops(data: seq<VirtqDesc>, size: nat, fault: nat)
    ensures StopsAt(data, size, fault, Passed(data, size, fault, 0))
  {
  }

  /**
   * A request changes the image only if it is a write that lies inside the disk; then exactly the buffers before the
   * first that fails replace the bytes from `sector * 512` on, and the status is OK if and only if none fails.
   */
  lemma {:induction false} RequestOnDisk(s: BlkState, reqType: u32, sector: u64, data: seq<VirtqDesc>, m: seq<byte>,
                                         k: nat)
    requires StopsAt(data, |m|, s.faults(s.requests), k)
    ensures var r := Serve(s, reqType, sector, data, m);
            && |r.disk| == |s.disk|
            && (!(reqType == T_OUT && InBounds(s.disk, sector, data)) ==> r.disk == s.disk)
            && (reqType == T_OUT && InBounds(s.disk, sector, data) ==>
                  && Readable(m, data, k)
                  && r.disk == Splice(s.disk, sector * SECTOR_SIZE, Gather(m, data, k))
                  && (r.status == S_OK <==> k == |data|))
  {
    hide Splice, Gather;
    StopsOnce(data, |m|, s.faults(s.requests), k);
  }

  lemma {:induction false} StopsOnce(data: seq<VirtqDesc>, size: nat, fault: nat, k: nat)
    requires StopsAt(data, size, fault, k)
    ensures Passed(data, size, fault, 0) == k
  {
    forall j | 0 <= j < k
      ensures j < fault && data[j].addr + data[j].len <= size
    {
      assert Goes(data, size, fault, j);
    }
    assert k > 0 ==> Goes(data, size, fault, k - 1);
    PassedIs(data, size, fault, 0, k);
  }

  /** An out-of-bounds read or write is refused without touching the image or any guest buffer. */
  lemma {:induction false} OutOfBoundsRefused(s: BlkState, reqType: u32, sector: u64, data: seq<VirtqDesc>,
                                              m: seq<byte>)
    requires reqType != T_FLUSH && reqType != T_GET_ID
    ensures !InBounds(s.disk, sector, data) ==>
              Serve(s, reqType, sector, data, m) == Served(S_IOERR, s.disk, [], 0)
    ensures InBounds(s.disk, sector, data) && |s.disk| < POW64 ==>
              forall i :: 0 <= i <= |data| ==> sector * SECTOR_SIZE + Extent(data, i) < POW64
  {
    forall i | 0 <= i <= |data|
      ensures Extent(data, i) <= Total(data)
    {
      ExtentMonotone(data, i, |data|);
    }
  }

  lemma {:induction false} ScatterLength(disk: seq<byte>, start: nat, data: seq<VirtqDesc>, k: nat)
    requires k <= |data| && start + Extent(data, k) <= |disk|
    ensures StoredBytes(Scatter(disk, start, data, k)) == Extent(data, k)
  {
    if k > 0 {
      ScatterLength(disk, start, data, k - 1);
      var ws := Scatter(disk, start, data, k);
      assert ws[..k - 1] == Scatter(disk, start, data, k - 1);
    }
  }

  function StoredBytes(ws: seq<Write>): (n: nat)
  {
    if ws == [] then 0 else StoredBytes(ws[..|ws| - 1]) + |ws[|ws| - 1].data|
  }

  /** The reported length is the number of bytes stored, modulo 2^32. */
  lemma {:induction false} WrittenModulo(s: BlkState, chain: seq<VirtqDesc>, m: seq<byte>)
    ensures var e := HandleChain(s, chain, m); e.written == StoredBytes(e.writes) % POW32
  {
    hide Serve, Plus32, HeaderAt;
    var h := HeaderAt(m, chain);
    if h.Some? {
      var r := Serve(s, h.value.reqType, h.value.sector, DataOf(chain), m);
      ServedWritten(s, h.value, DataOf(chain), m);
      var w := Write(chain[|chain| - 1].addr, [r.status]);
      StoredBytesOneMore(r.writes, |m|, w);
      Plus32Mod(StoredBytes(r.writes), |Stored(|m|, w)|);
    }
  }

  /** Below 2^32 - 1 bytes of data it is exact. */
  lemma {:induction false} WrittenIsExact(s: BlkState, chain: seq<VirtqDesc>, m: seq<byte>)
    requires |chain| >= 2 ==> Total(DataOf(chain)) + 1 < POW32
    ensures var e := HandleChain(s, chain, m); e.written == StoredBytes(e.writes)
  {
    hide Serve, HeaderAt, DataOf;
    WrittenModulo(s, chain, m);
    var h := HeaderAt(m, chain);
    if h.Some? {
      var r := Serve(s, h.value.reqType, h.value.sector, DataOf(chain), m);
      ServedWritten(s, h.value, DataOf(chain), m);
      StoredBytesOneMore(r.writes, |m|, Write(chain[|chain| - 1].addr, [r.status]));
    }
  }

  /** For a successful read whose status is delivered that bound is the exact condition. */
  lemma {:induction false} ReadLengthExact(s: BlkState, r: Request, sector: u64)
    requires Succeeds(s, r, T_IN, sector) && r.chain[|r.chain| - 1].addr < |r.mem|
    ensures var e := HandleChain(s, r.chain, r.mem); var total := Total(DataOf(r.chain));
            StoredBytes(e.writes) == total + 1 && (e.written == StoredBytes(e.writes) <==> total + 1 < POW32)
  {
    hide Plus32, HeaderAt, Serve;
    WrittenModulo(s, r.chain, r.mem);
    var data := DataOf(r.chain);
    var v := Serve(s, T_IN, sector, data, r.mem);
    ReadScatters(s, data, sector, r.mem);
    ScatterLength(s.disk, sector * SECTOR_SIZE, data, |data|);
    StoredBytesOneMore(v.writes, |r.mem|, Write(r.chain[|r.chain| - 1].addr, [v.status]));
  }

  /** Guest memory of 2 GiB with a descriptor table at 0x1000 and zeros everywhere else. */
  function WrapMemory(): (m: seq<byte>)
    ensures |m| == 0x8000_0000 && forall i :: 0 <= i < |m| ==> m[i] == WrapByte(i)
  {
    seq(0x8000_0000, i requires 0 <= i => WrapByte(i))
  }

  /** Header, two data buffers of 2^31 bytes, status: lengths, flags and next indices. */
  function WrapByte(i: nat): (b: byte)
  {
    match i
    case 0x1008 => 16
    case 0x100c => 1
    case 0x100e => 1
    case 0x101b => 0x80
    case 0x101c => 3
    case 0x101e => 2
    case 0x102b => 0x80
    case 0x102c => 3
    case 0x102e => 3
    case 0x1038 => 1
    case 0x103c => 2
    case _ => 0
  }

  const WRAP_CHAIN :=
    [VirtqDesc(0, 16, 1, 1), VirtqDesc(0, 0x8000_0000, 3, 2), VirtqDesc(0, 0x8000_0000, 3, 3), VirtqDesc(0, 1, 2, 0)]

  lemma {:induction false} WrapDesc(m: seq<byte>, k: u16)
    requires |m| == 0x8000_0000 && k < 4 && forall i :: 0 <= i < |m| ==> m[i] == WrapByte(i)
    ensures DescAt(m, 0x1000, k) == Some(WRAP_CHAIN[k])
  {
    hide U16At, U32At, U64At;
    var a := 0x1000 + 16 * k;
    assert Wrap64(a) == a;
    Sparse(m, a, 8);
    Sparse(m, a + 8, 4);
    Sparse(m, a + 12, 2);
    Sparse(m, a + 14, 2);
  }

  lemma {:induction false} WrapWalk(t: Table)
    requires forall k: u16 :: k < 4 ==> t(k) == Some(WRAP_CHAIN[k])
    ensures Walk(t, 0, 0, 4) == WRAP_CHAIN
  {
    hide Walk;
    var path: seq<u16> := [0, 1, 2, 3];
    WalkWholeChain(t, path, 4);
    assert Descs(t, path) == WRAP_CHAIN;
  }

  /**
   * The bound is reached: two data buffers of 2^31 bytes each, linked in a descriptor table in guest memory, and a
   * zeroed disk of 4 GiB. The request succeeds, stores 2^32 + 1 bytes and reports one.
   */
  lemma {:induction false} LengthWraps() returns (s: BlkState, r: Request)
    ensures |s.disk| == POW32 && |r.mem| == 0x8000_0000 && r.chain == Walk(TableAt(r.mem, 0x1000), 0, 0, 4)
    ensures Succeeds(s, r, T_IN, 0)
    ensures var e := HandleChain(s, r.chain, r.mem); e.written == 1 && StoredBytes(e.writes) == POW32 + 1
  {
    hide Zeros, HandleChain, Serve, HeaderAt, Walk, DescAt, WrapMemory, WrapByte;
    var m := WrapMemory();
    s, r := BlkState(0, Zeros(POW32), _ => 2, 0), Request(WRAP_CHAIN, m);
    forall k: u16 | k < 4
      ensures TableAt(m, 0x1000)(k) == Some(WRAP_CHAIN[k])
    {
      WrapDesc(m, k);
    }
    WrapWalk(TableAt(m, 0x1000));
    var d, d' := WRAP_CHAIN[1], WRAP_CHAIN[2];
    assert DataOf(WRAP_CHAIN) == [d, d'];
    TwoBuffers(d, d', |m|);
    BothRead(s, m, d, d');
    forall i | 0 <= i < 16
      ensures m[i] == 0
    {
      LowZero(i);
    }
    ZeroHeader(m, WRAP_CHAIN);
    WrittenModulo(s, WRAP_CHAIN, m);
    ReadLengthExact(s, r, 0);
  }

  lemma LowZero(i: nat)
    requires i < 16
    ensures WrapByte(i) == 0
  {
  }

  lemma {:induction false} BothRead(s: BlkState, m: seq<byte>, d: VirtqDesc, d': VirtqDesc)
    requires d.addr + d.len <= |m| && d'.addr + d'.len <= |m|
    requires s.faults(s.requests) == 2 && d.len + d'.len <= Capacity(s.disk)
    ensures Serve(s, T_IN, 0, [d, d'], m).status == S_OK
  {
    hide Scatter;
    TwoBuffers(d, d', |m|);
  }

  lemma ZeroHeader(m: seq<byte>, chain: seq<VirtqDesc>)
    requires |m| >= 16 && |chain| >= 2 && chain[0].addr == 0 && forall i :: 0 <= i < 16 ==> m[i] == 0
    ensures HeaderAt(m, chain) == Some(Header(T_IN, 0))
  {
  }

  lemma {:induction false} TwoBuffers(d: VirtqDesc, d': VirtqDesc, size: nat)
    requires d.addr + d.len <= size && d'.addr + d'.len <= size
    ensures Passed([d, d'], size, 2, 0) == 2 && Total([d, d']) == d.len + d'.len
  {
    PassedIs([d, d'], size, 2, 0, 2);
    assert Extent([d, d'], 1) == d.len;
  }

  /** A successful read stores the whole of its range, buffer by buffer. */
  lemma {:induction false} ReadScatters(s: BlkState, data: seq<VirtqDesc>, sector: u64, m: seq<byte>)
    requires Serve(s, T_IN, sector, data, m).status == S_OK
    ensures var start := sector * SECTOR_SIZE;
            && start + Total(data) <= |s.disk| && Readable(m, data, |data|)
            && Serve(s, T_IN, sector, data, m).writes == Scatter(s.disk, start, data, |data|)
  {
    hide Scatter;
  }

  lemma {:induction false} StoredBytesOneMore(ws: seq<Write>, size: nat, w: Write)
    ensures StoredBytes(ws + Stored(size, w)) == StoredBytes(ws) + if w.at + |w.data| <= size then |w.data| else 0
  {
    if w.at + |w.data| <= size {
      assert (ws + [w])[..|ws|] == ws;
    } else {
      assert ws + [] == ws;
    }
  }

  lemma {:induction false} ServedWritten(s: BlkState, h: Header, data: seq<VirtqDesc>, m: seq<byte>)
    ensures var r := Serve(s, h.reqType, h.sector, data, m);
            r.written == StoredBytes(r.writes) % POW32 && StoredBytes(r.writes) <= Max(Total(data), ID_BYTES)
  {
    if h.reqType == T_IN && InBounds(s.disk, h.sector, data) {
      var start := h.sector * SECTOR_SIZE;
      var k := Passed(data, |m|, s.faults(s.requests), 0);
      ExtentMonotone(data, k, |data|);
      ScatterLength(s.disk, start, data, k);
    } else {
      var r := Serve(s, h.reqType, h.sector, data, m);
      assert |r.writes| <= 1;
      assert r.writes != [] ==> r.writes[..0] == [];
    }
  }

  // ---- Runs of requests ----

  /** A chain handed to the device, with guest memory as it is at that moment. */
  datatype Request = Request(chain: seq<VirtqDesc>, mem: seq<byte>)

  function After(s: BlkState, reqs: seq<Request>): (s': BlkState)
    decreases |reqs|
  {
    if reqs == [] then s
    else
      var n := |reqs| - 1;
      HandleChain(After(s, reqs[..n]), reqs[n].chain, reqs[n].mem).dev
  }

  /** What a request stores on the flat disk: the gathered bytes of an in-bounds write, at one place, or nothing. */
  function FlatWrite(s: BlkState, req: Request): (ws: seq<Write>)
  {
    match HeaderAt(req.mem, req.chain)
    case None => []
    case Some(h) =>
      var data := DataOf(req.chain);
      if h.reqType != T_OUT || !InBounds(s.disk, h.sector, data) then []
      else [Write(h.sector * SECTOR_SIZE, Gather(req.mem, data, Passed(data, |req.mem|, s.faults(s.requests), 0)))]
  }

  function FlatWrites(s: BlkState, reqs: seq<Request>): (ws: seq<Write>)
    decreases |reqs|
  {
    if reqs == [] then []
    else
      var n := |reqs| - 1;
      FlatWrites(s, reqs[..n]) + FlatWrite(After(s, reqs[..n]), reqs[n])
  }

  lemma {:induction false} RequestIsFlat(s: BlkState, req: Request)
    ensures HandleChain(s, req.chain, req.mem).dev.disk == Replay(s.disk, FlatWrite(s, req))
  {
    hide Splice, Gather, Replay;
    ReplayNothing(s.disk);
    var h := HeaderAt(req.mem, req.chain);
    if h.Some? {
      var data := DataOf(req.chain);
      var k := Passed(data, |req.mem|, s.faults(s.requests), 0);
      SomewhereStops(data, |req.mem|, s.faults(s.requests));
      RequestOnDisk(s, h.value.reqType, h.value.sector, data, req.mem, k);
      if h.value.reqType == T_OUT && InBounds(s.disk, h.value.sector, data) {
        var w := FlatWrite(s, req)[0];
        assert [] + [w] == FlatWrite(s, req);
        ReplaySnoc(s.disk, [], w);
      }
    }
  }

  /** Over any sequence of requests the disk is a flat byte array with at most one store per request. */
  lemma {:induction false} DiskIsFlat(s: BlkState, reqs: seq<Request>)
    ensures After(s, reqs).disk == Replay(s.disk, FlatWrites(s, reqs))
    decreases |reqs|
  {
    hide HandleChain, FlatWrite, Replay;
    if reqs == [] {
      ReplayNothing(s.disk);
    } else {
      var n := |reqs| - 1;
      DiskIsFlat(s, reqs[..n]);
      RequestIsFlat(After(s, reqs[..n]), reqs[n]);
      ReplayConcat(s.disk, FlatWrites(s, reqs[..n]), FlatWrite(After(s, reqs[..n]), reqs[n]));
    }
  }

  /** Guest memory when the device has finished the request. */
  function MemoryAfter(s: BlkState, req: Request): (m: seq<byte>)
  {
    Replay(req.mem, HandleChain(s, req.chain, req.mem).writes)
  }

  /** The request asks for `reqType` at `sector` and is answered OK. */
  ghost predicate Succeeds(s: BlkState, req: Request, reqType: u32, sector: u64)
  {
    && HeaderAt(req.mem, req.chain) == Some(Header(reqType, sector))
    && Serve(s, reqType, sector, DataOf(req.chain), req.mem).status == S_OK
  }

  /** The request is no write that reaches into disk bytes `[lo, hi)`. */
  ghost predicate Spares(req: Request, lo: nat, hi: nat)
  {
    var h := HeaderAt(req.mem, req.chain);
    h.Some? && h.value.reqType == T_OUT ==>
      var start := h.value.sector * SECTOR_SIZE;
      start + Total(DataOf(req.chain)) <= lo || hi <= start
  }

  /** Two images agree on the bytes `[lo, hi)`. */
  ghost predicate Same(a: seq<byte>, b: seq<byte>, lo: nat, hi: nat)
    requires hi <= |a| && hi <= |b|
  {
    forall i :: lo <= i < hi ==> a[i] == b[i]
  }

  lemma {:induction false} SparedBytes(s: BlkState, req: Request, lo: nat, hi: nat)
    requires Spares(req, lo, hi) && lo <= hi <= |s.disk|
    ensures var s' := HandleChain(s, req.chain, req.mem).dev;
            |s'.disk| == |s.disk| && Same(s'.disk, s.disk, lo, hi)
  {
    var h := HeaderAt(req.mem, req.chain);
    if h.Some? {
      var data := DataOf(req.chain);
      var k := Passed(data, |req.mem|, s.faults(s.requests), 0);
      SomewhereStops(data, |req.mem|, s.faults(s.requests));
      RequestOnDisk(s, h.value.reqType, h.value.sector, data, req.mem, k);
      if h.value.reqType == T_OUT && InBounds(s.disk, h.value.sector, data) {
        ExtentMonotone(data, k, |data|);
      }
    }
  }

  lemma {:induction false} SparedByRun(s: BlkState, reqs: seq<Request>, lo: nat, hi: nat)
    requires lo <= hi <= |s.disk|
    requires forall i :: 0 <= i < |reqs| ==> Spares(reqs[i], lo, hi)
    ensures |After(s, reqs).disk| == |s.disk| && Same(After(s, reqs).disk, s.disk, lo, hi)
    decreases |reqs|
  {
    if reqs != [] {
      var n := |reqs| - 1;
      SparedByRun(s, reqs[..n], lo, hi);
      SparedBytes(After(s, reqs[..n]), reqs[n], lo, hi);
    }
  }

  /** A successful write puts the gathered guest bytes on the disk. */
  lemma {:induction false} WriteLands(s: BlkState, w: Request, sector: u64)
    requires Succeeds(s, w, T_OUT, sector)
    ensures var data := DataOf(w.chain); var start := sector * SECTOR_SIZE;
            && Readable(w.mem, data, |data|) && start + Total(data) <= |s.disk|
            && var disk := HandleChain(s, w.chain, w.mem).dev.disk;
               |disk| == |s.disk| && Slice(disk, start, Total(data)) == Gather(w.mem, data, |data|)
  {
    var data := DataOf(w.chain);
    var start := sector * SECTOR_SIZE;
    var bytes := Gather(w.mem, data, |data|);
    assert Slice(Splice(s.disk, start, bytes), start, |bytes|) == bytes;
  }

  lemma {:induction false} DataApart(chain: seq<VirtqDesc>)
    requires |chain| >= 2 && StatusApart(chain)
    ensures var data, at := DataOf(chain), chain[|chain| - 1].addr;
            forall j :: 0 <= j < |data| ==> at + 1 <= data[j].addr || data[j].addr + data[j].len <= at
  {
    var data := DataOf(chain);
    forall j | 0 <= j < |data|
      ensures data[j] == chain[j + 1]
    {
    }
  }

  /** A successful read puts the disk bytes into its buffers, whatever their segmentation. */
  lemma {:induction false} ReadDelivers(s: BlkState, r: Request, sector: u64)
    requires Succeeds(s, r, T_IN, sector)
    requires Disjoint(DataOf(r.chain)) && StatusApart(r.chain)
    ensures var data := DataOf(r.chain); var start := sector * SECTOR_SIZE;
            && start + Total(data) <= |s.disk|
            && Readable(MemoryAfter(s, r), data, |data|)
            && Gather(MemoryAfter(s, r), data, |data|) == Slice(s.disk, start, Total(data))
  {
    hide Serve, HeaderAt, Splice, Slice, Gather, Replay, Scatter, DataOf, Readable, Disjoint, Stored;
    var data := DataOf(r.chain);
    var start := sector * SECTOR_SIZE;
    ReadScatters(s, data, sector, r.mem);
    var ws := Scatter(s.disk, start, data, |data|);
    var w := Write(r.chain[|r.chain| - 1].addr, [S_OK]);
    assert MemoryAfter(s, r) == Replay(r.mem, ws + Stored(|r.mem|, w));
    ReplayConcat(r.mem, ws, Stored(|r.mem|, w));
    GatherScatter(r.mem, s.disk, start, data, |data|);
    DataApart(r.chain);
    StatusKeeps(Replay(r.mem, ws), w, data);
  }

  lemma {:induction false} StatusKeeps(m: seq<byte>, w: Write, data: seq<VirtqDesc>)
    requires Readable(m, data, |data|)
    requires forall j :: 0 <= j < |data| ==>
               w.at + |w.data| <= data[j].addr || data[j].addr + data[j].len <= w.at
    ensures var m' := Replay(m, Stored(|m|, w));
            Readable(m', data, |data|) && Gather(m', data, |data|) == Gather(m, data, |data|)
  {
    if w.at + |w.data| <= |m| {
      GatherFrame(m, w, data, |data|);
    }
  }

  /** The status byte is not inside a data buffer. */
  ghost predicate StatusApart(chain: seq<VirtqDesc>)
    requires |chain| >= 2
  {
    var at := chain[|chain| - 1].addr;
    forall i :: 0 < i < |chain| - 1 ==> at + 1 <= chain[i].addr || chain[i].addr + chain[i].len <= at
  }

  /**
   * What a write served with success stored, a later read of the same sectors served with success returns, however
   * differently the two requests are cut into buffers and whatever requests elsewhere on the disk come in between.
   */
  lemma {:induction false} ReadBackServed(s: BlkState, w: Request, between: seq<Request>, r: Request, sector: u64)
    requires Succeeds(s, w, T_OUT, sector)
    requires forall i :: 0 <= i < |between| ==>
               Spares(between[i], sector * SECTOR_SIZE, sector * SECTOR_SIZE + Total(DataOf(w.chain)))
    requires var s1 := After(HandleChain(s, w.chain, w.mem).dev, between); Succeeds(s1, r, T_IN, sector)
    requires Total(DataOf(r.chain)) == Total(DataOf(w.chain))
    requires Disjoint(DataOf(r.chain)) && StatusApart(r.chain)
    ensures var s1 := After(HandleChain(s, w.chain, w.mem).dev, between);
            var wrote, read := DataOf(w.chain), DataOf(r.chain);
            && Readable(w.mem, wrote, |wrote|) && Readable(MemoryAfter(s1, r), read, |read|)
            && Gather(MemoryAfter(s1, r), read, |read|) == Gather(w.mem, wrote, |wrote|)
  {
    var start := sector * SECTOR_SIZE;
    var end := start + Total(DataOf(w.chain));
    WriteLands(s, w, sector);
    var s0 := HandleChain(s, w.chain, w.mem).dev;
    SparedByRun(s0, between, start, end);
    assert Slice(After(s0, between).disk, start, end - start) == Slice(s0.disk, start, end - start);
    ReadDelivers(After(s0, between), r, sector);
  }

  // ---- Stores stay inside the chain's buffers ----

  lemma {:induction false} ScatterAt(disk: seq<byte>, start: nat, data: seq<VirtqDesc>, k: nat, i: nat)
    requires i < k <= |data| && start + Extent(data, k) <= |disk|
    ensures var w := Scatter(disk, start, data, k)[i]; w.at == data[i].addr && |w.data| == data[i].len
  {
    if i < k - 1 {
      ScatterAt(disk, start, data, k - 1, i);
    }
  }

  lemma {:induction false} ChainConfined(s: BlkState, chain: seq<VirtqDesc>, m: seq<byte>, i: nat)
    requires i < |HandleChain(s, chain, m).writes|
    ensures InBuffers(HandleChain(s, chain, m).writes[i], chain)
  {
    var h := HeaderAt(m, chain).value;
    var data := DataOf(chain);
    var r := Serve(s, h.reqType, h.sector, data, m);
    var last := |chain| - 1;
    if i == |r.writes| {
      assert chain[last].addr <= HandleChain(s, chain, m).writes[i].at;
    } else if h.reqType == T_GET_ID {
      assert chain[1] == data[0];
    } else {
      var k := Passed(data, |m|, s.faults(s.requests), 0);
      ExtentMonotone(data, k, |data|);
      ScatterAt(s.disk, h.sector * SECTOR_SIZE, data, k, i);
      assert chain[i + 1] == data[i];
    }
  }

  lemma {:induction false} BlkConfined()
    ensures Confined(HandleChain)
  {
    forall s, chain, m, i | 0 <= i < |HandleChain(s, chain, m).writes|
      ensures InBuffers(HandleChain(s, chain, m).writes[i], chain)
    {
      ChainConfined(s, chain, m, i);
    }
  }
}
