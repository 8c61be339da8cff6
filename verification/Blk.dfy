/** virtio-blk request execution (src/virtio/blk.rs). */
module Blk {
  import Arith
  import opened Bytes
  import opened Memory
  import opened Virtq

  const T_IN := 0
  const T_OUT := 1
  const T_FLUSH := 4
  const T_GET_ID := 8

  const S_OK: byte := 0
  const S_IOERR: byte := 1
  const S_UNSUPP: byte := 2

  const SECTOR_SIZE := 512
  const ID_BYTES := 20

  /** "ferrvm-blk" */
  const ID_PREFIX: seq<byte> := [0x66, 0x65, 0x72, 0x72, 0x76, 0x6d, 0x2d, 0x62, 0x6c, 0x6b]

  /**
   * The disk image, and the host's behaviour: `faults(n)` is the position of the first data buffer of
   * request `n` whose host file operation fails (beyond the last buffer when none does).
   */
  datatype BlkState = BlkState(id: u32, disk: seq<byte>, faults: nat -> nat, requests: nat)

  /** Result of one request: status, image, stores to guest memory, bytes written (modulo 2^32). */
  datatype Served = Served(status: byte, disk: seq<byte>, writes: seq<Write>, written: u32)

  function Plus32(a: u32, b: nat): (r: u32)
  {
    (a + b) % POW32
  }

  lemma {:induction false} Plus32Mod(a: nat, b: nat)
    ensures Plus32(a % POW32, b) == (a + b) % POW32
  {
    var q, r := a / POW32, a % POW32;
    assert a + b == q * POW32 + (r + b);
    Arith.ModShift(r + b, q, POW32);
  }

  function Decimal(n: nat): (digits: seq<byte>)
  {
    if n < 10 then [0x30 + n] else Decimal(n / 10) + [0x30 + n % 10]
  }

  function IdBuffer(id: u32, len: nat): (buf: seq<byte>)
    ensures |buf| == len
  {
    var text := ID_PREFIX + Decimal(id);
    if |text| <= len then text + Zeros(len - |text|) else text[..len]
  }

  /** Length of the first `k` buffers together. */
  function Extent(data: seq<VirtqDesc>, k: nat): (n: nat)
    requires k <= |data|
  {
    if k == 0 then 0 else Extent(data, k - 1) + data[k - 1].len
  }

  function Total(data: seq<VirtqDesc>): nat { Extent(data, |data|) }

  function Capacity(disk: seq<byte>): nat { |disk| / SECTOR_SIZE * SECTOR_SIZE }

  /** The whole request lies inside the sectors of the disk. */
  predicate InBounds(disk: seq<byte>, sector: u64, data: seq<VirtqDesc>)
  {
    sector * SECTOR_SIZE + Total(data) <= Capacity(disk)
  }

  /** Buffer `i` lies in a guest of `size` bytes and the host has not failed by then. */
  predicate Goes(data: seq<VirtqDesc>, size: nat, fault: nat, i: nat)
    requires i < |data|
  {
    i < fault && data[i].addr + data[i].len <= size
  }

  /** How many buffers are transferred before one fails, counting on from `i`. */
  function Passed(data: seq<VirtqDesc>, size: nat, fault: nat, i: nat): (k: nat)
    requires i <= |data|
    ensures i <= k <= |data|
    ensures k == i || k <= fault
    ensures forall j :: i <= j < k ==> data[j].addr + data[j].len <= size
    ensures k < |data| ==> !Goes(data, size, fault, k)
    decreases |data| - i
  {
    if i < |data| && Goes(data, size, fault, i) then Passed(data, size, fault, i + 1) else i
  }

  ghost predicate Readable(m: seq<byte>, data: seq<VirtqDesc>, k: nat)
    requires k <= |data|
  {
    forall j :: 0 <= j < k ==> data[j].addr + data[j].len <= |m|
  }

  /** The bytes of the first `k` guest buffers, laid end to end. */
  function Gather(m: seq<byte>, data: seq<VirtqDesc>, k: nat): (bs: seq<byte>)
    requires k <= |data| && Readable(m, data, k)
    ensures |bs| == Extent(data, k)
  {
    if k == 0 then [] else Gather(m, data, k - 1) + Slice(m, data[k - 1].addr, data[k - 1].len)
  }

  /** The stores that deal consecutive disk bytes out to the first `k` buffers. */
  function Scatter(disk: seq<byte>, start: nat, data: seq<VirtqDesc>, k: nat): (ws: seq<Write>)
    requires k <= |data| && start + Extent(data, k) <= |disk|
    ensures |ws| == k
  {
    if k == 0 then []
    else
      Scatter(disk, start, data, k - 1)
      + [Write(data[k - 1].addr, Slice(disk, start + Extent(data, k - 1), data[k - 1].len))]
  }

  lemma {:induction false} ExtentMonotone(data: seq<VirtqDesc>, i: nat, k: nat)
    requires i <= k <= |data|
    ensures Extent(data, i) <= Extent(data, k)
    decreases k
  {
    if i < k {
      ExtentMonotone(data, i, k - 1);
    }
  }

  function ReadRequest(disk: seq<byte>, start: nat, data: seq<VirtqDesc>, size: nat, fault: nat): (r: Served)
    requires start + Total(data) <= |disk|
  {
    var k := Passed(data, size, fault, 0);
    ExtentMonotone(data, k, |data|);
    Served(if k == |data| then S_OK else S_IOERR, disk, Scatter(disk, start, data, k), Extent(data, k) % POW32)
  }

  function WriteRequest(disk: seq<byte>, start: nat, data: seq<VirtqDesc>, m: seq<byte>, fault: nat): (r: Served)
    requires start + Total(data) <= |disk|
  {
    var k := Passed(data, |m|, fault, 0);
    ExtentMonotone(data, k, |data|);
    Served(if k == |data| then S_OK else S_IOERR, Splice(disk, start, Gather(m, data, k)), [], 0)
  }

  function Serve(s: BlkState, reqType: u32, sector: u64, data: seq<VirtqDesc>, m: seq<byte>): (r: Served)
  {
    var fault := s.faults(s.requests);
    if reqType == T_FLUSH then
      Served(if fault == 0 then S_IOERR else S_OK, s.disk, [], 0)
    else if reqType == T_GET_ID then
      if data == [] then Served(S_IOERR, s.disk, [], 0)
      else
        var len := Min(data[0].len, ID_BYTES);
        if data[0].addr + len > |m| then Served(S_IOERR, s.disk, [], 0)
        else Served(S_OK, s.disk, [Write(data[0].addr, IdBuffer(s.id, len))], len)
    else if !InBounds(s.disk, sector, data) then Served(S_IOERR, s.disk, [], 0)
    else if reqType == T_IN then ReadRequest(s.disk, sector * SECTOR_SIZE, data, |m|, fault)
    else if reqType == T_OUT then WriteRequest(s.disk, sector * SECTOR_SIZE, data, m, fault)
    else Served(if data == [] then S_OK else S_UNSUPP, s.disk, [], 0)
  }

  /** Request header: type (u32), reserved (u32), sector (u64). */
  datatype Header = Header(reqType: u32, sector: u64)

  function HeaderAt(m: seq<byte>, chain: seq<VirtqDesc>): (h: Option<Header>)
    ensures h.Some? ==> |chain| >= 2
  {
    if |chain| < 2 then None
    else
      var a := chain[0].addr;
      if a + 16 <= |m| then Some(Header(U32At(m, a), U64At(m, a + 8))) else None
  }

  /** The data descriptors: all but the header and the status. */
  function DataOf(chain: seq<VirtqDesc>): (data: seq<VirtqDesc>)
    requires |chain| >= 2
  {
    Slice(chain, 1, |chain| - 2)
  }

  /** The chain callback: header, execution, status byte. */
  function HandleChain(s: BlkState, chain: seq<VirtqDesc>, m: seq<byte>): (e: Effect<BlkState>)
  {
    match HeaderAt(m, chain)
    case None => Effect(s, [], 0)
    case Some(h) =>
      var r := Serve(s, h.reqType, h.sector, DataOf(chain), m);
      var status := Stored(|m|, Write(chain[|chain| - 1].addr, [r.status]));
      Effect(s.(disk := r.disk, requests := s.requests + 1), r.writes + status, Plus32(r.written, |status|))
  }

  /** A first mismatch ends the count. */
  lemma {:induction false} PassedIs(data: seq<VirtqDesc>, size: nat, fault: nat, i: nat, k: nat)
    requires i <= k <= |data|
    requires k <= fault && forall j :: i <= j < k ==> data[j].addr + data[j].len <= size
    requires k < |data| ==> !Goes(data, size, fault, k)
    ensures Passed(data, size, fault, i) == k
    decreases k - i
  {
    if i < k {
      PassedIs(data, size, fault, i + 1, k);
    }
  }

  /** Two adjacent splices are one. */
  lemma SpliceJoin(m: seq<byte>, at: nat, a: seq<byte>, b: seq<byte>)
    requires at + |a| + |b| <= |m|
    ensures Splice(Splice(m, at, a), at + |a|, b) == Splice(m, at, a + b)
  {
  }

  lemma SpliceNothing(m: seq<byte>, at: nat)
    ensures Splice(m, at, []) == m
  {
  }

  /** One more buffer written: the image holds one more buffer of the gathered bytes. */
  lemma {:induction false} GatherStep(disk: seq<byte>, start: nat, m: seq<byte>, data: seq<VirtqDesc>, i: nat)
    requires i < |data| && Readable(m, data, i) && data[i].addr + data[i].len <= |m|
    requires start + Extent(data, i + 1) <= |disk|
    ensures Readable(m, data, i + 1)
    ensures Splice(Splice(disk, start, Gather(m, data, i)), start + Extent(data, i),
                   Slice(m, data[i].addr, data[i].len))
         == Splice(disk, start, Gather(m, data, i + 1))
  {
    hide Splice, Slice;
    SpliceJoin(disk, start, Gather(m, data, i), Slice(m, data[i].addr, data[i].len));
  }

  /** The read loop after `i` buffers: where it stands on disk, what it has counted and stored. */
  ghost predicate Reading(disk: seq<byte>, start: nat, data: seq<VirtqDesc>, size: nat, fault: nat,
                          i: nat, offset: nat, written: u32, done: seq<Write>)
  {
    && i <= |data| && i <= fault && offset == start + Extent(data, i) <= |disk|
    && (forall j :: 0 <= j < i ==> data[j].addr + data[j].len <= size)
    && written == Extent(data, i) % POW32
    && done == Scatter(disk, start, data, i)
  }

  lemma {:induction false} ReadStarts(disk: seq<byte>, start: nat, data: seq<VirtqDesc>, size: nat, fault: nat)
    requires start + Total(data) <= |disk|
    ensures Reading(disk, start, data, size, fault, 0, start, 0, [])
  {
    ExtentMonotone(data, 0, |data|);
  }

  lemma {:induction false} ReadStep(disk: seq<byte>, start: nat, data: seq<VirtqDesc>, size: nat, fault: nat,
                                    i: nat, offset: nat, written: u32, done: seq<Write>)
    requires Reading(disk, start, data, size, fault, i, offset, written, done)
    requires i < |data| && Goes(data, size, fault, i) && offset + data[i].len <= |disk|
    ensures Reading(disk, start, data, size, fault, i + 1, offset + data[i].len, Plus32(written, data[i].len),
                    done + [Write(data[i].addr, Slice(disk, offset, data[i].len))])
  {
    hide Slice, Plus32;
    Plus32Mod(Extent(data, i), data[i].len);
  }

  lemma {:induction false} ReadFits(disk: seq<byte>, start: nat, data: seq<VirtqDesc>, size: nat, fault: nat,
                                    i: nat, offset: nat, written: u32, done: seq<Write>)
    requires Reading(disk, start, data, size, fault, i, offset, written, done)
    requires i < |data| && start + Total(data) <= |disk|
    ensures offset + data[i].len <= |disk|
  {
    ExtentMonotone(data, i + 1, |data|);
  }

  lemma {:induction false} ReadEnds(disk: seq<byte>, start: nat, data: seq<VirtqDesc>, size: nat, fault: nat,
                                    i: nat, offset: nat, written: u32, done: seq<Write>)
    requires Reading(disk, start, data, size, fault, i, offset, written, done)
    requires i < |data| ==> !Goes(data, size, fault, i)
    requires start + Total(data) <= |disk|
    ensures ReadRequest(disk, start, data, size, fault)
         == Served(if i == |data| then S_OK else S_IOERR, disk, done, written)
  {
    PassedIs(data, size, fault, 0, i);
  }

  class VirtioBlk {
    const id: u32
    const disk: array<byte>
    const faults: nat -> nat
    var requests: nat

    /** A file length fits in 63 bits; the image and guest memory are different storage. */
    ghost predicate Apart(mem: GuestMemory)
    {
      disk.Length < POW64 && disk != mem.data
    }

    ghost function State(): (s: BlkState)
      reads this, disk
    {
      BlkState(id, disk[..], faults, requests)
    }

    constructor (id: u32, image: seq<byte>, faults: nat -> nat)
      requires |image| < POW64
      ensures State() == BlkState(id, image, faults, 0) && fresh(disk)
    {
      this.id := id;
      this.faults := faults;
      this.requests := 0;
      this.disk := new byte[|image|](i requires 0 <= i < |image| => image[i]);
    }

    /** `write_all_at`: all of `buf`, in place. */
    method WriteAllAt(buf: seq<byte>, offset: nat)
      requires offset + |buf| <= disk.Length
      modifies disk
      ensures disk[..] == Splice(old(disk[..]), offset, buf)
    {
      var i := 0;
      while i < |buf|
        invariant 0 <= i <= |buf|
        invariant forall j :: 0 <= j < disk.Length ==>
                    disk[j] == if offset <= j < offset + i then buf[j - offset] else old(disk[j])
      {
        disk[offset + i] := buf[i];
        i := i + 1;
      }
    }

    method ReadLoop(data: seq<VirtqDesc>, start: nat, mem: GuestMemory, fault: nat) returns (status: byte, written: u32)
      requires mem.Valid() && Apart(mem)
      requires start + Total(data) <= disk.Length
      modifies mem, mem.data
      ensures mem.Valid()
      ensures var r := ReadRequest(disk[..], start, data, mem.data.Length, fault);
              status == r.status && written == r.written && mem.log == old(mem.log) + r.writes
    {
      hide ReadRequest, Splice, Extent, Scatter;
      ghost var image, size := disk[..], mem.data.Length;
      ReadStarts(image, start, data, size, fault);
      ghost var done: seq<Write> := [];
      var i: nat, offset: nat := 0, start;
      written := 0;
      while i < |data|
        invariant i <= |data| && mem.Valid() && disk[..] == image
        invariant offset <= disk.Length && mem.log == old(mem.log) + done
        invariant Reading(image, start, data, size, fault, i, offset, written, done)
      {
        var desc := data[i];
        ReadFits(image, start, data, size, fault, i, offset, written, done);
        if i == fault {
          ReadEnds(image, start, data, size, fault, i, offset, written, done);
          return S_IOERR, written;
        }
        var buf := disk[offset..offset + desc.len];
        assert buf == Slice(image, offset, desc.len);
        var ok := mem.WriteAt(desc.addr, buf);
        if !ok {
          ReadEnds(image, start, data, size, fault, i, offset, written, done);
          return S_IOERR, written;
        }
        ReadStep(image, start, data, size, fault, i, offset, written, done);
        done := done + [Write(desc.addr, buf)];
        written := Plus32(written, desc.len);
        offset := offset + desc.len;
        i := i + 1;
      }
      ReadEnds(image, start, data, size, fault, i, offset, written, done);
      status := S_OK;
    }

    method WriteLoop(data: seq<VirtqDesc>, start: nat, mem: GuestMemory, fault: nat) returns (status: byte)
      requires disk != mem.data
      requires start + Total(data) <= disk.Length
      modifies disk
      ensures var r := WriteRequest(old(disk[..]), start, data, mem.Contents(), fault);
              status == r.status && disk[..] == r.disk
    {
      hide Splice, Slice;
      ghost var image, m := disk[..], mem.Contents();
      SpliceNothing(image, start);
      var i: nat, offset: nat := 0, start;
      while i < |data|
        invariant i <= |data| && offset == start + Extent(data, i)
        invariant mem.Contents() == m
        invariant i <= fault && Readable(m, data, i)
        invariant offset <= disk.Length
        invariant disk[..] == Splice(image, start, Gather(m, data, i))
      {
        var desc := data[i];
        ExtentMonotone(data, i + 1, |data|);
        var buf := mem.ReadAt(desc.addr, desc.len);
        if buf.None? || i == fault {
          PassedIs(data, |m|, fault, 0, i);
          return S_IOERR;
        }
        GatherStep(image, start, m, data, i);
        WriteAllAt(buf.value, offset);
        offset := offset + desc.len;
        i := i + 1;
      }
      PassedIs(data, |m|, fault, 0, i);
      status := S_OK;
    }

    method TotalLen(data: seq<VirtqDesc>) returns (total: nat)
      ensures total == Total(data)
    {
      total := 0;
      for i := 0 to |data|
        invariant total == Extent(data, i)
      {
        total := total + data[i].len;
      }
    }

    method Execute(reqType: u32, sector: u64, data: seq<VirtqDesc>, mem: GuestMemory)
      returns (status: byte, written: u32)
      requires mem.Valid() && Apart(mem)
      modifies disk, mem, mem.data
      ensures mem.Valid()
      ensures var r := Serve(old(State()), reqType, sector, data, old(mem.Contents()));
              status == r.status && written == r.written && disk[..] == r.disk && mem.log == old(mem.log) + r.writes
    {
      var fault := faults(requests);
      written := 0;
      if reqType == T_FLUSH {
        return if fault == 0 then S_IOERR else S_OK, 0;
      }
      if reqType == T_GET_ID {
        if data == [] {
          return S_IOERR, 0;
        }
        var len := Min(data[0].len, ID_BYTES);
        var ok := mem.WriteAt(data[0].addr, IdBuffer(id, len));
        if !ok {
          return S_IOERR, 0;
        }
        return S_OK, len;
      }
      var total := TotalLen(data);
      var diskBytes := disk.Length / SECTOR_SIZE * SECTOR_SIZE;
      // checked_mul and checked_add: either overflow is beyond any disk
      var start := sector * SECTOR_SIZE;
      if start >= POW64 || start + total >= POW64 || start + total > diskBytes {
        return S_IOERR, 0;
      }
      if reqType == T_IN {
        status, written := ReadLoop(data, sector * SECTOR_SIZE, mem, fault);
      } else if reqType == T_OUT {
        status := WriteLoop(data, sector * SECTOR_SIZE, mem, fault);
      } else {
        // the loop body rejects the type, so a request without data buffers is not rejected
        status := if data == [] then S_OK else S_UNSUPP;
      }
    }

    method ReadHeader(chain: seq<VirtqDesc>, mem: GuestMemory) returns (h: Option<Header>)
      ensures h == HeaderAt(mem.Contents(), chain)
    {
      if |chain| < 2 {
        return None;
      }
      var hdr := mem.ReadAt(chain[0].addr, 16);
      if hdr.None? {
        return None;
      }
      h := Some(Header(U32At(hdr.value, 0), U64At(hdr.value, 8)));
    }

    method ProcessChain(chain: seq<VirtqDesc>, mem: GuestMemory) returns (written: u32)
      requires mem.Valid() && Apart(mem)
      modifies this, disk, mem, mem.data
      ensures mem.Valid()
      ensures var e := HandleChain(old(State()), chain, old(mem.Contents()));
              State() == e.dev && written == e.written && mem.log == old(mem.log) + e.writes
    {
      hide Serve;
      ghost var s, m, log := State(), mem.Contents(), mem.log;
      var h := ReadHeader(chain, mem);
      if h.None? {
        return 0;
      }
      ghost var r := Serve(s, h.value.reqType, h.value.sector, DataOf(chain), m);
      var status;
      status, written := Execute(h.value.reqType, h.value.sector, DataOf(chain), mem);
      LogAssoc(log, r.writes, Stored(|m|, Write(chain[|chain| - 1].addr, [status])));
      var ok := mem.WriteAt(chain[|chain| - 1].addr, [status]);
      if ok {
        written := Plus32(written, 1);
      }
      requests := requests + 1;
    }
  }
}
