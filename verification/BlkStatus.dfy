/** What the guest is told about its block requests, read from guest memory alone (src/virtio/blk.rs). */
module BlkStatus {
  import opened Bytes
  import opened Memory
  import opened Virtq
  import opened Blk
  import opened BlkProps

  /** The request header in guest memory (section 5.2.6 of VIRTIO 1.0): le32 type, le32 reserved, le64 sector. */
  ghost predicate HeaderHeld(r: Request, reqType: u32, sector: u64)
  {
    && |r.chain| >= 2
    && Holds(r.mem, r.chain[0].addr, Le32(reqType))
    && Holds(r.mem, r.chain[0].addr + 8, Le64(sector))
  }

  lemma {:induction false} HeaderReads(r: Request, reqType: u32, sector: u64)
    requires HeaderHeld(r, reqType, sector)
    ensures HeaderAt(r.mem, r.chain) == Some(Header(reqType, sector))
  {
    hide Le32, Le64, U32At, U64At, Holds;
    var a: nat := r.chain[0].addr;
    HoldsFits(r.mem, a + 8, Le64(sector));
    HoldsFits(r.mem, a, Le32(reqType));
    Loads32(r.mem, a, reqType);
    Loads64(r.mem, a + 8, sector);
  }

  lemma HeldShape(r: Request, reqType: u32, sector: u64)
    requires HeaderHeld(r, reqType, sector)
    ensures |r.chain| >= 2
  {
  }

  /** The status byte is the last store of the request, so it is what the guest finds at the last descriptor. */
  ghost function Answer(s: BlkState, r: Request): (b: byte)
    requires |r.chain| >= 2 && r.chain[|r.chain| - 1].addr < |r.mem|
  {
    MemoryAfter(s, r)[r.chain[|r.chain| - 1].addr]
  }

  lemma {:induction false} AnswerIs(s: BlkState, r: Request, reqType: u32, sector: u64)
    requires HeaderHeld(r, reqType, sector) && r.chain[|r.chain| - 1].addr < |r.mem|
    ensures Answer(s, r) == Serve(s, reqType, sector, DataOf(r.chain), r.mem).status
  {
    hide Serve, HeaderAt, Replay, DataOf, HeaderHeld;
    HeaderReads(r, reqType, sector);
    var v := Serve(s, reqType, sector, DataOf(r.chain), r.mem);
    ReplaySnoc(r.mem, v.writes, Write(r.chain[|r.chain| - 1].addr, [v.status]));
  }

  /** The request lies inside the whole 512-byte sectors of the disk. */
  predicate Inside(disk: seq<byte>, sector: u64, data: seq<VirtqDesc>)
  {
    512 * sector + Total(data) <= |disk| / 512 * 512
  }

  /** Every buffer is in guest memory and the host fails at none. */
  ghost predicate AllGo(s: BlkState, data: seq<VirtqDesc>, size: nat)
  {
    forall j :: 0 <= j < |data| ==> data[j].addr + data[j].len <= size && j < s.faults(s.requests)
  }

  lemma {:induction false} AllGoPasses(s: BlkState, data: seq<VirtqDesc>, size: nat)
    ensures AllGo(s, data, size) <==> Passed(data, size, s.faults(s.requests), 0) == |data|
  {
    var fault := s.faults(s.requests);
    var k := Passed(data, size, fault, 0);
    SomewhereStops(data, size, fault);
    if AllGo(s, data, size) {
      forall j | 0 <= j < |data|
        ensures Goes(data, size, fault, j)
      {
        assert data[j].addr + data[j].len <= size;
      }
      assert StopsAt(data, size, fault, |data|);
      StopsOnce(data, size, fault, |data|);
    }
    if k == |data| {
      forall j | 0 <= j < |data|
        ensures data[j].addr + data[j].len <= size && j < fault
      {
        assert Goes(data, size, fault, j);
      }
    }
  }

  /**
   * Which status byte the guest finds. Reads (0) and writes (1): 0 exactly when the request is inside the disk and no
   * buffer fails, else 1. Flush (4): 0 unless the host fails. Get-id (8): 0 exactly when there is a buffer and it is in
   * memory. Any other type: 1 outside the disk, else 2, or 0 if there is no data to refuse.
   */
  lemma {:induction false} StatusTells(s: BlkState, r: Request, reqType: u32, sector: u64)
    requires HeaderHeld(r, reqType, sector) && r.chain[|r.chain| - 1].addr < |r.mem|
    ensures var b, data := Answer(s, r), DataOf(r.chain); var inside := Inside(s.disk, sector, data);
            && (reqType in {0, 1} ==> b == if inside && AllGo(s, data, |r.mem|) then 0 else 1)
            && (reqType == 4 ==> b == if s.faults(s.requests) == 0 then 1 else 0)
            && (reqType == 8 ==> b == if data != [] && data[0].addr + Min(data[0].len, 20) <= |r.mem| then 0 else 1)
            && (reqType !in {0, 1, 4, 8} ==> b == if !inside then 1 else if data == [] then 0 else 2)
  {
    hide Scatter, Gather, Splice, HeaderHeld, DataOf, AllGo, Passed;
    HeldShape(r, reqType, sector);
    AnswerIs(s, r, reqType, sector);
    AllGoPasses(s, DataOf(r.chain), |r.mem|);
  }

  /** A chain without a header that can be read gets no answer: nothing is stored and nothing reported. */
  lemma {:induction false} Unanswered(s: BlkState, r: Request)
    requires |r.chain| < 2 || r.chain[0].addr + 16 > |r.mem|
    ensures HandleChain(s, r.chain, r.mem) == Effect(s, [], 0) && MemoryAfter(s, r) == r.mem
  {
    ReplayNothing(r.mem);
  }

  // ---- Read-back, as the guest observes it ----

  /** The guest asked for `reqType` at `sector` and finds status 0. */
  ghost predicate Told(s: BlkState, r: Request, reqType: u32, sector: u64)
  {
    HeaderHeld(r, reqType, sector) && r.chain[|r.chain| - 1].addr < |r.mem| && Answer(s, r) == 0
  }

  lemma {:induction false} ToldSucceeds(s: BlkState, r: Request, reqType: u32, sector: u64)
    requires Told(s, r, reqType, sector)
    ensures Succeeds(s, r, reqType, sector)
  {
    hide Serve, HeaderHeld, DataOf, Answer, HeaderAt;
    HeaderReads(r, reqType, sector);
    AnswerIs(s, r, reqType, sector);
  }

  /** The request does not ask to write into disk bytes `[lo, hi)`. */
  ghost predicate KeepsOff(r: Request, lo: nat, hi: nat)
  {
    |r.chain| >= 2 ==>
      forall sector: u64 :: HeaderHeld(r, 1, sector) ==>
        512 * sector + Total(DataOf(r.chain)) <= lo || hi <= 512 * sector
  }

  lemma {:induction false} KeepsOffSpares(r: Request, lo: nat, hi: nat)
    requires KeepsOff(r, lo, hi)
    ensures Spares(r, lo, hi)
  {
    hide DataOf;
    var h := HeaderAt(r.mem, r.chain);
    if h.Some? && h.value.reqType == T_OUT {
      HeaderIsHeld(r, h.value);
    }
  }

  lemma {:induction false} HeaderIsHeld(r: Request, h: Header)
    requires HeaderAt(r.mem, r.chain) == Some(h)
    ensures HeaderHeld(r, h.reqType, h.sector)
  {
    hide Le32, Le64, U32At, U64At;
    var a: nat := r.chain[0].addr;
    Held32(r.mem, a);
    Held64(r.mem, a + 8);
  }

  /**
   * After a write that the guest was told succeeded, and any requests that keep off its bytes, a read of the same
   * sectors and length that the guest is told succeeded leaves the written bytes in its buffers, however differently
   * the two requests are cut into buffers.
   */
  lemma {:induction false} ReadBack(s: BlkState, w: Request, between: seq<Request>, r: Request, sector: u64)
    requires Told(s, w, 1, sector)
    requires forall i :: 0 <= i < |between| ==>
               KeepsOff(between[i], 512 * sector, 512 * sector + Total(DataOf(w.chain)))
    requires Told(After(HandleChain(s, w.chain, w.mem).dev, between), r, 0, sector)
    requires Total(DataOf(r.chain)) == Total(DataOf(w.chain))
    requires Disjoint(DataOf(r.chain)) && StatusApart(r.chain)
    ensures var s1 := After(HandleChain(s, w.chain, w.mem).dev, between);
            var wrote, read := DataOf(w.chain), DataOf(r.chain);
            && Readable(w.mem, wrote, |wrote|) && Readable(MemoryAfter(s1, r), read, |read|)
            && Gather(MemoryAfter(s1, r), read, |read|) == Gather(w.mem, wrote, |wrote|)
  {
    hide HeaderHeld, Answer, HandleChain, After, Gather, Readable, DataOf, MemoryAfter, KeepsOff, Spares, Total,
      Disjoint, StatusApart, Succeeds;
    HeldShape(w, 1, sector);
    ToldSucceeds(s, w, T_OUT, sector);
    var s1 := After(HandleChain(s, w.chain, w.mem).dev, between);
    ToldSucceeds(s1, r, T_IN, sector);
    forall i | 0 <= i < |between|
      ensures Spares(between[i], sector * SECTOR_SIZE, sector * SECTOR_SIZE + Total(DataOf(w.chain)))
    {
      KeepsOffSpares(between[i], 512 * sector, 512 * sector + Total(DataOf(w.chain)));
    }
    ReadBackServed(s, w, between, r, sector);
  }

  // ---- Get-id ----

  function DecimalValue(digits: seq<byte>): (n: int)
  {
    if digits == [] then 0 else 10 * DecimalValue(digits[..|digits| - 1]) + (digits[|digits| - 1] as int) - 0x30
  }

  /** The usual decimal notation: digits only, no leading zero. */
  ghost predicate Notation(digits: seq<byte>, n: nat)
  {
    && digits != [] && DecimalValue(digits) == n
    && (forall i :: 0 <= i < |digits| ==> 0x30 <= digits[i] <= 0x39)
    && (|digits| > 1 ==> digits[0] != 0x30)
  }

  lemma {:induction false} DecimalNotation(n: nat)
    ensures Notation(Decimal(n), n)
  {
    if n >= 10 {
      DecimalNotation(n / 10);
      var d := Decimal(n / 10);
      assert Decimal(n)[..|d|] == d;
      assert n / 10 >= 1;
      assert |d| == 1 ==> DecimalValue(d[..0]) == 0;
    } else {
      assert Decimal(n)[..0] == [];
    }
  }

  /** The name a device answers with: "ferrvm-blk" and its number, padded with zeros to 20 bytes. */
  function Name(digits: seq<byte>): (text: seq<byte>)
  {
    [0x66, 0x65, 0x72, 0x72, 0x76, 0x6d, 0x2d, 0x62, 0x6c, 0x6b] + digits + Zeros(Max(0, 10 - |digits|))
  }

  /** Get-id leaves the name, cut to the buffer, in the first data buffer. */
  lemma {:induction false} GetIdDelivers(s: BlkState, r: Request, sector: u64) returns (digits: seq<byte>)
    requires Told(s, r, 8, sector) && StatusApart(r.chain)
    ensures Notation(digits, s.id)
    ensures var d := r.chain[1]; var n := Min(d.len, 20);
            |r.chain| > 2 && |Name(digits)| >= n && Holds(MemoryAfter(s, r), d.addr, Name(digits)[..n])
  {
    hide HeaderHeld, Replay, Splice, Holds, DecimalValue, Decimal, StatusApart;
    digits := Decimal(s.id);
    DecimalNotation(s.id);
    HeaderReads(r, 8, sector);
    StatusTells(s, r, 8, sector);
    var d, n := r.chain[1], Min(r.chain[1].len, 20);
    assert DataOf(r.chain)[0] == d;
    var v := Serve(s, 8, sector, DataOf(r.chain), r.mem);
    var w, st := Write(d.addr, IdBuffer(s.id, n)), Write(r.chain[|r.chain| - 1].addr, [v.status]);
    assert v.writes == [w];
    IdIsName(s.id, n);
    assert [w] + [st] == [w, st];
    TwoStores(r.mem, w, st);
    SpliceHolds(r.mem, w);
    assert st.at + 1 <= d.addr || d.addr + d.len <= st.at by { ApartFirst(r.chain); }
    SpliceKeeps(Splice(r.mem, w.at, w.data), st, w.at, w.data);
  }

  lemma ApartFirst(chain: seq<VirtqDesc>)
    requires |chain| > 2 && StatusApart(chain)
    ensures var at := chain[|chain| - 1].addr; at + 1 <= chain[1].addr || chain[1].addr + chain[1].len <= at
  {
  }

  lemma {:induction false} IdIsName(id: u32, n: nat)
    requires n <= 20
    ensures |Name(Decimal(id))| >= n && IdBuffer(id, n) == Name(Decimal(id))[..n]
  {
    hide Decimal;
    assert |ID_PREFIX| == 10;
  }
}
