/** Split virtqueue: descriptor chains and what one `process` call does (src/virtio/mod.rs). */
module Virtq {
  import opened Bytes
  import opened Memory

  datatype VirtqDesc = VirtqDesc(addr: u64, len: u32, flags: u16, next: u16) {
    /** VIRTQ_DESC_F_NEXT is bit 0. */
    predicate HasNext() { flags % 2 == 1 }

    /** VIRTQ_DESC_F_WRITE is bit 1. */
    predicate Writable() { flags / 2 % 2 == 1 }
  }

  datatype Queue = Queue(descTable: u64, availRing: u64, usedRing: u64, num: u16, lastAvail: u16, ready: bool)

  // ---- Descriptor chains ----

  /** The 16-byte descriptor stored at `a`. */
  function DecodeDesc(m: seq<byte>, a: nat): (d: VirtqDesc)
    requires a + 16 <= |m|
  {
    VirtqDesc(U64At(m, a), U32At(m, a + 8), U16At(m, a + 12), U16At(m, a + 14))
  }

  function DescAt(m: seq<byte>, table: u64, idx: u16): (d: Option<VirtqDesc>)
  {
    var a := Wrap64(table + idx * 16);
    if a + 16 <= |m| then Some(DecodeDesc(m, a)) else None
  }

  /** A descriptor table as its reader sees it: index to descriptor, or None where the load is out of bounds. */
  type Table = u16 -> Option<VirtqDesc>

  function TableAt(m: seq<byte>, table: u64): (t: Table)
  {
    (idx: u16) => DescAt(m, table, idx)
  }

  /** Follow `next` from `idx`, having already taken `taken` descriptors. */
  function Walk(t: Table, idx: u16, taken: nat, num: u16): (chain: seq<VirtqDesc>)
    requires taken <= num
    ensures taken + |chain| <= num + 1
    decreases num - taken
  {
    match t(idx)
    case None => []
    case Some(d) =>
      if d.HasNext() && taken < num then [d] + Walk(t, d.next, taken + 1, num) else [d]
  }

  /** One round of the walk loop. */
  lemma WalkStep(t: Table, sofar: seq<VirtqDesc>, idx: u16, num: u16)
    requires |sofar| <= num
    ensures t(idx).None? ==> sofar + Walk(t, idx, |sofar|, num) == sofar
    ensures t(idx).Some? ==>
              var d := t(idx).value;
              sofar + Walk(t, idx, |sofar|, num)
              == if d.HasNext() && |sofar| < num then (sofar + [d]) + Walk(t, d.next, |sofar| + 1, num) else sofar + [d]
  {
  }

  predicate LinksTo(d: VirtqDesc, idx: u16)
  {
    d.HasNext() && d.next == idx
  }

  /** `path` lists readable descriptors, each but the last linked to the one after it. */
  ghost predicate Linked(t: Table, path: seq<u16>)
  {
    && (forall i :: 0 <= i < |path| ==> t(path[i]).Some?)
    && (forall i :: 0 < i < |path| ==> LinksTo(t(path[i - 1]).value, path[i]))
  }

  /** `path` is a whole chain: its last descriptor has no NEXT flag. */
  ghost predicate IsChain(t: Table, path: seq<u16>)
  {
    && path != []
    && Linked(t, path)
    && !t(path[|path| - 1]).value.HasNext()
  }

  ghost function Descs(t: Table, path: seq<u16>): (ds: seq<VirtqDesc>)
    requires Linked(t, path)
    ensures |ds| == |path|
    ensures forall i :: 0 <= i < |path| ==> ds[i] == t(path[i]).value
  {
    seq(|path|, i requires 0 <= i < |path| => t(path[i]).value)
  }

  /** The walk has to stop at the end of `path`: end of chain, unreadable successor, or the length cap. */
  ghost predicate Stops(t: Table, path: seq<u16>, room: nat)
    requires path != [] && Linked(t, path)
  {
    var last := t(path[|path| - 1]).value;
    || |path| == room
    || (|path| < room && (last.HasNext() ==> t(last.next).None?))
  }

  /** What holds of a path holds of it without its first index. */
  lemma {:induction false} LinkedTail(t: Table, path: seq<u16>, room: nat)
    requires |path| > 1 && Linked(t, path) && Stops(t, path, room)
    ensures var d := t(path[0]).value; d.HasNext() && d.next == path[1]
    ensures Linked(t, path[1..]) && room > 0 && Stops(t, path[1..], room - 1)
    ensures Descs(t, path) == [t(path[0]).value] + Descs(t, path[1..])
  {
    var rest := path[1..];
    forall i | 0 < i < |rest|
      ensures LinksTo(t(rest[i - 1]).value, rest[i])
    {
      assert LinksTo(t(path[i]).value, path[i + 1]);
    }
    assert LinksTo(t(path[0]).value, path[1]);
  }

  /** The collected chain is the descriptors along any linked path that ends where the walk has to stop. */
  lemma {:induction false} WalkFollows(t: Table, path: seq<u16>, taken: nat, num: u16)
    requires path != [] && Linked(t, path)
    requires taken <= num && Stops(t, path, num + 1 - taken)
    ensures Walk(t, path[0], taken, num) == Descs(t, path)
    decreases |path|
  {
    hide LinksTo;
    var d := t(path[0]).value;
    if |path| > 1 {
      LinkedTail(t, path, num + 1 - taken);
      WalkFollows(t, path[1..], taken + 1, num);
    } else {
      assert Descs(t, path) == [d];
      if d.HasNext() && taken < num {
        assert Walk(t, d.next, taken + 1, num) == [];
      }
    }
  }

  /** Every walk from a readable head is covered by `WalkFollows`: it has such a path. */
  lemma {:induction false} WalkHasPath(t: Table, idx: u16, taken: nat, num: u16) returns (path: seq<u16>)
    requires taken <= num && t(idx).Some?
    ensures path != [] && path[0] == idx && Linked(t, path)
    ensures Stops(t, path, num + 1 - taken)
    decreases num - taken
  {
    var d := t(idx).value;
    if d.HasNext() && taken < num && t(d.next).Some? {
      var rest := WalkHasPath(t, d.next, taken + 1, num);
      path := [idx] + rest;
      assert path[|path| - 1] == rest[|rest| - 1];
    } else {
      path := [idx];
    }
  }

  ghost predicate Distinct(path: seq<u16>)
  {
    forall i, j :: 0 <= i < j < |path| ==> path[i] != path[j]
  }

  /** Pigeonhole: distinct indices below `n` are at most `n` many. */
  lemma {:induction false} DistinctBelow(path: seq<u16>, n: nat)
    requires Distinct(path)
    requires forall i :: 0 <= i < |path| ==> path[i] < n
    ensures |path| <= n
    decreases n
  {
    if path == [] {
    } else if exists k :: 0 <= k < |path| && path[k] == n - 1 {
      var k :| 0 <= k < |path| && path[k] == n - 1;
      DistinctBelow(path[..k] + path[k + 1..], n - 1);
    } else {
      assert path[0] < n;
      DistinctBelow(path, n - 1);
    }
  }

  /** The length cap never truncates a chain of distinct in-table descriptors. */
  lemma {:induction false} WalkWholeChain(t: Table, path: seq<u16>, num: u16)
    requires IsChain(t, path) && Distinct(path)
    requires forall i :: 0 <= i < |path| ==> path[i] < num
    ensures Walk(t, path[0], 0, num) == Descs(t, path)
  {
    DistinctBelow(path, num);
    WalkFollows(t, path, 0, num);
  }

  /** A chain longer than the cap, a cycle among them, yields its first `num + 1` descriptors. */
  lemma {:induction false} WalkTruncates(t: Table, path: seq<u16>, num: u16)
    requires Linked(t, path) && |path| == num + 1
    ensures Walk(t, path[0], 0, num) == Descs(t, path)
  {
    WalkFollows(t, path, 0, num);
  }

  // ---- One `process` call ----

  /** What a device does with one chain: its stores to guest memory, in order, and the byte count it reports. */
  datatype Effect<S> = Effect(dev: S, writes: seq<Write>, written: u32)

  type Handler<!S> = (S, seq<VirtqDesc>, seq<byte>) -> Effect<S>

  /** The store stays inside some buffer of the chain (one byte where the buffer is declared empty). */
  ghost predicate InBuffers(w: Write, chain: seq<VirtqDesc>)
  {
    exists k :: 0 <= k < |chain| && chain[k].addr <= w.at && w.at + |w.data| <= chain[k].addr + Max(chain[k].len, 1)
  }

  /** A handler that stores only into the buffers it was handed. */
  ghost predicate Confined<S(!new)>(f: Handler<S>)
  {
    forall dev, chain, m, i {:trigger f(dev, chain, m).writes[i]} ::
      0 <= i < |f(dev, chain, m).writes| ==> InBuffers(f(dev, chain, m).writes[i], chain)
  }

  /** A store reaches memory exactly when it fits. */
  function Stored(size: nat, w: Write): (ws: seq<Write>)
  {
    if w.at + |w.data| <= size then [w] else []
  }

  function AvailIdxAddr(q: Queue): u64 { Wrap64(q.availRing + 2) }

  function AvailSlotAddr(q: Queue): u64
    requires q.num > 0
  {
    Wrap64(q.availRing + 4 + q.lastAvail % q.num * 2)
  }

  function LoadU16(m: seq<byte>, a: u64): (v: Option<u16>)
  {
    if a + 2 <= |m| then Some(U16At(m, a)) else None
  }

  function AvailIdx(m: seq<byte>, q: Queue): (idx: Option<u16>)
  {
    LoadU16(m, AvailIdxAddr(q))
  }

  function HeadAt(m: seq<byte>, q: Queue): (head: Option<u16>)
    requires q.num > 0
  {
    LoadU16(m, AvailSlotAddr(q))
  }

  function ElemBytes(head: u16, written: u32): (bs: seq<byte>)
    ensures |bs| == 8
  {
    Le32(head) + Le32(written)
  }

  function ElemWrite(q: Queue, head: u16, written: u32): Write
    requires q.num > 0
  {
    Write(Wrap64(q.usedRing + 4 + q.lastAvail % q.num * 8), ElemBytes(head, written))
  }

  function IdxWrite(q: Queue): Write
  {
    Write(Wrap64(q.usedRing + 2), Le16(q.lastAvail))
  }

  /** Wrapping 16-bit index arithmetic. */
  function Plus16(a: u16, n: nat): (r: u16)
  {
    (a + n) % POW16
  }

  lemma Plus16Zero(a: u16)
    ensures Plus16(a, 0) == a
  {
  }

  lemma Plus16Step(a: u16, n: nat)
    ensures Plus16(Plus16(a, 1), n) == Plus16(a, n + 1)
  {
  }

  lemma Plus16Counts(n: nat)
    ensures Plus16(n % POW16, 1) == (n + 1) % POW16
  {
  }

  function Advance(q: Queue): Queue
  {
    q.(lastAvail := Plus16(q.lastAvail, 1))
  }

  /** How many entries separate the device from the index `avail`, modulo 2^16. */
  function Backlog(q: Queue, avail: u16): (n: nat)
  {
    (avail - q.lastAvail) % POW16
  }

  lemma BacklogStep(q: Queue, avail: u16)
    requires q.lastAvail != avail
    ensures Backlog(Advance(q), avail) == Backlog(q, avail) - 1
  {
  }

  datatype Outcome<S> = Outcome(q: Queue, dev: S, writes: seq<Write>, processed: nat)

  /** The device callback on the chain at `head`, followed by the used element. */
  function CompleteOne<S>(q: Queue, m: seq<byte>, dev: S, f: Handler<S>, head: u16): (e: Effect<S>)
    requires q.num > 0
  {
    var e := f(dev, Walk(TableAt(m, q.descTable), head, 0, q.num), m);
    Effect(e.dev, e.writes + Stored(|m|, ElemWrite(q, head, e.written)), e.written)
  }

  /** Complete chains one by one until `avail` is reached or a ring entry cannot be read. */
  function Drain<S>(q: Queue, m: seq<byte>, dev: S, f: Handler<S>, avail: u16): (o: Outcome<S>)
    requires q.num > 0
    decreases Backlog(q, avail)
  {
    if q.lastAvail == avail || HeadAt(m, q).None? then Outcome(q, dev, [], 0)
    else
      var e := CompleteOne(q, m, dev, f, HeadAt(m, q).value);
      BacklogStep(q, avail);
      var rest := Drain(Advance(q), Replay(m, e.writes), e.dev, f, avail);
      Outcome(rest.q, rest.dev, e.writes + rest.writes, rest.processed + 1)
  }

  /** The drain loop part way: completing the rest after `done` gives the outcome of the whole. */
  ghost predicate Draining<S>(all: Outcome<S>, q: Queue, m: seq<byte>, dev: S, f: Handler<S>, avail: u16,
                              done: seq<Write>, processed: nat)
  {
    && q.num > 0
    && var rest := Drain(q, m, dev, f, avail);
       all == Outcome(rest.q, rest.dev, done + rest.writes, processed + rest.processed)
  }

  lemma {:induction false} DrainStarts<S>(q: Queue, m: seq<byte>, dev: S, f: Handler<S>, avail: u16)
    requires q.num > 0
    ensures Draining(Drain(q, m, dev, f, avail), q, m, dev, f, avail, [], 0)
  {
    hide Drain;
    var o := Drain(q, m, dev, f, avail);
    assert [] + o.writes == o.writes;
  }

  lemma {:induction false} DrainStep<S>(all: Outcome<S>, q: Queue, m: seq<byte>, dev: S, f: Handler<S>, avail: u16,
                                        done: seq<Write>, processed: nat)
    requires Draining(all, q, m, dev, f, avail, done, processed)
    ensures q.lastAvail == avail || HeadAt(m, q).None? ==> all == Outcome(q, dev, done, processed)
    ensures q.lastAvail != avail && HeadAt(m, q).Some? ==>
              var e := CompleteOne(q, m, dev, f, HeadAt(m, q).value);
              && Draining(all, Advance(q), Replay(m, e.writes), e.dev, f, avail, done + e.writes, processed + 1)
              && Backlog(Advance(q), avail) < Backlog(q, avail)
  {
    hide HeadAt, CompleteOne, Replay;
    if q.lastAvail == avail || HeadAt(m, q).None? {
      assert done + [] == done;
    } else {
      var e := CompleteOne(q, m, dev, f, HeadAt(m, q).value);
      BacklogStep(q, avail);
      LogAssoc(done, e.writes, Drain(Advance(q), Replay(m, e.writes), e.dev, f, avail).writes);
    }
  }

  /** At most 65535 chains per call, and the index moves by exactly the number completed. */
  lemma {:induction false} DrainCounts<S>(q: Queue, m: seq<byte>, dev: S, f: Handler<S>, avail: u16)
    requires q.num > 0
    ensures Drain(q, m, dev, f, avail).processed <= Backlog(q, avail) < POW16
    ensures var o := Drain(q, m, dev, f, avail); o.q == q.(lastAvail := Plus16(q.lastAvail, o.processed))
    decreases Backlog(q, avail)
  {
    hide HeadAt, CompleteOne, Replay, Plus16;
    if q.lastAvail == avail || HeadAt(m, q).None? {
      Plus16Zero(q.lastAvail);
    } else {
      var e := CompleteOne(q, m, dev, f, HeadAt(m, q).value);
      BacklogStep(q, avail);
      DrainCounts(Advance(q), Replay(m, e.writes), e.dev, f, avail);
      Plus16Step(q.lastAvail, Drain(Advance(q), Replay(m, e.writes), e.dev, f, avail).processed);
    }
  }

  /** A whole `process` call: drain, then publish the used index once if anything completed. */
  function Process<S>(q: Queue, m: seq<byte>, dev: S, f: Handler<S>): (o: Outcome<S>)
  {
    if !q.ready || q.num == 0 || AvailIdx(m, q).None? then Outcome(q, dev, [], 0)
    else
      var o := Drain(q, m, dev, f, AvailIdx(m, q).value);
      if o.processed == 0 then o else o.(writes := o.writes + Stored(|m|, IdxWrite(o.q)))
  }

  lemma ProcessUnfolds<S>(q: Queue, m: seq<byte>, dev: S, f: Handler<S>)
    ensures !q.ready || q.num == 0 || AvailIdx(m, q).None? ==> Process(q, m, dev, f) == Outcome(q, dev, [], 0)
    ensures q.ready && q.num > 0 && AvailIdx(m, q).Some? ==>
              var o := Drain(q, m, dev, f, AvailIdx(m, q).value);
              Process(q, m, dev, f)
              == if o.processed == 0 then o else o.(writes := o.writes + Stored(|m|, IdxWrite(o.q)))
  {
  }

  /** Both loops of `process` end: fewer than 2^16 chains, and the queue changes in nothing but its index. */
  lemma {:induction false} ProcessCounts<S>(q: Queue, m: seq<byte>, dev: S, f: Handler<S>)
    ensures Process(q, m, dev, f).processed < POW16
    ensures var o := Process(q, m, dev, f); o.q == q.(lastAvail := Plus16(q.lastAvail, o.processed))
  {
    if q.ready && q.num > 0 && AvailIdx(m, q).Some? {
      DrainCounts(q, m, dev, f, AvailIdx(m, q).value);
    }
  }
}
