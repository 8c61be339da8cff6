/** virtio-rng, the device back ends, and the queue that drives them (src/virtio/rng.rs, src/virtio/mod.rs). */
module Device {
  import opened Bytes
  import opened Memory
  import opened Virtq
  import opened Blk

  // ---- virtio-rng ----

  /** The entropy stream, how much of it has been drawn, and which reads of it the host fails. */
  datatype RngState = RngState(entropy: nat -> byte, fails: nat -> bool, asked: nat, drawn: nat)

  function Draw(s: RngState, n: nat): (bs: seq<byte>)
    ensures |bs| == n
  {
    seq<byte>(n, i requires 0 <= i < n => s.entropy(s.drawn + i))
  }

  /** Fill the writable buffers among the first `k`, in order. */
  function FillBuffers(s: RngState, chain: seq<VirtqDesc>, size: nat, k: nat): (e: Effect<RngState>)
    requires k <= |chain|
  {
    if k == 0 then Effect(s, [], 0)
    else
      var e := FillBuffers(s, chain, size, k - 1);
      var d := chain[k - 1];
      if !d.Writable() || d.len == 0 then e
      else if e.dev.fails(e.dev.asked) then e.(dev := e.dev.(asked := e.dev.asked + 1))
      else
        var ws := Stored(size, Write(d.addr, Draw(e.dev, d.len)));
        Effect(e.dev.(asked := e.dev.asked + 1, drawn := e.dev.drawn + d.len), e.writes + ws,
               if ws == [] then e.written else Plus32(e.written, d.len))
  }

  function FillChain(s: RngState, chain: seq<VirtqDesc>, m: seq<byte>): (e: Effect<RngState>)
  {
    FillBuffers(s, chain, |m|, |chain|)
  }

  lemma {:induction false} FillConfined(s: RngState, chain: seq<VirtqDesc>, size: nat, k: nat, i: nat)
    requires k <= |chain| && i < |FillBuffers(s, chain, size, k).writes|
    ensures InBuffers(FillBuffers(s, chain, size, k).writes[i], chain)
  {
    var e := FillBuffers(s, chain, size, k - 1);
    if i < |e.writes| {
      FillConfined(s, chain, size, k - 1, i);
    } else {
      var w := FillBuffers(s, chain, size, k).writes[i];
      assert chain[k - 1].addr <= w.at;
    }
  }

  lemma {:induction false} RngConfined()
    ensures Confined(FillChain)
  {
    forall s, chain, m, i | 0 <= i < |FillChain(s, chain, m).writes|
      ensures InBuffers(FillChain(s, chain, m).writes[i], chain)
    {
      FillConfined(s, chain, |m|, |chain|, i);
    }
  }

  class VirtioRng {
    const entropy: nat -> byte
    const fails: nat -> bool
    var asked: nat
    var drawn: nat

    ghost function State(): (s: RngState)
      reads this
    {
      RngState(entropy, fails, asked, drawn)
    }

    constructor (entropy: nat -> byte, fails: nat -> bool)
      ensures State() == RngState(entropy, fails, 0, 0)
    {
      this.entropy, this.fails := entropy, fails;
      this.asked, this.drawn := 0, 0;
    }

    /** `read_exact`: the next bytes of the stream, unless the host fails the read. */
    method ReadExact(n: nat) returns (buf: Option<seq<byte>>)
      modifies this
      ensures buf == (if fails(old(asked)) then None else Some(Draw(old(State()), n)))
      ensures State() == old(State()).(asked := old(asked) + 1, drawn := old(drawn) + if buf.Some? then n else 0)
    {
      if fails(asked) {
        asked := asked + 1;
        return None;
      }
      buf := Some(Draw(RngState(entropy, fails, asked, drawn), n));
      asked, drawn := asked + 1, drawn + n;
    }

    method ProcessChain(chain: seq<VirtqDesc>, mem: GuestMemory) returns (total: u32)
      requires mem.Valid()
      modifies this, mem, mem.data
      ensures mem.Valid()
      ensures var e := FillChain(old(State()), chain, old(mem.Contents()));
              State() == e.dev && total == e.written && mem.log == old(mem.log) + e.writes
    {
      hide Splice, Replay, Zeros, Draw;
      ghost var s, size := State(), mem.data.Length;
      total := 0;
      var i: nat := 0;
      while i < |chain|
        invariant i <= |chain| && mem.Valid()
        invariant var e := FillBuffers(s, chain, size, i);
                  State() == e.dev && total == e.written && mem.log == old(mem.log) + e.writes
      {
        var desc := chain[i];
        if desc.Writable() && desc.len > 0 {
          ghost var e := FillBuffers(s, chain, size, i);
          var buf := ReadExact(desc.len);
          if buf.Some? {
            LogAssoc(old(mem.log), e.writes, Stored(size, Write(desc.addr, buf.value)));
            var ok := mem.WriteAt(desc.addr, buf.value);
            if ok {
              total := Plus32(total, desc.len);
            }
          }
        }
        i := i + 1;
      }
    }
  }

  // ---- Back ends ----

  /** The device behind a queue. */
  datatype Backend = Block(blk: VirtioBlk) | Entropy(rng: VirtioRng)

  datatype BackendState = BlockState(blk: BlkState) | EntropyState(rng: RngState)

  ghost function StateOf(dev: Backend): (s: BackendState)
    reads match dev case Block(blk) => {blk, blk.disk} case Entropy(rng) => {rng}
  {
    match dev
    case Block(blk) => BlockState(blk.State())
    case Entropy(rng) => EntropyState(rng.State())
  }

  /** Storage of the back end other than guest memory. */
  function Footprint(dev: Backend): set<object>
  {
    match dev
    case Block(blk) => {blk, blk.disk}
    case Entropy(rng) => {rng}
  }

  ghost predicate Separate(dev: Backend, mem: GuestMemory)
  {
    dev.Block? ==> dev.blk.Apart(mem)
  }

  function Handle(s: BackendState, chain: seq<VirtqDesc>, m: seq<byte>): (e: Effect<BackendState>)
  {
    match s
    case BlockState(blk) =>
      var e := HandleChain(blk, chain, m);
      Effect(BlockState(e.dev), e.writes, e.written)
    case EntropyState(rng) =>
      var e := FillChain(rng, chain, m);
      Effect(EntropyState(e.dev), e.writes, e.written)
  }

  method ProcessChain(dev: Backend, chain: seq<VirtqDesc>, mem: GuestMemory) returns (written: u32)
    requires mem.Valid() && Separate(dev, mem)
    modifies Footprint(dev), mem, mem.data
    ensures mem.Valid()
    ensures var e := Handle(old(StateOf(dev)), chain, old(mem.Contents()));
            StateOf(dev) == e.dev && written == e.written && mem.log == old(mem.log) + e.writes
  {
    hide HandleChain, FillChain;
    match dev
    case Block(blk) => written := blk.ProcessChain(chain, mem);
    case Entropy(rng) => written := rng.ProcessChain(chain, mem);
  }

  // ---- The queue ----

  class Virtqueue {
    var descTable: u64
    var availRing: u64
    var usedRing: u64
    var num: u16
    var lastAvail: u16
    var ready: bool

    ghost function State(): (q: Queue)
      reads this
    {
      Queue(descTable, availRing, usedRing, num, lastAvail, ready)
    }

    constructor ()
      ensures State() == Queue(0, 0, 0, 0, 0, false)
    {
      descTable, availRing, usedRing, num, lastAvail, ready := 0, 0, 0, 0, 0, false;
    }

    method ReadU16(mem: GuestMemory, gpa: u64) returns (v: Option<u16>)
      ensures v == LoadU16(mem.Contents(), gpa)
    {
      var bs := mem.ReadAt(gpa, 2);
      v := if bs.Some? then Some(U16At(bs.value, 0)) else None;
    }

    method ReadDesc(mem: GuestMemory, idx: u16) returns (d: Option<VirtqDesc>)
      ensures d == DescAt(mem.Contents(), descTable, idx)
    {
      var a := Wrap64(descTable + idx * 16);
      var bs := mem.ReadAt(a, 16);
      if bs.None? {
        return None;
      }
      d := Some(VirtqDesc(U64At(bs.value, 0), U32At(bs.value, 8), U16At(bs.value, 12), U16At(bs.value, 14)));
    }

    /** Inner loop: collect the chain at `head`, at most `num + 1` descriptors. */
    method CollectChain(mem: GuestMemory, head: u16) returns (chain: seq<VirtqDesc>)
      ensures chain == Walk(TableAt(mem.Contents(), descTable), head, 0, num)
    {
      hide DescAt, Walk;
      ghost var t := TableAt(mem.Contents(), descTable);
      ghost var all := Walk(t, head, 0, num);
      chain := [];
      assert chain + all == all;
      var idx, hasNext := head, true;
      while hasNext
        invariant hasNext ==> |chain| <= num && all == chain + Walk(t, idx, |chain|, num)
        invariant !hasNext ==> all == chain
        decreases hasNext, num - |chain|
      {
        WalkStep(t, chain, idx, num);
        var desc := ReadDesc(mem, idx);
        if desc.None? {
          break;
        }
        chain := chain + [desc.value];
        if desc.value.HasNext() {
          idx := desc.value.next;
        } else {
          hasNext := false;
        }
        if |chain| > num {
          break;
        }
      }
    }

    method Process(mem: GuestMemory, dev: Backend) returns (processed: nat)
      requires mem.Valid() && Separate(dev, mem)
      requires this !in Footprint(dev)
      modifies this, Footprint(dev), mem, mem.data
      ensures mem.Valid()
      ensures var o := Virtq.Process(old(State()), old(mem.Contents()), old(StateOf(dev)), Handle);
              && State() == o.q && StateOf(dev) == o.dev
              && mem.log == old(mem.log) + o.writes && processed == o.processed
    {
      hide Virtq.Process, Drain, Handle, Replay, Splice, LoadU16, Le16;
      ghost var q, m, s := State(), mem.Contents(), StateOf(dev);
      ProcessUnfolds(q, m, s, Handle);
      if !ready || num == 0 {
        return 0;
      }
      var avail := ReadU16(mem, Wrap64(availRing + 2));
      if avail.None? {
        return 0;
      }
      processed := DrainRing(mem, dev, avail.value);
      if processed > 0 {
        var _ := mem.WriteAt(Wrap64(usedRing + 2), Le16(lastAvail));
        LogAssoc(old(mem.log), Drain(q, m, s, Handle, avail.value).writes, Stored(|m|, IdxWrite(State())));
      }
    }

    /** Outer loop: complete chains until the index `avail` is reached or a ring entry cannot be read. */
    method DrainRing(mem: GuestMemory, dev: Backend, avail: u16) returns (processed: nat)
      requires mem.Valid() && Separate(dev, mem) && num > 0
      requires this !in Footprint(dev)
      modifies this, Footprint(dev), mem, mem.data
      ensures mem.Valid()
      ensures var o := Drain(old(State()), old(mem.Contents()), old(StateOf(dev)), Handle, avail);
              && State() == o.q && StateOf(dev) == o.dev
              && mem.log == old(mem.log) + o.writes && processed == o.processed
    {
      hide Drain, Draining, Backlog, CompleteOne, Handle, Walk, TableAt, Replay, Splice, LoadU16;
      processed := 0;
      ghost var all := Drain(State(), mem.Contents(), StateOf(dev), Handle, avail);
      ghost var done: seq<Write> := [];
      DrainStarts(State(), mem.Contents(), StateOf(dev), Handle, avail);
      while lastAvail != avail
        invariant mem.Valid() && num == old(num) && mem.log == old(mem.log) + done
        invariant Draining(all, State(), mem.Contents(), StateOf(dev), Handle, avail, done, processed)
        decreases Backlog(State(), avail)
      {
        DrainStep(all, State(), mem.Contents(), StateOf(dev), Handle, avail, done, processed);
        var head := ReadU16(mem, Wrap64(availRing + 4 + lastAvail % num * 2));
        if head.None? {
          break;
        }
        ghost var e := CompleteOne(State(), mem.Contents(), StateOf(dev), Handle, head.value);
        CompleteHead(mem, dev, head.value);
        done := done + e.writes;
        lastAvail := Plus16(lastAvail, 1);
        processed := processed + 1;
      }
      DrainStep(all, State(), mem.Contents(), StateOf(dev), Handle, avail, done, processed);
    }

    /** The body of the outer loop once the head is known: device callback, then the used element. */
    method CompleteHead(mem: GuestMemory, dev: Backend, head: u16)
      requires mem.Valid() && Separate(dev, mem) && num > 0
      requires this !in Footprint(dev)
      modifies Footprint(dev), mem, mem.data
      ensures mem.Valid()
      ensures var e := CompleteOne(State(), old(mem.Contents()), old(StateOf(dev)), Handle, head);
              && StateOf(dev) == e.dev && mem.log == old(mem.log) + e.writes
              && mem.Contents() == Replay(old(mem.Contents()), e.writes)
    {
      hide Handle, Walk, TableAt, Replay, Splice;
      ghost var log, m, s := mem.log, mem.Contents(), StateOf(dev);
      var chain := CollectChain(mem, head);
      ghost var e := Handle(s, chain, m);
      var written := ProcessChain(dev, chain, mem);
      var _ := mem.WriteAt(Wrap64(usedRing + 4 + lastAvail % num * 8), Le32(head) + Le32(written));
      LogAssoc(log, e.writes, Stored(|m|, ElemWrite(State(), head, written)));
      mem.Grown(CompleteOne(State(), m, s, Handle, head).writes);
    }
  }
}
