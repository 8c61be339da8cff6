/** The block and entropy back ends as parties of the virtqueue protocol (src/virtio/blk.rs, src/virtio/rng.rs). */
module DeviceRuns {
  import opened Bytes
  import opened Memory
  import opened Virtq
  import opened Blk
  import opened BlkProps
  import opened Device
  import opened Rings
  import opened RingProtocol
  import opened RingRuns
  import RingPublish

  /** Neither back end stores outside the buffers of the chain it is handed. */
  lemma {:induction false} HandleConfined()
    ensures Confined(Handle)
  {
    hide HandleChain, FillChain, InBuffers;
    BlkConfined();
    RngConfined();
    forall dev, chain, m, i | 0 <= i < |Handle(dev, chain, m).writes|
      ensures InBuffers(Handle(dev, chain, m).writes[i], chain)
    {
      match dev
      case BlockState(blk) =>
        assert InBuffers(HandleChain(blk, chain, m).writes[i], chain);
      case EntropyState(rng) =>
        assert InBuffers(FillChain(rng, chain, m).writes[i], chain);
    }
  }

  /** So exactly-once, in-order completion holds of the devices the repository ships. */
  lemma {:induction false} DevicesCompleteInOrder(s0: Sys<BackendState>, evs: seq<Event>)
    requires Init(s0) && Run(Handle, s0, evs).Some?
    ensures var s := Run(Handle, s0, evs).value; var v := ViewOf(s.mem, LayoutOf(s.q));
            && |s.reclaimed| <= s.published <= |s.done| <= |s.added| <= |s.reclaimed| + s.q.num
            && (forall i :: 0 <= i < |s.done| ==> s.done[i].id == s.added[i])
            && (forall i :: 0 <= i < |s.reclaimed| ==> s.reclaimed[i] == s.done[i])
            && s.q.lastAvail == |s.done| % POW16 && v.usedIdx == s.published % POW16
  {
    hide Run, Confined, ViewOf;
    HandleConfined();
    ExactlyOnceInOrder(Handle, s0, evs);
  }

  /** One page of memory, all zero but the available index, which is one. */
  function OnePage(): (m: seq<byte>)
    ensures |m| == PAGE_SIZE && forall i :: 0 <= i < PAGE_SIZE ==> m[i] == if i == 18 then 1 else 0
  {
    seq(PAGE_SIZE, i => if i == 18 then 1 else 0)
  }

  /**
   * The limit of publication is reached by a device of the repository: the used slot is past the end of memory, and the
   * entropy device's queue publishes index one without an element anywhere.
   */
  lemma {:induction false} EntropyElementLost(rng: RngState)
    ensures var q := Queue(0, 16, 4088, 1, 0, true);
            var o := Process(q, OnePage(), EntropyState(rng), Handle);
            o.processed == 1 && o.writes == [Write(4090, Le16(1))]
  {
    hide OnePage, Process, Handle, Slot, TableAt, Walk;
    var q, m := Queue(0, 16, 4088, 1, 0, true), OnePage();
    assert HeadAt(m, q) == Some(0) && AvailIdx(m, q) == Some(1);
    assert Slot(0, 1) == 0 by {
      SlotOfOne();
    }
    NothingToFill(rng, q, m);
    RingPublish.PublishedWithoutElement(q, m, EntropyState(rng), Handle, 0);
  }

  lemma SlotOfOne()
    ensures Slot(0, 1) == 0
  {
  }

  lemma {:induction false} NothingToFill(rng: RngState, q: Queue, m: seq<byte>)
    requires q.descTable == 0 && q.num == 1 && |m| >= 16 && forall i :: 0 <= i < 16 ==> m[i] == 0
    ensures RingPublish.Callback(q, m, EntropyState(rng), Handle, 0).writes == []
  {
    var t := TableAt(m, 0);
    assert t(0) == Some(VirtqDesc(0, 0, 0, 0));
    assert Walk(t, 0, 0, 1) == [VirtqDesc(0, 0, 0, 0)];
    assert FillBuffers(rng, [VirtqDesc(0, 0, 0, 0)], |m|, 1).writes == [];
  }

  /**
   * `on_notify`: only queue 0 is served, and an interrupt is wanted exactly when a chain was completed; the answer
   * the transport acts on is this result with the queue as it is left.
   */
  method OnNotify(dev: Backend, queueIdx: nat, queue: Virtqueue, mem: GuestMemory) returns (wants: bool)
    requires mem.Valid() && Separate(dev, mem) && queue !in Footprint(dev)
    modifies queue, Footprint(dev), mem, mem.data
    ensures mem.Valid()
    ensures queueIdx != 0 ==>
              && !wants && queue.State() == old(queue.State())
              && StateOf(dev) == old(StateOf(dev)) && mem.log == old(mem.log)
    ensures queueIdx == 0 ==>
              var o := Process(old(queue.State()), old(mem.Contents()), old(StateOf(dev)), Handle);
              && wants == (o.processed > 0)
              && queue.State() == o.q && StateOf(dev) == o.dev && mem.log == old(mem.log) + o.writes
  {
    hide Process, Handle, Replay, Splice;
    if queueIdx != 0 {
      return false;
    }
    var processed := queue.Process(mem, dev);
    wants := processed > 0;
  }
}
