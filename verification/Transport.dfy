/** Queue, back end and PCI transport together: what a notification from the driver brings about. */
module Transport {
  import opened Bytes
  import opened Memory
  import opened Le
  import opened Virtq
  import opened Device
  import opened Rings
  import opened RingProtocol
  import opened DeviceRuns
  import RingRuns
  import opened PciModel
  import PciDevice
  import PciRuns

  /** An interrupt reaches the guest: a vector is raised, or the line goes high. */
  ghost predicate Reported(o: Out)
  {
    exists e :: e in o.events && (e.Raise? || e == Level(true))
  }

  /** The transport has a way to report an interrupt of queue 0. */
  predicate CanReport(d: Pci)
    requires d.Shaped() && |d.queues| > 0
  {
    !d.Enabled() || (d.queueVectors[0] < |d.table| && d.queueVectors[0] != NO_VECTOR)
  }

  /** Nothing else about the batch matters to the number of chains it completes. */
  lemma {:induction false} BatchRuns(s: RingProtocol.Sys<BackendState>) returns (evs: seq<RingProtocol.Event>)
    requires Inv(s) && s.pc.Idle? && s.q.ready
    requires RingRuns.BatchClear(s.q, s.mem, s.dev, Handle, ViewOf(s.mem, LayoutOf(s.q)).availIdx)
    ensures RingRuns.Run(Handle, s, evs).Some?
    ensures var o, s' := Process(s.q, s.mem, s.dev, Handle), RingRuns.Run(Handle, s, evs).value;
            && s'.mem == Replay(s.mem, o.writes) && s'.q == o.q && s'.dev == o.dev
            && s'.added == s.added && s'.published == |s'.done| == |s.added|
            && |s.added| == |s.done| + o.processed
            && ViewOf(s'.mem, LayoutOf(s.q)).usedIdx == |s.added| % POW16
            && (forall i :: 0 <= i < |s.added| ==> s'.done[i].id == s.added[i])
  {
    hide RingRuns.Run, ViewOf, Slot, RingRuns.BatchClear, Process, Confined, Handle;
    HandleConfined();
    evs := RingRuns.ProcessIsRun(Handle, s);
  }

  /**
   * A notification of queue 0, from every state of the protocol with an idle, ready queue: the device completes and
   * publishes every head the driver has made available, and an interrupt is reported if and only if there was one and
   * the transport can report it.
   */
  lemma {:induction false} NotificationServes(s: RingProtocol.Sys<BackendState>, d: Pci, offset: u64, data: seq<byte>)
    returns (evs: seq<RingProtocol.Event>)
    requires Inv(s) && s.pc.Idle? && s.q.ready
    requires RingRuns.BatchClear(s.q, s.mem, s.dev, Handle, ViewOf(s.mem, LayoutOf(s.q)).availIdx)
    requires d.Shaped() && |d.queues| > 0 && d.queues[0] == s.q
    requires NOTIFY_OFFSET <= offset < NOTIFY_END && Taken(data) == 0
    ensures RingRuns.Run(Handle, s, evs).Some?
    ensures var o, s' := Process(s.q, s.mem, s.dev, Handle), RingRuns.Run(Handle, s, evs).value;
            var r := PciModel.Step(d, WriteBar(offset, data, Answer(o.processed > 0, o.q)));
            && s'.mem == Replay(s.mem, o.writes) && s'.added == s.added && s'.published == |s'.done| == |s.added|
            && ViewOf(s'.mem, LayoutOf(s.q)).usedIdx == |s.added| % POW16
            && (forall i :: 0 <= i < |s.added| ==> s'.done[i].id == s.added[i])
            && r.dev.queues == d.queues[0 := s'.q]
            && (Reported(r) <==> |s.done| < |s.added| && CanReport(d))
  {
    hide RingRuns.Run, ViewOf, Slot, RingRuns.BatchClear, Process, Inv, Taken, Handle;
    evs := BatchRuns(s);
    var o := Process(s.q, s.mem, s.dev, Handle);
    NoticeQueues(d, offset, data, Answer(o.processed > 0, o.q));
    if o.processed > 0 {
      PciRuns.WantedIsReported(d, offset, data, Answer(true, o.q));
    }
  }

  /** The transport keeps the queue the back end left, and reports nothing unasked. */
  lemma NoticeQueues(d: Pci, offset: u64, data: seq<byte>, a: Answer)
    requires d.Shaped() && |d.queues| > 0 && NOTIFY_OFFSET <= offset < NOTIFY_END && Taken(data) == 0
    ensures var r := PciModel.Step(d, WriteBar(offset, data, a));
            r.dev.queues == d.queues[0 := a.queue] && (!a.wants ==> r.events == [])
  {
  }

  /**
   * The notification arm of `mmio_write`, with a back end of one queue behind it: queue 0 is served, and any other
   * number does nothing.
   */
  method NotifyBackend(pci: PciDevice.VirtioPciDevice, dev: Backend, queue: Virtqueue, mem: GuestMemory,
                       offset: u64, data: seq<byte>)
    requires pci.Valid() && mem.Valid() && Separate(dev, mem) && queue !in Footprint(dev)
    requires NOTIFY_OFFSET <= offset < NOTIFY_END && pci.queues == [queue.State()]
    modifies pci, queue, Footprint(dev), mem, mem.data
    ensures pci.Valid() && mem.Valid() && pci.queues == [queue.State()]
    ensures Taken(data) == 0 ==>
              var o := Process(old(queue.State()), old(mem.Contents()), old(StateOf(dev)), Handle);
              var a := Answer(o.processed > 0, o.q);
              && pci.Did(old(pci.trace), PciModel.Step(old(pci.State()), WriteBar(offset, data, a)))
              && queue.State() == o.q && StateOf(dev) == o.dev && mem.log == old(mem.log) + o.writes
    ensures Taken(data) != 0 ==>
              && pci.State() == old(pci.State()) && pci.trace == old(pci.trace)
              && StateOf(dev) == old(StateOf(dev)) && mem.log == old(mem.log)
  {
    hide Process, Handle, Replay, Splice, Taken;
    ghost var d := pci.State();
    var idx := GetLe(data);
    if idx < |pci.queues| {
      var wants := OnNotify(dev, idx, queue, mem);
      var q := Queue(queue.descTable, queue.availRing, queue.usedRing, queue.num, queue.lastAvail, queue.ready);
      NoticeQueues(d, offset, data, Answer(wants, q));
      pci.MmioWrite(offset, data, Answer(wants, q));
    }
  }
}
