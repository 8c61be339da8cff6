/**
 * Driver and device sharing a split virtqueue, step by step: every interleaving of driver stores with the loads
 * and stores of `process` (src/virtio/mod.rs).
 */
module RingProtocol {
  import opened Bytes
  import opened Memory
  import opened Virtq
  import opened Rings

  /** Where the device is inside `process`. `completed` counts the chains of the current call. */
  datatype Pc =
    | Idle
    | Polling(avail: u16, completed: nat)
    | Holding(avail: u16, completed: nat, head: u16)
    | Working(avail: u16, completed: nat, head: u16, written: u32, todo: seq<Write>, next: nat)

  /**
   * Guest memory and the device, with the history of the queue: heads the driver has made available, elements the
   * device has completed, how many of those its published index covers, and elements the driver has taken back.
   * `offered` is a head already stored in its slot but not yet covered by the available index.
   */
  datatype Sys<S> = Sys(
    mem: seq<byte>, q: Queue, dev: S, pc: Pc, offered: Option<u16>,
    added: seq<u16>, done: seq<Elem>, published: nat, reclaimed: seq<Elem>)

  datatype Event =
    // driver
    | Offer(head: u16)
    | Announce
    | Reclaim
    | Touch(w: Write)
    // device
    | Begin
    | Take
    | Serve(chain: seq<VirtqDesc>, view: seq<byte>)
    | Store
    | Complete
    | Finish

  // ---- Steps ----

  /** No buffer of the chain overlaps a ring. */
  ghost predicate ChainClear(l: Layout, chain: seq<VirtqDesc>)
  {
    forall k :: 0 <= k < |chain| ==>
      && (chain[k].addr + Max(chain[k].len, 1) <= l.avail || l.AvailEnd() <= chain[k].addr)
      && (chain[k].addr + Max(chain[k].len, 1) <= l.used || l.UsedEnd() <= chain[k].addr)
  }

  ghost function HeadChain(q: Queue, m: seq<byte>, head: u16): (chain: seq<VirtqDesc>)
  {
    Walk(TableAt(m, q.descTable), head, 0, q.num)
  }

  /**
   * What each party may do. `Serve` is the descriptor walk and the loads of the callback: they are spread over time
   * while the driver goes on storing, so `chain` is what the walk saw, any chain at all that keeps off the rings, and
   * `view` is what the callback saw, any memory contents. The driver keeps at most `num` heads outstanding and writes
   * rings only by protocol.
   */
  ghost predicate Enabled<S>(f: Handler<S>, s: Sys<S>, ev: Event)
    requires Laid(LayoutOf(s.q), |s.mem|)
  {
    var l := LayoutOf(s.q);
    match ev
    case Offer(_) => s.offered.None? && |s.added| < |s.reclaimed| + l.num
    case Announce => s.offered.Some?
    case Reclaim => ViewOf(s.mem, l).usedIdx != |s.reclaimed| % POW16
    case Touch(w) => Clear(l, w)
    case Begin => s.pc.Idle? && AvailIdx(s.mem, s.q).Some?
    case Take => s.pc.Polling? && s.q.lastAvail != s.pc.avail && HeadAt(s.mem, s.q).Some?
    case Serve(chain, view) => s.pc.Holding? && |view| == |s.mem| && ChainClear(l, chain)
    case Store => s.pc.Working? && s.pc.next < |s.pc.todo|
    case Complete => s.pc.Working? && s.pc.next == |s.pc.todo|
    case Finish => s.pc.Polling? && s.q.lastAvail == s.pc.avail
  }

  ghost function Step<S>(f: Handler<S>, s: Sys<S>, ev: Event): (s': Sys<S>)
    requires Laid(LayoutOf(s.q), |s.mem|) && Enabled(f, s, ev)
    ensures LayoutOf(s'.q) == LayoutOf(s.q) && |s'.mem| == |s.mem|
  {
    var l := LayoutOf(s.q);
    match ev
    case Offer(head) =>
      s.(mem := Splice(s.mem, l.avail + 4 + 2 * Slot(|s.added|, l.num), Le16(head)), offered := Some(head))
    case Announce =>
      s.(mem := Splice(s.mem, l.avail + 2, Le16((|s.added| + 1) % POW16)),
         added := s.added + [s.offered.value], offered := None)
    case Reclaim =>
      s.(reclaimed := s.reclaimed + [ViewOf(s.mem, l).used[Slot(|s.reclaimed|, l.num)]])
    case Touch(w) =>
      s.(mem := Splice(s.mem, w.at, w.data))
    case Begin =>
      s.(pc := Polling(AvailIdx(s.mem, s.q).value, 0))
    case Take =>
      s.(pc := Holding(s.pc.avail, s.pc.completed, HeadAt(s.mem, s.q).value))
    case Serve(chain, view) =>
      var e := f(s.dev, chain, view);
      s.(dev := e.dev, pc := Working(s.pc.avail, s.pc.completed, s.pc.head, e.written, e.writes, 0))
    case Store =>
      var w := s.pc.todo[s.pc.next];
      s.(mem := Splice(s.mem, w.at, w.data), pc := s.pc.(next := s.pc.next + 1))
    case Complete =>
      var w := ElemWrite(s.q, s.pc.head, s.pc.written);
      s.(mem := Splice(s.mem, w.at, w.data), q := Advance(s.q),
         done := s.done + [Elem(s.pc.head, s.pc.written)], pc := Polling(s.pc.avail, s.pc.completed + 1))
    case Finish =>
      if s.pc.completed == 0 then s.(pc := Idle)
      else
        var w := IdxWrite(s.q);
        s.(mem := Splice(s.mem, w.at, w.data), published := |s.done|, pc := Idle)
  }

  // ---- The invariant ----

  /** The counters: nothing is completed before it is added, taken back before it is published, or overwritten. */
  ghost predicate Counted<S>(s: Sys<S>, num: nat, v: View)
  {
    && |s.reclaimed| <= s.published <= |s.done| <= |s.added| <= |s.reclaimed| + num
    && (s.offered.Some? ==> |s.added| < |s.reclaimed| + num)
    && s.q.lastAvail == |s.done| % POW16
    && v.availIdx == |s.added| % POW16
    && v.usedIdx == s.published % POW16
  }

  ghost predicate Ordered<S>(s: Sys<S>)
    requires |s.reclaimed| <= |s.done| <= |s.added|
  {
    && (forall i :: 0 <= i < |s.done| ==> s.done[i].id == s.added[i])
    && (forall i :: 0 <= i < |s.reclaimed| ==> s.reclaimed[i] == s.done[i])
  }

  /** Heads still to be completed sit in their available slots. */
  ghost predicate AvailHolds<S>(s: Sys<S>, num: nat, v: View)
    requires num > 0 && |v.avail| == num
  {
    && (forall i :: |s.done| <= i < |s.added| ==> v.avail[Slot(i, num)] == s.added[i])
    && (s.offered.Some? ==> v.avail[Slot(|s.added|, num)] == s.offered.value)
  }

  /** Elements completed and not yet taken back sit in their used slots, published or not. */
  ghost predicate UsedHolds<S>(s: Sys<S>, num: nat, v: View)
    requires num > 0 && |v.used| == num
  {
    forall i :: |s.reclaimed| <= i < |s.done| ==> v.used[Slot(i, num)] == s.done[i]
  }

  /** What the device knows between its steps. */
  ghost predicate PcOk<S>(s: Sys<S>, l: Layout)
  {
    match s.pc
    case Idle => s.published == |s.done|
    case Polling(avail, completed) =>
      && |s.done| == s.published + completed
      && |s.done| + Backlog(s.q, avail) <= |s.added|
    case Holding(avail, completed, head) =>
      && |s.done| == s.published + completed
      && 0 < Backlog(s.q, avail) && |s.done| + Backlog(s.q, avail) <= |s.added|
      && head == s.added[|s.done|]
    case Working(avail, completed, head, _, todo, next) =>
      && |s.done| == s.published + completed
      && 0 < Backlog(s.q, avail) && |s.done| + Backlog(s.q, avail) <= |s.added|
      && head == s.added[|s.done|]
      && next <= |todo| && (forall k :: 0 <= k < |todo| ==> Clear(l, todo[k]))
  }

  ghost predicate Inv<S>(s: Sys<S>)
  {
    var l := LayoutOf(s.q);
    && Laid(l, |s.mem|)
    && var v := ViewOf(s.mem, l);
       && Counted(s, l.num, v) && Ordered(s)
       && AvailHolds(s, l.num, v) && UsedHolds(s, l.num, v) && PcOk(s, l)
  }

  /** A fresh queue: both indices zero, nothing in flight. */
  ghost predicate Init<S>(s: Sys<S>)
  {
    var l := LayoutOf(s.q);
    && Laid(l, |s.mem|)
    && ViewOf(s.mem, l).availIdx == 0 && ViewOf(s.mem, l).usedIdx == 0 && s.q.lastAvail == 0
    && s.pc.Idle? && s.offered.None?
    && s.added == [] && s.done == [] && s.published == 0 && s.reclaimed == []
  }

  // ---- Device addresses in terms of the view ----

  lemma {:induction false} DeviceSees(q: Queue, m: seq<byte>, n: nat)
    requires Laid(LayoutOf(q), |m|) && q.lastAvail == n % POW16
    ensures var v := ViewOf(m, LayoutOf(q));
            AvailIdx(m, q) == Some(v.availIdx) && HeadAt(m, q) == Some(v.avail[Slot(n, q.num)])
  {
    hide U16At, ElemAt, Slot, Wrap64, AvailSlotAddr, AvailIdxAddr;
    WrappedSlotAt(n, q.num);
    SlotAddr(q);
    IdxAddr(q);
  }

  lemma IdxAddr(q: Queue)
    requires q.availRing + 4 + 2 * q.num < POW64
    ensures AvailIdxAddr(q) == q.availRing + 2
  {
  }

  lemma SlotAddr(q: Queue)
    requires q.num > 0 && q.availRing + 4 + 2 * q.num < POW64
    ensures AvailSlotAddr(q) == q.availRing + 4 + 2 * Slot(q.lastAvail, q.num)
  {
  }

  lemma {:induction false} ElemGoes(q: Queue, m: seq<byte>, n: nat, head: u16, written: u32)
    requires Laid(LayoutOf(q), |m|) && q.lastAvail == n % POW16
    ensures var l := LayoutOf(q); var w := ElemWrite(q, head, written); var v := ViewOf(m, l);
            && w.at + |w.data| <= |m|
            && ViewOf(Splice(m, w.at, w.data), l) == v.(used := v.used[Slot(n, l.num) := Elem(head, written)])
  {
    hide ViewOf, Splice, Le32;
    WrappedSlotAt(n, q.num);
    StoreUsedSlot(m, LayoutOf(q), Slot(n, q.num), Elem(head, written));
  }

  lemma {:induction false} IdxGoes(q: Queue, m: seq<byte>)
    requires Laid(LayoutOf(q), |m|)
    ensures var l := LayoutOf(q); var w := IdxWrite(q);
            && w.at + |w.data| <= |m|
            && ViewOf(Splice(m, w.at, w.data), l) == ViewOf(m, l).(usedIdx := q.lastAvail)
  {
    hide ViewOf, Splice;
    StoreUsedIdx(m, LayoutOf(q), q.lastAvail);
  }

  // ---- Every step keeps the invariant ----

  lemma {:induction false} OfferKeeps<S>(f: Handler<S>, s: Sys<S>, head: u16)
    requires Inv(s) && Enabled(f, s, Offer(head))
    ensures Inv(Step(f, s, Offer(head)))
  {
    hide ViewOf, Splice, Slot, Le16, Backlog;
    var l := LayoutOf(s.q);
    StoreAvailSlot(s.mem, l, Slot(|s.added|, l.num), head);
    forall i | |s.done| <= i < |s.added|
      ensures Slot(i, l.num) != Slot(|s.added|, l.num)
    {
      SlotsDiffer(i, |s.added|, l.num);
    }
  }

  lemma {:induction false} AnnounceKeeps<S>(f: Handler<S>, s: Sys<S>)
    requires Inv(s) && Enabled(f, s, Announce)
    ensures Inv(Step(f, s, Announce))
  {
    hide ViewOf, Splice, Slot, Le16, Backlog;
    StoreAvailIdx(s.mem, LayoutOf(s.q), (|s.added| + 1) % POW16);
  }

  /** Indices that differ modulo 2^16 show that an unreclaimed element is published. */
  lemma {:induction false} ReclaimKeeps<S>(f: Handler<S>, s: Sys<S>)
    requires Inv(s) && Enabled(f, s, Reclaim)
    ensures Inv(Step(f, s, Reclaim))
  {
    hide ViewOf, Slot, Backlog;
    assert |s.reclaimed| < s.published;
  }

  lemma {:induction false} TouchKeeps<S>(f: Handler<S>, s: Sys<S>, w: Write)
    requires Inv(s) && Enabled(f, s, Touch(w))
    ensures Inv(Step(f, s, Touch(w)))
  {
    hide ViewOf, Splice, Slot, Backlog, Clear;
    StoreElsewhere(s.mem, LayoutOf(s.q), w);
  }

  lemma {:induction false} BeginKeeps<S>(f: Handler<S>, s: Sys<S>)
    requires Inv(s) && Enabled(f, s, Begin)
    ensures Inv(Step(f, s, Begin))
  {
    hide ViewOf, Slot, AvailIdx;
    DeviceSees(s.q, s.mem, |s.done|);
    BacklogOfCounts(s.q, |s.done|, |s.added|);
  }

  lemma BacklogOfCounts(q: Queue, done: nat, added: nat)
    requires q.lastAvail == done % POW16 && done <= added
    ensures done + Backlog(q, added % POW16) <= added
  {
  }

  lemma {:induction false} TakeKeeps<S(!new)>(f: Handler<S>, s: Sys<S>)
    requires Inv(s) && Enabled(f, s, Take)
    ensures Inv(Step(f, s, Take))
  {
    hide ViewOf, Slot, HeadAt, Backlog;
    BacklogPositive(s.q, s.pc.avail);
    DeviceSees(s.q, s.mem, |s.done|);
  }

  /** Whatever the walk and the callback saw, the callback's stores stay off the rings. */
  lemma {:induction false} ServeKeeps<S(!new)>(f: Handler<S>, s: Sys<S>, chain: seq<VirtqDesc>, view: seq<byte>)
    requires Inv(s) && Enabled(f, s, Serve(chain, view)) && Confined(f)
    ensures Inv(Step(f, s, Serve(chain, view)))
  {
    hide ViewOf, Slot, HeadAt, Backlog, ChainClear, Confined, Clear;
    var e := f(s.dev, chain, view);
    forall k | 0 <= k < |e.writes|
      ensures Clear(LayoutOf(s.q), e.writes[k])
    {
      StoresClear(f, s.dev, chain, view, LayoutOf(s.q), k);
    }
  }

  lemma {:induction false} StoresClear<S(!new)>(f: Handler<S>, dev: S, chain: seq<VirtqDesc>, m: seq<byte>, l: Layout,
                                                k: nat)
    requires Confined(f) && ChainClear(l, chain) && k < |f(dev, chain, m).writes|
    ensures Clear(l, f(dev, chain, m).writes[k])
  {
    var w := f(dev, chain, m).writes[k];
    assert InBuffers(w, chain);
  }

  lemma {:induction false} StoreKeeps<S>(f: Handler<S>, s: Sys<S>)
    requires Inv(s) && Enabled(f, s, Store)
    ensures Inv(Step(f, s, Store))
  {
    hide ViewOf, Splice, Slot, Backlog, Clear;
    StoreElsewhere(s.mem, LayoutOf(s.q), s.pc.todo[s.pc.next]);
  }

  lemma {:induction false} CompleteKeeps<S>(f: Handler<S>, s: Sys<S>)
    requires Inv(s) && Enabled(f, s, Complete)
    ensures Inv(Step(f, s, Complete))
  {
    hide ViewOf, Splice, Slot, ElemWrite, Backlog, Plus16;
    var l := LayoutOf(s.q);
    var n := |s.done|;
    Plus16Counts(n);
    ElemGoes(s.q, s.mem, n, s.pc.head, s.pc.written);
    BacklogPositive(s.q, s.pc.avail);
    BacklogStep(s.q, s.pc.avail);
    forall i | |s.reclaimed| <= i < n
      ensures Slot(i, l.num) != Slot(n, l.num)
    {
      SlotsDiffer(i, n, l.num);
    }
  }

  lemma BacklogPositive(q: Queue, avail: u16)
    ensures Backlog(q, avail) > 0 <==> q.lastAvail != avail
  {
  }

  lemma {:induction false} FinishKeeps<S>(f: Handler<S>, s: Sys<S>)
    requires Inv(s) && Enabled(f, s, Finish)
    ensures Inv(Step(f, s, Finish))
  {
    hide ViewOf, Splice, Slot, IdxWrite, Backlog;
    IdxGoes(s.q, s.mem);
  }

  lemma {:induction false} StepKeeps<S(!new)>(f: Handler<S>, s: Sys<S>, ev: Event)
    requires Inv(s) && Enabled(f, s, ev) && Confined(f)
    ensures Inv(Step(f, s, ev))
  {
    hide Inv, Enabled, Step, Confined;
    match ev
    case Offer(head) => OfferKeeps(f, s, head);
    case Announce => AnnounceKeeps(f, s);
    case Reclaim => ReclaimKeeps(f, s);
    case Touch(w) => TouchKeeps(f, s, w);
    case Begin => BeginKeeps(f, s);
    case Take => TakeKeeps(f, s);
    case Serve(chain, view) => ServeKeeps(f, s, chain, view);
    case Store => StoreKeeps(f, s);
    case Complete => CompleteKeeps(f, s);
    case Finish => FinishKeeps(f, s);
  }
}
