/**
 * The order of stores inside one `process` call, whatever the available ring holds: a batch that a failed ring
 * read cuts short is covered too (src/virtio/mod.rs).
 */
module RingPublish {
  import opened Bytes
  import opened Memory
  import opened Virtq
  import opened Rings

  /**
   * The used index is in memory and no address of the used ring wraps. Nothing is said about the available ring, and
   * used slots may lie past the end of memory: a store to such a slot is refused, and the refusal ignored.
   */
  ghost predicate IndexLaid(l: Layout, size: nat)
  {
    l.num > 0 && POW16 % l.num == 0 && l.used + 4 <= size < POW64 && l.UsedEnd() < POW64
  }

  ghost predicate OffUsed(l: Layout, w: Write)
  {
    w.at + |w.data| <= l.used || l.UsedEnd() <= w.at
  }

  /** What the device does with the chain at `head`. */
  ghost function Callback<S>(q: Queue, m: seq<byte>, dev: S, f: Handler<S>, head: u16): (e: Effect<S>)
  {
    f(dev, Walk(TableAt(m, q.descTable), head, 0, q.num), m)
  }

  /** Every callback of the batch stays off the used ring. */
  ghost predicate BatchOffUsed<S>(q: Queue, m: seq<byte>, dev: S, f: Handler<S>, avail: u16)
    requires q.num > 0
    decreases Backlog(q, avail)
  {
    q.lastAvail == avail || HeadAt(m, q).None? ||
    (var head := HeadAt(m, q).value;
     var e := Callback(q, m, dev, f, head);
     var c := CompleteOne(q, m, dev, f, head);
     BacklogStep(q, avail);
     && (forall i :: 0 <= i < |e.writes| ==> OffUsed(LayoutOf(q), e.writes[i]))
     && BatchOffUsed(Advance(q), Replay(m, c.writes), c.dev, f, avail))
  }

  /** The elements the batch completes, in order. */
  ghost function Completed<S>(q: Queue, m: seq<byte>, dev: S, f: Handler<S>, avail: u16): (es: seq<Elem>)
    requires q.num > 0
    decreases Backlog(q, avail)
  {
    if q.lastAvail == avail || HeadAt(m, q).None? then []
    else
      var head := HeadAt(m, q).value;
      var c := CompleteOne(q, m, dev, f, head);
      BacklogStep(q, avail);
      [Elem(head, c.written)] + Completed(Advance(q), Replay(m, c.writes), c.dev, f, avail)
  }

  function SlotAt(l: Layout, k: nat): nat { l.used + 4 + 8 * k }

  /** Slot `k` belongs to none of the `count` positions from `n` on. */
  ghost predicate FreeOf(l: Layout, n: nat, count: nat, k: nat)
    requires l.num > 0
  {
    forall p :: n <= p < n + count ==> k != Slot(p, l.num)
  }

  /** Slots that the `count` positions from `n` on do not use are the same in both memories. */
  ghost predicate SlotsKept(l: Layout, m: seq<byte>, m': seq<byte>, n: nat, count: nat)
    requires IndexLaid(l, |m|) && |m'| == |m|
  {
    forall k :: 0 <= k < l.num && FreeOf(l, n, count, k) && SlotAt(l, k) + 8 <= |m| ==>
      ElemAt(m', SlotAt(l, k)) == ElemAt(m, SlotAt(l, k))
  }

  /** Element `e` is in memory at `a`. */
  ghost predicate Held(m: seq<byte>, a: nat, e: Elem)
  {
    a + 8 <= |m| && ElemAt(m, a) == e
  }

  /**
   * Of the elements for positions `n, n + 1, ...` (all of them, or the last `num`), exactly those whose slot is in
   * memory are in their slots.
   */
  ghost predicate InSlots(l: Layout, m: seq<byte>, n: nat, es: seq<Elem>)
    requires IndexLaid(l, |m|)
  {
    forall p :: n <= p < n + |es| && n + |es| <= p + l.num ==>
      (Held(m, SlotAt(l, Slot(p, l.num)), es[p - n]) <==> SlotAt(l, Slot(p, l.num)) + 8 <= |m|)
  }

  /** One completion: used slot `n` gets its element if it is in memory; the index and the other slots keep theirs. */
  lemma {:induction false} OneCompletion<S>(q: Queue, m: seq<byte>, dev: S, f: Handler<S>, head: u16, n: nat)
    requires IndexLaid(LayoutOf(q), |m|) && q.lastAvail == n % POW16
    requires var e := Callback(q, m, dev, f, head);
             forall i :: 0 <= i < |e.writes| ==> OffUsed(LayoutOf(q), e.writes[i])
    ensures var c := CompleteOne(q, m, dev, f, head); var m' := Replay(m, c.writes);
            var a := SlotAt(LayoutOf(q), Slot(n, q.num));
            && Avoids(c.writes, q.usedRing + 2, q.usedRing + 4)
            && (Held(m', a, Elem(head, c.written)) <==> a + 8 <= |m|)
            && SlotsKept(LayoutOf(q), m, m', n, 1)
  {
    hide Walk, TableAt, Replay, Splice, ElemAt, Slot, Le32;
    var e := Callback(q, m, dev, f, head);
    var m1 := Replay(m, e.writes);
    OffUsedAvoidsIdx(LayoutOf(q), e.writes);
    CallbackKeepsSlots(LayoutOf(q), m, e.writes, n);
    ElemWriteAt(q, n, head, e.written, |m|);
    var w := ElemWrite(q, head, e.written);
    if w.at + 8 <= |m| {
      assert CompleteOne(q, m, dev, f, head).writes == e.writes + [w];
      AvoidsConcat(e.writes, [w], q.usedRing + 2, q.usedRing + 4);
      ReplaySnoc(m, e.writes, w);
      ElemReads(m1, w.at, Elem(head, e.written));
      forall k | 0 <= k < q.num && FreeOf(LayoutOf(q), n, 1, k) && SlotAt(LayoutOf(q), k) + 8 <= |m|
        ensures ElemAt(Splice(m1, w.at, w.data), SlotAt(LayoutOf(q), k)) == ElemAt(m, SlotAt(LayoutOf(q), k))
      {
        ElemKept(m1, w.at, w.data, SlotAt(LayoutOf(q), k));
      }
    } else {
      assert CompleteOne(q, m, dev, f, head).writes == e.writes;
    }
  }

  lemma {:induction false} CallbackKeepsSlots(l: Layout, m: seq<byte>, ws: seq<Write>, n: nat)
    requires IndexLaid(l, |m|) && forall i :: 0 <= i < |ws| ==> OffUsed(l, ws[i])
    ensures SlotsKept(l, m, Replay(m, ws), n, 1)
    ensures forall k :: 0 <= k < l.num && SlotAt(l, k) + 8 <= |m| ==>
              ElemAt(Replay(m, ws), SlotAt(l, k)) == ElemAt(m, SlotAt(l, k))
  {
    hide Replay, ElemAt, Slot;
    forall k | 0 <= k < l.num && SlotAt(l, k) + 8 <= |m|
      ensures ElemAt(Replay(m, ws), SlotAt(l, k)) == ElemAt(m, SlotAt(l, k))
    {
      OffUsedAvoids(l, ws, SlotAt(l, k));
      ReplayKeepsElem(m, ws, SlotAt(l, k));
    }
  }

  lemma OffUsedAvoids(l: Layout, ws: seq<Write>, a: nat)
    requires forall i :: 0 <= i < |ws| ==> OffUsed(l, ws[i])
    requires l.used <= a && a + 8 <= l.UsedEnd()
    ensures Avoids(ws, a, a + 8)
  {
  }

  lemma OffUsedAvoidsIdx(l: Layout, ws: seq<Write>)
    requires forall i :: 0 <= i < |ws| ==> OffUsed(l, ws[i])
    ensures Avoids(ws, l.used + 2, l.used + 4)
  {
  }

  lemma {:induction false} ElemWriteAt(q: Queue, n: nat, head: u16, written: u32, size: nat)
    requires IndexLaid(LayoutOf(q), size) && q.lastAvail == n % POW16
    ensures var w := ElemWrite(q, head, written);
            w == Write(SlotAt(LayoutOf(q), Slot(n, q.num)), Le32(head) + Le32(written))
  {
    hide Le32;
    WrappedSlotAt(n, q.num);
  }

  lemma {:induction false} ReplayKeepsElem(m: seq<byte>, ws: seq<Write>, a: nat)
    requires a + 8 <= |m| && Avoids(ws, a, a + 8)
    ensures ElemAt(Replay(m, ws), a) == ElemAt(m, a)
  {
    hide Replay;
    ReplayAvoids(m, ws, a, a + 8);
  }

  /**
   * The batch: no store touches the used index; of the last `num` elements completed exactly those whose slot is in
   * memory are in their slots at the end; and a slot that none of the completed positions occupies is unchanged.
   */
  lemma {:induction false} BatchStores<S>(q: Queue, m: seq<byte>, dev: S, f: Handler<S>, avail: u16, n: nat)
    requires IndexLaid(LayoutOf(q), |m|) && q.lastAvail == n % POW16 && BatchOffUsed(q, m, dev, f, avail)
    ensures var o := Drain(q, m, dev, f, avail); var es := Completed(q, m, dev, f, avail);
            var m' := Replay(m, o.writes);
            && |es| == o.processed
            && Avoids(o.writes, q.usedRing + 2, q.usedRing + 4)
            && InSlots(LayoutOf(q), m', n, es) && SlotsKept(LayoutOf(q), m, m', n, |es|)
    decreases Backlog(q, avail)
  {
    hide Replay, ElemAt, Slot, CompleteOne, Callback, Plus16, HeadAt, Backlog, InSlots, SlotsKept;
    if q.lastAvail == avail || HeadAt(m, q).None? {
      ReplayNothing(m);
      NoElems(LayoutOf(q), m, n);
    } else {
      var head := HeadAt(m, q).value;
      var c := CompleteOne(q, m, dev, f, head);
      OneCompletion(q, m, dev, f, head, n);
      BacklogStep(q, avail);
      Plus16Counts(n);
      var q1, m1 := Advance(q), Replay(m, c.writes);
      BatchStores(q1, m1, c.dev, f, avail, n + 1);
      var o1 := Drain(q1, m1, c.dev, f, avail);
      var es1 := Completed(q1, m1, c.dev, f, avail);
      ReplayConcat(m, c.writes, o1.writes);
      AvoidsConcat(c.writes, o1.writes, q.usedRing + 2, q.usedRing + 4);
      JoinElems(LayoutOf(q), m, m1, Replay(m1, o1.writes), Elem(head, c.written), es1, n);
    }
  }

  /** The first completion followed by the others, on the used slots alone. */
  lemma {:induction false} JoinElems(l: Layout, m: seq<byte>, m1: seq<byte>, m2: seq<byte>, e: Elem, es1: seq<Elem>,
                                     n: nat)
    requires IndexLaid(l, |m|) && |m1| == |m2| == |m|
    requires Held(m1, SlotAt(l, Slot(n, l.num)), e) <==> SlotAt(l, Slot(n, l.num)) + 8 <= |m|
    requires SlotsKept(l, m, m1, n, 1)
    requires InSlots(l, m2, n + 1, es1) && SlotsKept(l, m1, m2, n + 1, |es1|)
    ensures InSlots(l, m2, n, [e] + es1) && SlotsKept(l, m, m2, n, |es1| + 1)
  {
    hide ElemAt, Slot;
    var es := [e] + es1;
    forall p | n <= p < n + |es| && n + |es| <= p + l.num
      ensures Held(m2, SlotAt(l, Slot(p, l.num)), es[p - n]) <==> SlotAt(l, Slot(p, l.num)) + 8 <= |m2|
    {
      if p > n {
        assert es[p - n] == es1[p - (n + 1)];
      } else {
        forall j | n + 1 <= j < n + 1 + |es1|
          ensures Slot(n, l.num) != Slot(j, l.num)
        {
          SlotsDiffer(n, j, l.num);
        }
        assert FreeOf(l, n + 1, |es1|, Slot(n, l.num));
      }
    }
    forall k | 0 <= k < l.num && FreeOf(l, n, |es|, k) && SlotAt(l, k) + 8 <= |m|
      ensures ElemAt(m2, SlotAt(l, k)) == ElemAt(m, SlotAt(l, k))
    {
      assert FreeOf(l, n, 1, k) && FreeOf(l, n + 1, |es1|, k);
    }
  }

  lemma NoElems(l: Layout, m: seq<byte>, n: nat)
    requires IndexLaid(l, |m|)
    ensures InSlots(l, m, n, []) && SlotsKept(l, m, m, n, 0)
  {
  }

  /**
   * A call that completes anything ends with one store of the used index. At every earlier point of the call the
   * index is still the old one, and just before that store each element the new index covers is in its slot
   * (all of the batch, or its last `num` if it is longer than the ring), if and only if that slot is in memory.
   */
  lemma {:induction false} PublishedLast<S>(q: Queue, m: seq<byte>, dev: S, f: Handler<S>, avail: u16, n: nat)
    requires q.ready && IndexLaid(LayoutOf(q), |m|) && q.lastAvail == n % POW16
    requires AvailIdx(m, q) == Some(avail) && BatchOffUsed(q, m, dev, f, avail)
    ensures var o := Process(q, m, dev, f); var es := Completed(q, m, dev, f, avail);
            && |es| == o.processed
            && (o.processed == 0 ==> o.writes == [])
            && (o.processed > 0 ==>
                  var last := |o.writes| - 1; var at := q.usedRing + 2;
                  && last >= 0 && o.writes[last] == IdxWrite(o.q)
                  && (forall p :: 0 <= p <= last ==> U16At(Replay(m, o.writes[..p]), at) == U16At(m, at))
                  && U16At(Replay(m, o.writes), at) == o.q.lastAvail
                  && InSlots(LayoutOf(q), Replay(m, o.writes[..last]), n, es))
  {
    hide Drain, Completed, BatchOffUsed, Replay, ElemAt, Slot, U16At, Splice, AvailIdx, Le16, InSlots, SlotsKept,
      Plus16, IdxWrite, Avoids;
    var d := Drain(q, m, dev, f, avail);
    BatchStores(q, m, dev, f, avail, n);
    ProcessUnfolds(q, m, dev, f);
    DrainCounts(q, m, dev, f, avail);
    if d.processed > 0 {
      var o := Process(q, m, dev, f);
      var at := q.usedRing + 2;
      var w := IdxWrite(o.q);
      IdxWriteAt(o.q, |m|);
      assert o.writes == d.writes + [w];
      var last := |o.writes| - 1;
      assert o.writes[..last] == d.writes;
      forall p | 0 <= p <= last
        ensures U16At(Replay(m, o.writes[..p]), at) == U16At(m, at)
      {
        PrefixAvoids(d.writes, w, p, at, at + 2);
        IndexKept(m, o.writes[..p], at);
      }
      ReplaySnoc(m, d.writes, w);
      U16Reads(Replay(m, d.writes), at, o.q.lastAvail);
    } else {
      NothingCompleted(q, m, dev, f, avail);
    }
  }

  /** So a used ring that lies in memory as a whole has every published element in place. */
  lemma {:induction false} AllPublishedInPlace(l: Layout, m: seq<byte>, n: nat, es: seq<Elem>)
    requires IndexLaid(l, |m|) && l.UsedEnd() <= |m| && InSlots(l, m, n, es)
    ensures forall p :: n <= p < n + |es| && n + |es| <= p + l.num ==> Held(m, SlotAt(l, Slot(p, l.num)), es[p - n])
  {
    hide ElemAt;
  }

  /**
   * And one that does not breaks the promise: with a single head available whose slot is past the end of memory, the
   * call stores nothing but the new index, over an element that is nowhere.
   */
  lemma {:induction false} PublishedWithoutElement<S>(q: Queue, m: seq<byte>, dev: S, f: Handler<S>, n: nat)
    requires q.ready && IndexLaid(LayoutOf(q), |m|) && q.lastAvail == n % POW16
    requires |m| < SlotAt(LayoutOf(q), Slot(n, q.num)) + 8
    requires AvailIdx(m, q) == Some(Plus16(q.lastAvail, 1)) && HeadAt(m, q).Some?
    requires Callback(q, m, dev, f, HeadAt(m, q).value).writes == []
    ensures var o := Process(q, m, dev, f);
            && o.processed == 1 && o.writes == [IdxWrite(Advance(q))]
            && U16At(Replay(m, o.writes), q.usedRing + 2) == (n + 1) % POW16
  {
    hide Walk, TableAt, Replay, Splice, Slot, Le32, Le16, AvailIdx, HeadAt, U16At, Plus16;
    var head, avail := HeadAt(m, q).value, Plus16(q.lastAvail, 1);
    var e := Callback(q, m, dev, f, head);
    ElemWriteAt(q, n, head, e.written, |m|);
    var c := CompleteOne(q, m, dev, f, head);
    assert c.writes == [];
    ReplayNothing(m);
    NextDiffers(q.lastAvail);
    assert Drain(Advance(q), m, c.dev, f, avail) == Outcome(Advance(q), c.dev, [], 0);
    assert Drain(q, m, dev, f, avail) == Outcome(Advance(q), c.dev, [], 1);
    ProcessUnfolds(q, m, dev, f);
    IdxWriteAt(Advance(q), |m|);
    var w := IdxWrite(Advance(q));
    assert [] + [w] == [w];
    ReplaySnoc(m, [], w);
    U16Reads(m, q.usedRing + 2, avail);
    Plus16Counts(n);
  }

  lemma NextDiffers(a: u16)
    ensures Plus16(a, 1) != a
  {
  }

  lemma IdxWriteAt(q: Queue, size: nat)
    requires IndexLaid(LayoutOf(q), size)
    ensures var w := IdxWrite(q); Stored(size, w) == [w] && w == Write(q.usedRing + 2, Le16(q.lastAvail))
  {
  }

  lemma PrefixAvoids(ws: seq<Write>, w: Write, p: nat, lo: int, hi: int)
    requires p <= |ws| && Avoids(ws, lo, hi)
    ensures Avoids((ws + [w])[..p], lo, hi)
  {
  }

  lemma {:induction false} IndexKept(m: seq<byte>, ws: seq<Write>, a: nat)
    requires a + 2 <= |m| && Avoids(ws, a, a + 2)
    ensures U16At(Replay(m, ws), a) == U16At(m, a)
  {
    hide Replay;
    ReplayAvoids(m, ws, a, a + 2);
  }

  lemma NothingCompleted<S>(q: Queue, m: seq<byte>, dev: S, f: Handler<S>, avail: u16)
    requires q.num > 0 && Drain(q, m, dev, f, avail).processed == 0
    ensures Drain(q, m, dev, f, avail).writes == []
  {
  }
}
