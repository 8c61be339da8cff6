/** The two rings of a split virtqueue as the driver and the device see them in guest memory. */
module Rings {
  import opened Bytes
  import opened Memory
  import opened Virtq
  import opened Arith

  /** Where the rings lie; `num` slots each. */
  datatype Layout = Layout(avail: nat, used: nat, num: nat) {
    function AvailEnd(): nat { avail + 4 + 2 * num }

    function UsedEnd(): nat { used + 4 + 8 * num }
  }

  function LayoutOf(q: Queue): Layout
  {
    Layout(q.availRing, q.usedRing, q.num)
  }

  /** Both rings are in memory and do not overlap; the ring size divides 2^16. */
  ghost predicate Laid(l: Layout, size: nat)
  {
    && l.num > 0 && POW16 % l.num == 0
    && l.AvailEnd() <= size < POW64 && l.UsedEnd() <= size
    && (l.AvailEnd() <= l.used || l.UsedEnd() <= l.avail)
  }

  /** A store that touches neither ring. */
  ghost predicate Clear(l: Layout, w: Write)
  {
    && (w.at + |w.data| <= l.avail || l.AvailEnd() <= w.at)
    && (w.at + |w.data| <= l.used || l.UsedEnd() <= w.at)
  }

  datatype Elem = Elem(id: u32, len: u32)

  /** What the rings hold. */
  datatype View = View(availIdx: u16, usedIdx: u16, avail: seq<u16>, used: seq<Elem>)

  function ElemAt(m: seq<byte>, a: nat): Elem
    requires a + 8 <= |m|
  {
    Elem(U32At(m, a), U32At(m, a + 4))
  }

  ghost function ViewOf(m: seq<byte>, l: Layout): (v: View)
    requires Laid(l, |m|)
    ensures |v.avail| == l.num && |v.used| == l.num
  {
    View(U16At(m, l.avail + 2), U16At(m, l.used + 2),
         seq<u16>(l.num, k requires 0 <= k < l.num => U16At(m, l.avail + 4 + 2 * k)),
         seq<Elem>(l.num, k requires 0 <= k < l.num => ElemAt(m, l.used + 4 + 8 * k)))
  }

  /** A store outside both rings changes neither. */
  lemma {:induction false} StoreElsewhere(m: seq<byte>, l: Layout, w: Write)
    requires Laid(l, |m|) && Clear(l, w)
    ensures ViewOf(Splice(m, w.at, w.data), l) == ViewOf(m, l)
  {
    hide U16At, Splice, ElemAt;
    UsedKept(m, l, w.at, w.data);
    AvailKept(m, l, w.at, w.data);
    U16Kept(m, w.at, w.data, l.avail + 2);
    U16Kept(m, w.at, w.data, l.used + 2);
  }

  lemma U16Kept(m: seq<byte>, at: nat, data: seq<byte>, a: nat)
    requires a + 2 <= |m|
    requires at + |data| <= a || a + 2 <= at
    ensures U16At(Splice(m, at, data), a) == U16At(m, a)
  {
  }

  lemma U16Reads(m: seq<byte>, a: nat, v: u16)
    requires a + 2 <= |m|
    ensures U16At(Splice(m, a, Le16(v)), a) == v
  {
  }

  /** A store leaves the used elements it does not touch as they were. */
  lemma {:induction false} UsedKept(m: seq<byte>, l: Layout, at: nat, data: seq<byte>)
    requires Laid(l, |m|)
    requires at + |data| <= l.used + 4 || l.UsedEnd() <= at
    ensures ViewOf(Splice(m, at, data), l).used == ViewOf(m, l).used
  {
    hide ElemAt, Splice;
    forall j | 0 <= j < l.num
      ensures ElemAt(Splice(m, at, data), l.used + 4 + 8 * j) == ElemAt(m, l.used + 4 + 8 * j)
    {
      ElemKept(m, at, data, l.used + 4 + 8 * j);
    }
  }

  lemma {:induction false} AvailKept(m: seq<byte>, l: Layout, at: nat, data: seq<byte>)
    requires Laid(l, |m|)
    requires at + |data| <= l.avail + 4 || l.AvailEnd() <= at
    ensures ViewOf(Splice(m, at, data), l).avail == ViewOf(m, l).avail
  {
    hide U16At, Splice;
    forall j | 0 <= j < l.num
      ensures U16At(Splice(m, at, data), l.avail + 4 + 2 * j) == U16At(m, l.avail + 4 + 2 * j)
    {
      U16Kept(m, at, data, l.avail + 4 + 2 * j);
    }
  }

  lemma {:induction false} StoreAvailSlot(m: seq<byte>, l: Layout, k: nat, head: u16)
    requires Laid(l, |m|) && k < l.num
    ensures var v := ViewOf(m, l);
            ViewOf(Splice(m, l.avail + 4 + 2 * k, Le16(head)), l) == v.(avail := v.avail[k := head])
  {
    hide U16At, Splice, ElemAt, Le16;
    var at := l.avail + 4 + 2 * k;
    var m' := Splice(m, at, Le16(head));
    UsedKept(m, l, at, Le16(head));
    U16Kept(m, at, Le16(head), l.avail + 2);
    U16Kept(m, at, Le16(head), l.used + 2);
    U16Reads(m, at, head);
    forall j | 0 <= j < l.num && j != k
      ensures U16At(m', l.avail + 4 + 2 * j) == U16At(m, l.avail + 4 + 2 * j)
    {
      U16Kept(m, at, Le16(head), l.avail + 4 + 2 * j);
    }
    assert ViewOf(m', l).avail == ViewOf(m, l).avail[k := head];
  }

  lemma {:induction false} StoreAvailIdx(m: seq<byte>, l: Layout, idx: u16)
    requires Laid(l, |m|)
    ensures ViewOf(Splice(m, l.avail + 2, Le16(idx)), l) == ViewOf(m, l).(availIdx := idx)
  {
    hide U16At, Splice, ElemAt, Le16;
    UsedKept(m, l, l.avail + 2, Le16(idx));
    AvailKept(m, l, l.avail + 2, Le16(idx));
    U16Reads(m, l.avail + 2, idx);
    U16Kept(m, l.avail + 2, Le16(idx), l.used + 2);
  }

  lemma {:induction false} StoreUsedSlot(m: seq<byte>, l: Layout, k: nat, e: Elem)
    requires Laid(l, |m|) && k < l.num
    ensures var v := ViewOf(m, l);
            ViewOf(Splice(m, l.used + 4 + 8 * k, Le32(e.id) + Le32(e.len)), l) == v.(used := v.used[k := e])
  {
    hide U16At, Splice, ElemAt, Le32;
    var at, data := l.used + 4 + 8 * k, Le32(e.id) + Le32(e.len);
    var m' := Splice(m, at, data);
    AvailKept(m, l, at, data);
    U16Kept(m, at, data, l.avail + 2);
    U16Kept(m, at, data, l.used + 2);
    ElemReads(m, at, e);
    forall j | 0 <= j < l.num && j != k
      ensures ElemAt(m', l.used + 4 + 8 * j) == ElemAt(m, l.used + 4 + 8 * j)
    {
      ElemKept(m, at, data, l.used + 4 + 8 * j);
    }
    assert ViewOf(m', l).used == ViewOf(m, l).used[k := e];
  }

  lemma ElemKept(m: seq<byte>, at: nat, data: seq<byte>, a: nat)
    requires a + 8 <= |m|
    requires at + |data| <= a || a + 8 <= at
    ensures ElemAt(Splice(m, at, data), a) == ElemAt(m, a)
  {
  }

  lemma {:induction false} ElemReads(m: seq<byte>, a: nat, e: Elem)
    requires a + 8 <= |m|
    ensures ElemAt(Splice(m, a, Le32(e.id) + Le32(e.len)), a) == e
  {
    var m' := Splice(m, a, Le32(e.id) + Le32(e.len));
    assert U32At(m', a) == U32At(Le32(e.id), 0);
    assert U32At(m', a + 4) == U32At(Le32(e.len), 0);
  }

  lemma {:induction false} StoreUsedIdx(m: seq<byte>, l: Layout, idx: u16)
    requires Laid(l, |m|)
    ensures ViewOf(Splice(m, l.used + 2, Le16(idx)), l) == ViewOf(m, l).(usedIdx := idx)
  {
    hide U16At, Splice, ElemAt, Le16;
    UsedKept(m, l, l.used + 2, Le16(idx));
    AvailKept(m, l, l.used + 2, Le16(idx));
    U16Reads(m, l.used + 2, idx);
    U16Kept(m, l.used + 2, Le16(idx), l.avail + 2);
  }

  // ---- Slots of absolute positions ----

  /** The slot that the `i`-th entry ever made occupies. */
  function Slot(i: nat, num: nat): (k: nat)
    requires num > 0
    ensures k < num
  {
    i % num
  }

  /** Entries less than a ring apart do not share a slot. */
  lemma {:induction false} SlotsDiffer(i: nat, j: nat, num: nat)
    requires num > 0 && i < j < i + num
    ensures Slot(i, num) != Slot(j, num)
  {
    var a, b := i / num, j / num;
    assert i == a * num + i % num && j == b * num + j % num;
    assert (b - a) * num == (j - i) - (j % num - i % num);
    NoMultipleBetween(b - a, num);
  }

  /**
   * A 16-bit index names the right slot for every absolute position, also after it has wrapped, exactly when the
   * ring size divides 2^16.
   */
  lemma {:induction false} WrappedSlot(num: u16)
    requires num > 0
    ensures POW16 % num == 0 <==> forall i: nat :: Slot(i % POW16, num) == Slot(i, num)
  {
    if POW16 % num == 0 {
      forall i: nat
        ensures Slot(i % POW16, num) == Slot(i, num)
      {
        WrappedSlotAt(i, num);
      }
    } else {
      assert Slot(POW16 % POW16, num) == 0 % num;
      assert Slot(POW16, num) != 0;
    }
  }

  lemma {:induction false} WrappedSlotAt(i: nat, num: nat)
    requires num > 0 && POW16 % num == 0
    ensures Slot(i % POW16, num) == Slot(i, num)
  {
    var c, r := i / POW16, i % POW16;
    var per := POW16 / num;
    assert i == c * POW16 + r;
    assert POW16 == per * num;
    assert i == (c * per) * num + r by { MulAssoc(c, per, num); }
    ModShift(r, c * per, num);
  }
}
