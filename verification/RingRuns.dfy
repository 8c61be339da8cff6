/** Whole runs of the virtqueue protocol, and `process` as one of them. */
module RingRuns {
  import opened Bytes
  import opened Memory
  import opened Virtq
  import opened Rings
  import opened RingProtocol

  /** The state after the events, or None if one of them was not allowed where it came. */
  ghost function Run<S>(f: Handler<S>, s0: Sys<S>, evs: seq<Event>): (r: Option<Sys<S>>)
    requires Laid(LayoutOf(s0.q), |s0.mem|)
    ensures r.Some? ==> LayoutOf(r.value.q) == LayoutOf(s0.q) && |r.value.mem| == |s0.mem|
    decreases |evs|
  {
    if evs == [] then Some(s0)
    else
      var n := |evs| - 1;
      match Run(f, s0, evs[..n])
      case None => None
      case Some(s) => if Enabled(f, s, evs[n]) then Some(Step(f, s, evs[n])) else None
  }

  lemma {:induction false} InitHolds<S>(s: Sys<S>)
    requires Init(s)
    ensures Inv(s)
  {
    hide ViewOf;
  }

  lemma {:induction false} RunKeeps<S(!new)>(f: Handler<S>, s0: Sys<S>, evs: seq<Event>)
    requires Inv(s0) && Confined(f)
    ensures Run(f, s0, evs).Some? ==> Inv(Run(f, s0, evs).value)
    decreases |evs|
  {
    hide Enabled, Step, Confined;
    if evs != [] && Run(f, s0, evs).Some? {
      var n := |evs| - 1;
      RunKeeps(f, s0, evs[..n]);
      StepKeeps(f, Run(f, s0, evs[..n]).value, evs[n]);
    }
  }

  /**
   * Over every run: the driver takes back exactly the heads it made available, each once and in order, with the
   * lengths the device reported; both 16-bit indices are the unbounded counts modulo 2^16; and at every point,
   * in the middle of `process` too, each element that the published index covers is in its slot.
   */
  lemma {:induction false} ExactlyOnceInOrder<S(!new)>(f: Handler<S>, s0: Sys<S>, evs: seq<Event>)
    requires Init(s0) && Confined(f) && Run(f, s0, evs).Some?
    ensures var s := Run(f, s0, evs).value; var l := LayoutOf(s.q); var v := ViewOf(s.mem, l);
            && |s.reclaimed| <= s.published <= |s.done| <= |s.added| <= |s.reclaimed| + l.num
            && (forall i :: 0 <= i < |s.done| ==> s.done[i].id == s.added[i])
            && (forall i :: 0 <= i < |s.reclaimed| ==> s.reclaimed[i] == s.done[i])
            && s.q.lastAvail == |s.done| % POW16
            && v.usedIdx == s.published % POW16 && (s.pc.Idle? ==> s.published == |s.done|)
            && (forall i :: |s.reclaimed| <= i < s.published ==> v.used[Slot(i, l.num)] == s.done[i])
  {
    hide ViewOf, Run, Slot;
    InitHolds(s0);
    RunKeeps(f, s0, evs);
  }

  /** The driver always finds what is published: its index differs from the device's exactly when something is owed. */
  lemma {:induction false} ReclaimEnabled<S(!new)>(f: Handler<S>, s: Sys<S>)
    requires Inv(s)
    ensures Enabled(f, s, Reclaim) <==> |s.reclaimed| < s.published
  {
    hide ViewOf, Slot, Ordered, AvailHolds, UsedHolds, PcOk;
    SameCount(|s.reclaimed|, s.published);
  }

  // ---- `process` without interference is a run of device steps ----

  /** Every chain of the batch keeps its buffers off the rings. */
  ghost predicate BatchClear<S>(q: Queue, m: seq<byte>, dev: S, f: Handler<S>, avail: u16)
    requires q.num > 0
    decreases Backlog(q, avail)
  {
    q.lastAvail == avail || HeadAt(m, q).None? ||
    (var head := HeadAt(m, q).value;
     var e := CompleteOne(q, m, dev, f, head);
     BacklogStep(q, avail);
     && ChainClear(LayoutOf(q), HeadChain(q, m, head))
     && BatchClear(Advance(q), Replay(m, e.writes), e.dev, f, avail))
  }

  lemma {:induction false} Extend<S>(f: Handler<S>, s0: Sys<S>, evs: seq<Event>, ev: Event)
    requires Laid(LayoutOf(s0.q), |s0.mem|) && Run(f, s0, evs).Some? && Enabled(f, Run(f, s0, evs).value, ev)
    ensures Run(f, s0, evs + [ev]) == Some(Step(f, Run(f, s0, evs).value, ev))
  {
    hide Enabled, Step;
    assert (evs + [ev])[..|evs|] == evs;
  }

  /** The remaining stores of a chain, one step each. */
  lemma {:induction false} StoresRun<S>(f: Handler<S>, s0: Sys<S>, evs: seq<Event>) returns (evs': seq<Event>)
    requires Laid(LayoutOf(s0.q), |s0.mem|) && Run(f, s0, evs).Some?
    requires var s := Run(f, s0, evs).value; s.pc.Working? && s.pc.next <= |s.pc.todo|
    ensures var s := Run(f, s0, evs).value; var todo, next := s.pc.todo, s.pc.next;
            forall m :: Replay(m, todo[..next]) == s.mem ==>
              Run(f, s0, evs') == Some(s.(mem := Replay(m, todo), pc := s.pc.(next := |todo|)))
    decreases var pc := Run(f, s0, evs).value.pc; |pc.todo| - pc.next
  {
    hide Replay, Splice, Run;
    var s := Run(f, s0, evs).value;
    var todo, next := s.pc.todo, s.pc.next;
    if next == |todo| {
      evs' := evs;
      assert todo[..next] == todo;
    } else {
      Extend(f, s0, evs, Store);
      evs' := StoresRun(f, s0, evs + [Store]);
      var w := todo[next];
      forall m | Replay(m, todo[..next]) == s.mem
        ensures Run(f, s0, evs') == Some(s.(mem := Replay(m, todo), pc := s.pc.(next := |todo|)))
      {
        ReplaySnoc(m, todo[..next], w);
        assert todo[..next] + [w] == todo[..next + 1];
      }
    }
  }

  /** One turn of the outer loop: load the head, run the callback, store the element. */
  lemma {:induction false} TurnRuns<S(!new)>(f: Handler<S>, s0: Sys<S>, evs: seq<Event>) returns (evs': seq<Event>)
    requires Laid(LayoutOf(s0.q), |s0.mem|) && Run(f, s0, evs).Some?
    requires Enabled(f, Run(f, s0, evs).value, Take) && Inv(Run(f, s0, evs).value)
    requires var s := Run(f, s0, evs).value; ChainClear(LayoutOf(s.q), HeadChain(s.q, s.mem, HeadAt(s.mem, s.q).value))
    ensures var s := Run(f, s0, evs).value;
            var e := CompleteOne(s.q, s.mem, s.dev, f, HeadAt(s.mem, s.q).value);
            Run(f, s0, evs') == Some(s.(mem := Replay(s.mem, e.writes), q := Advance(s.q), dev := e.dev,
                                        done := s.done + [Elem(HeadAt(s.mem, s.q).value, e.written)],
                                        pc := Polling(s.pc.avail, s.pc.completed + 1)))
  {
    hide Replay, Splice, Run, ElemWrite, HeadAt, ViewOf, Slot;
    var s := Run(f, s0, evs).value;
    var head := HeadAt(s.mem, s.q).value;
    var chain := HeadChain(s.q, s.mem, head);
    var e := f(s.dev, chain, s.mem);
    Extend(f, s0, evs, Take);
    Extend(f, s0, evs + [Take], Serve(chain, s.mem));
    ReplayNothing(s.mem);
    assert e.writes[..0] == [];
    evs' := StoresRun(f, s0, evs + [Take] + [Serve(chain, s.mem)]);
    Extend(f, s0, evs', Complete);
    ElemGoes(s.q, s.mem, |s.done|, head, e.written);
    ReplaySnoc(s.mem, e.writes, ElemWrite(s.q, head, e.written));
    evs' := evs' + [Complete];
  }

  lemma {:induction false} DrainRuns<S(!new)>(f: Handler<S>, s0: Sys<S>, evs: seq<Event>) returns (evs': seq<Event>)
    requires Confined(f) && Inv(s0) && Run(f, s0, evs).Some?
    requires var s := Run(f, s0, evs).value;
             s.pc.Polling? && s.q.num > 0 && BatchClear(s.q, s.mem, s.dev, f, s.pc.avail)
    ensures var s := Run(f, s0, evs).value; var o := Drain(s.q, s.mem, s.dev, f, s.pc.avail);
            && Run(f, s0, evs').Some?
            && var s' := Run(f, s0, evs').value;
               && s' == s.(mem := Replay(s.mem, o.writes), q := o.q, dev := o.dev, done := s'.done,
                           pc := Polling(s.pc.avail, s.pc.completed + o.processed))
               && o.q.lastAvail == s.pc.avail && |s'.done| == |s.done| + o.processed
    decreases var s := Run(f, s0, evs).value; Backlog(s.q, s.pc.avail)
  {
    hide Replay, Run, HeadAt, ViewOf, Slot, CompleteOne, Backlog;
    var s := Run(f, s0, evs).value;
    RunKeeps(f, s0, evs);
    DeviceSees(s.q, s.mem, |s.done|);
    if s.q.lastAvail == s.pc.avail {
      evs' := evs;
      ReplayNothing(s.mem);
    } else {
      var e := CompleteOne(s.q, s.mem, s.dev, f, HeadAt(s.mem, s.q).value);
      var mid := TurnRuns(f, s0, evs);
      BacklogStep(s.q, s.pc.avail);
      var s1 := Run(f, s0, mid).value;
      var o1 := Drain(s1.q, s1.mem, s1.dev, f, s.pc.avail);
      evs' := DrainRuns(f, s0, mid);
      ReplayConcat(s.mem, e.writes, o1.writes);
    }
  }

  /**
   * A `process` call on an idle queue is such a run: it leaves memory as its own list of stores says, and it
   * completes and publishes everything the driver had made available.
   */
  lemma {:induction false} ProcessIsRun<S(!new)>(f: Handler<S>, s: Sys<S>) returns (evs: seq<Event>)
    requires Confined(f) && Inv(s) && s.pc.Idle? && s.q.ready
    requires BatchClear(s.q, s.mem, s.dev, f, ViewOf(s.mem, LayoutOf(s.q)).availIdx)
    ensures var o := Process(s.q, s.mem, s.dev, f);
            && Run(f, s, evs).Some?
            && var s' := Run(f, s, evs).value;
               && s' == s.(mem := Replay(s.mem, o.writes), q := o.q, dev := o.dev,
                           done := s'.done, published := |s.added|)
               && Inv(s') && |s'.done| == |s.added| == |s.done| + o.processed
  {
    hide Replay, Splice, HeadAt, AvailIdx, ViewOf, Slot, IdxWrite, Drain, BatchClear;
    var l := LayoutOf(s.q);
    DeviceSees(s.q, s.mem, |s.done|);
    Extend(f, s, [], Begin);
    assert [] + [Begin] == [Begin];
    var avail := ViewOf(s.mem, l).availIdx;
    var o := Drain(s.q, s.mem, s.dev, f, avail);
    var mid := DrainRuns(f, s, [Begin]);
    var s1 := Run(f, s, mid).value;
    RunKeeps(f, s, mid);
    Extend(f, s, mid, Finish);
    evs := mid + [Finish];
    RunKeeps(f, s, evs);
    IdxGoes(s1.q, s1.mem);
    ReplaySnoc(s.mem, o.writes, IdxWrite(o.q));
    ProcessUnfolds(s.q, s.mem, s.dev, f);
    SameCount(|s1.done|, |s.added|);
  }

  /** The driver takes back everything published, one element at a time. */
  lemma {:induction false} ReclaimAll<S(!new)>(f: Handler<S>, s0: Sys<S>, evs: seq<Event>) returns (evs': seq<Event>)
    requires Confined(f) && Inv(s0) && Run(f, s0, evs).Some?
    ensures Run(f, s0, evs').Some?
    ensures var s, s' := Run(f, s0, evs).value, Run(f, s0, evs').value;
            Inv(s') && |s'.reclaimed| == s.published && s' == s.(reclaimed := s'.reclaimed)
    decreases var s := Run(f, s0, evs).value; s.published - |s.reclaimed|
  {
    hide Run, ViewOf, Slot;
    RunKeeps(f, s0, evs);
    var s := Run(f, s0, evs).value;
    evs' := evs;
    if |s.reclaimed| < s.published {
      ReclaimEnabled(f, s);
      Extend(f, s0, evs, Reclaim);
      evs' := ReclaimAll(f, s0, evs + [Reclaim]);
    }
  }

  /**
   * Progress: from every state of the protocol with an idle, ready queue, one `process` call and the driver's
   * reclaiming give back every head made available, in order, each with an element of its own.
   */
  lemma {:induction false} EverythingComesBack<S(!new)>(f: Handler<S>, s: Sys<S>) returns (evs: seq<Event>)
    requires Confined(f) && Inv(s) && s.pc.Idle? && s.q.ready
    requires BatchClear(s.q, s.mem, s.dev, f, ViewOf(s.mem, LayoutOf(s.q)).availIdx)
    ensures Run(f, s, evs).Some?
    ensures var s' := Run(f, s, evs).value;
            && s'.pc.Idle? && s'.added == s.added && |s'.reclaimed| == |s.added|
            && (forall i :: 0 <= i < |s.added| ==> s'.reclaimed[i].id == s.added[i])
  {
    hide Run, ViewOf, Slot, BatchClear, Process;
    var mid := ProcessIsRun(f, s);
    evs := ReclaimAll(f, s, mid);
  }

  /** Zeroed memory is a fresh queue, wherever the rings lie. */
  lemma ZeroedIsFresh<S>(q: Queue, size: nat, dev: S)
    requires Laid(LayoutOf(q), size) && q.lastAvail == 0
    ensures Init(Sys(Zeros(size), q, dev, Idle, None, [], [], 0, []))
  {
  }

  lemma SameCount(a: nat, b: nat)
    ensures a % POW16 == b % POW16 && a <= b < a + POW16 ==> a == b
  {
  }
}
