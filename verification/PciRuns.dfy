/** Interrupts and reset over whole runs of the virtio-pci transport. */
module PciRuns {
  import opened Bytes
  import opened Le
  import opened PciModel

  // ---- Reading a trace ----

  function Signals(t: seq<Event>, v: nat): (n: nat)
  {
    if t == [] then 0
    else Signals(t[..|t| - 1], v) + if IsSignal(t[|t| - 1], v) then 1 else 0
  }

  function Raises(t: seq<Event>, v: nat): (n: nat)
  {
    if t == [] then 0
    else Raises(t[..|t| - 1], v) + if t[|t| - 1] == Raise(v) then 1 else 0
  }

  predicate IsSignal(e: Event, v: nat) { e.Signal? && e.vector == v }

  /** Vector `v` was raised, and neither signalled nor reset since. */
  predicate Debt(t: seq<Event>, v: nat)
  {
    if t == [] then false
    else
      var e := t[|t| - 1];
      e == Raise(v) || (e != Reset && !IsSignal(e, v) && Debt(t[..|t| - 1], v))
  }

  /** The last level the current sink was given; low if none. */
  predicate Line(t: seq<Event>)
  {
    if t == [] then false
    else
      match t[|t| - 1]
      case Level(high) => high
      case Swap => false
      case _ => Line(t[..|t| - 1])
  }

  lemma {:induction false} Snoc(t: seq<Event>, e: Event, v: nat)
    ensures Signals(t + [e], v) == Signals(t, v) + if IsSignal(e, v) then 1 else 0
    ensures Raises(t + [e], v) == Raises(t, v) + if e == Raise(v) then 1 else 0
    ensures Debt(t + [e], v) <==> e == Raise(v) || (e != Reset && !IsSignal(e, v) && Debt(t, v))
  {
    assert (t + [e])[..|t|] == t;
  }

  lemma {:induction false} Snoc2(t: seq<Event>, e: Event, f: Event, v: nat)
    ensures t + [e, f] == (t + [e]) + [f]
    ensures Signals(t + [e, f], v) == Signals(t + [e], v) + if IsSignal(f, v) then 1 else 0
    ensures Raises(t + [e, f], v) == Raises(t + [e], v) + if f == Raise(v) then 1 else 0
    ensures Debt(t + [e, f], v) <==> f == Raise(v) || (f != Reset && !IsSignal(f, v) && Debt(t + [e], v))
  {
    assert t + [e, f] == (t + [e]) + [f];
    Snoc(t + [e], f, v);
  }

  // ---- The MSI-X ledger ----

  /** When delivery is possible at all, every pending vector is itself masked. */
  ghost predicate Quiet(d: Pci)
    requires d.Shaped()
  {
    d.Enabled() && !d.FunctionMasked() ==> forall v :: 0 <= v < |d.table| && d.pending[v] ==> d.table[v].Masked()
  }

  function Ones(b: bool): (n: nat) { if b then 1 else 0 }

  /** Nothing was invented for `v`, and it is pending exactly when an interrupt is owed on it. */
  ghost predicate Ledger(d: Pci, t: seq<Event>, v: nat)
    requires d.Shaped() && v < |d.table|
  {
    && Signals(t, v) + Ones(d.pending[v]) <= Raises(t, v)
    && (d.pending[v] <==> Debt(t, v))
  }

  lemma {:induction false} SignalMsixKeeps(d: Pci, t: seq<Event>, vector: u16, v: nat)
    requires d.Shaped() && d.Enabled() && Quiet(d) && v < |d.table| && Ledger(d, t, v)
    ensures var o := SignalMsix(d, vector); Ledger(o.dev, t + o.events, v) && Quiet(o.dev)
  {
    hide Signals, Raises, Debt;
    var o := SignalMsix(d, vector);
    if o.events == [] {
      assert t + [] == t;
    } else {
      Snoc(t, Raise(vector), v);
      if |o.events| == 2 {
        Snoc2(t, Raise(vector), SignalOf(d, vector), v);
      }
    }
  }

  /** The delivery loop pays what it can: after `n` rounds none of the first `n` vectors is owed. */
  lemma {:induction false} DeliverToKeeps(d: Pci, t: seq<Event>, n: nat, v: nat)
    requires d.Shaped() && n <= |d.table| && v < |d.table| && Ledger(d, t, v)
    ensures var o := DeliverTo(d, n);
            && Ledger(o.dev, t + o.events, v)
            && (v < n ==> !Owed(o.dev, v))
            && (v >= n ==> o.dev.pending[v] == d.pending[v])
  {
    hide Signals, Raises, Debt;
    if n == 0 {
      assert t + [] == t;
    } else {
      DeliverToKeeps(d, t, n - 1, v);
      var o := DeliverTo(d, n - 1);
      if Owed(o.dev, n - 1) {
        assert t + (o.events + [SignalOf(d, n - 1)]) == (t + o.events) + [SignalOf(d, n - 1)];
        Snoc(t + o.events, SignalOf(d, n - 1), v);
      }
    }
  }

  lemma {:induction false} DeliverClears(d: Pci, n: nat, v: nat)
    requires d.Shaped() && n <= |d.table| && v < |d.table|
    ensures var o := DeliverTo(d, n);
            (v < n ==> !Owed(o.dev, v)) && (v >= n ==> o.dev.pending[v] == d.pending[v])
  {
    if n > 0 {
      DeliverClears(d, n - 1, v);
    }
  }

  /** Delivery needs no quiet device, and leaves one. */
  lemma {:induction false} DeliverKeeps(d: Pci, t: seq<Event>, v: nat)
    requires d.Shaped() && v < |d.table| && Ledger(d, t, v)
    ensures var o := Deliver(d); Ledger(o.dev, t + o.events, v)
  {
    hide Ledger, DeliverTo;
    assert t + [] == t;
    DeliverToKeeps(d, t, |d.table|, v);
  }

  lemma {:induction false} DeliverQuiet(d: Pci)
    requires d.Shaped()
    ensures Quiet(Deliver(d).dev) && Deliver(d).dev.table == d.table
  {
    hide DeliverTo;
    var o := Deliver(d);
    if d.Enabled() && !d.FunctionMasked() {
      assert o.dev == d.(pending := o.dev.pending);
      forall v | 0 <= v < |d.table|
        ensures o.dev.pending[v] ==> o.dev.table[v].Masked()
      {
        DeliverClears(d, |d.table|, v);
      }
    }
  }

  lemma {:induction false} ResetKeeps(d: Pci, t: seq<Event>, v: nat)
    requires d.Shaped() && v < |d.table| && Ledger(d, t, v)
    ensures var o := ResetDev(d); Ledger(o.dev, t + o.events, v) && Quiet(o.dev)
  {
    hide Signals, Raises, Debt;
    Snoc(t, Level(false), v);
    Snoc2(t, Level(false), Reset, v);
  }

  lemma {:induction false} CommonKeeps(d: Pci, t: seq<Event>, offset: nat, value: u64, v: nat)
    requires d.Shaped() && Quiet(d) && v < |d.table| && Ledger(d, t, v)
    ensures var o := CommonWrite(d, offset, value);
            o.dev.table == d.table && Ledger(o.dev, t + o.events, v) && Quiet(o.dev)
  {
    hide Signals, Raises, Debt, QueueWrite, ResetDev;
    assert t + [] == t;
    var d' := d.(status := value % 0x100);
    ResetKeeps(d', t, v);
    ResetTable(d');
  }

  lemma ResetTable(d: Pci)
    requires d.Shaped()
    ensures ResetDev(d).dev.table == d.table
  {
  }

  lemma {:induction false} LevelKeeps(d: Pci, t: seq<Event>, high: bool, isr: byte, v: nat)
    requires d.Shaped() && Quiet(d) && v < |d.table| && Ledger(d, t, v)
    ensures var d' := d.(isr := isr); Ledger(d', t + [Level(high)], v) && Quiet(d')
  {
    Snoc(t, Level(high), v);
  }

  lemma {:induction false} NotifyKeeps(d: Pci, t: seq<Event>, queue: nat, a: Answer, v: nat)
    requires d.Shaped() && Quiet(d) && v < |d.table| && Ledger(d, t, v)
    ensures var o := Notify(d, queue, a);
            o.dev.table == d.table && Ledger(o.dev, t + o.events, v) && Quiet(o.dev)
  {
    hide Signals, Raises, Debt;
    assert t + [] == t;
    if queue < |d.queues| && a.wants {
      var d' := d.(queues := d.queues[queue := a.queue]);
      if d.Enabled() {
        SignalMsixKeeps(d', t, d'.queueVectors[queue], v);
      } else {
        LevelKeeps(d', t, true, d.isr - d.isr % 2 + 1, v);
      }
    }
  }

  lemma {:induction false} TableKeeps(d: Pci, t: seq<Event>, rel: nat, value: u64, v: nat)
    requires d.Shaped() && Quiet(d) && v < |d.table| && Ledger(d, t, v)
    ensures var o := TableWrite(d, rel, value);
            |o.dev.table| == |d.table| && Ledger(o.dev, t + o.events, v) && Quiet(o.dev)
  {
    hide Signals, Raises, Debt, Deliver, WithLow, WithHigh;
    assert t + [] == t;
    var d' := EntrySet(d, rel, value);
    if rel % 16 == 12 {
      DeliverKeeps(d', t, v);
      DeliverQuiet(d');
    }
  }

  lemma {:induction false} ConfigKeeps(d: Pci, t: seq<Event>, offset: u64, data: seq<byte>, v: nat)
    requires d.Shaped() && v < |d.table| && Ledger(d, t, v)
    ensures var o := ConfigWrite(d, offset, data);
            o.dev.table == d.table && Ledger(o.dev, t + o.events, v) && Quiet(o.dev)
  {
    hide Signals, Raises, Debt, Deliver, WriteBytes, AlignBar;
    var d' := d.(config := AlignBar(WriteBytes(d.config, offset, data)));
    DeliverKeeps(d', t, v);
    DeliverQuiet(d');
  }

  lemma {:induction false} StepKeeps(d: Pci, t: seq<Event>, op: Op, v: nat)
    requires d.Shaped() && Quiet(d) && v < |d.table| && Ledger(d, t, v)
    ensures var o := Step(d, op); |o.dev.table| == |d.table| && Ledger(o.dev, t + o.events, v) && Quiet(o.dev)
  {
    hide Signals, Raises, Debt, CommonWrite, Notify, TableWrite, ConfigWrite, Taken;
    assert t + [] == t;
    match op
    case WriteConfig(offset, data) =>
      ConfigKeeps(d, t, offset, data, v);
    case WriteBar(offset, data, a) =>
      if offset < COMMON_END {
        CommonKeeps(d, t, offset, Taken(data), v);
      } else if NOTIFY_OFFSET <= offset < NOTIFY_END {
        NotifyKeeps(d, t, Taken(data), a, v);
      } else if TABLE_OFFSET <= offset < TABLE_OFFSET + 16 * |d.table| {
        TableKeeps(d, t, offset - TABLE_OFFSET, Taken(data), v);
      }
    case ReadBar(offset) =>
      LevelKeeps(d, t, false, 0, v);
    case SwapSink =>
      Snoc(t, Swap, v);
  }

  lemma {:induction false} RunKeeps(d: Pci, ops: seq<Op>, v: nat)
    requires d.Shaped() && Quiet(d) && v < |d.table| && !d.pending[v]
    ensures var o := Run(d, ops); |o.dev.table| == |d.table| && Ledger(o.dev, o.events, v) && Quiet(o.dev)
    decreases |ops|
  {
    hide Step, Quiet;
    if ops != [] {
      RunKeeps(d, ops[..|ops| - 1], v);
      var o := Run(d, ops[..|ops| - 1]);
      StepKeeps(o.dev, o.events, ops[|ops| - 1], v);
    }
  }

  // ---- No interrupt lost, none invented ----

  ghost predicate Since(t: seq<Event>, k: nat, v: nat)
  {
    exists j :: k < j < |t| && IsSignal(t[j], v)
  }

  ghost predicate ResetSince(t: seq<Event>, k: nat)
  {
    exists j :: k < j < |t| && t[j] == Reset
  }

  lemma {:induction false} DebtFrom(t: seq<Event>, k: nat, v: nat)
    requires k < |t| && t[k] == Raise(v) && !Since(t, k, v) && !ResetSince(t, k)
    ensures Debt(t, v)
  {
    if k < |t| - 1 {
      SinceStep(t, k, v);
      DebtFrom(t[..|t| - 1], k, v);
    }
  }

  lemma {:induction false} DebtTo(t: seq<Event>, v: nat) returns (k: nat)
    requires Debt(t, v)
    ensures k < |t| && t[k] == Raise(v) && !Since(t, k, v) && !ResetSince(t, k)
  {
    k := |t| - 1;
    if t[k] != Raise(v) {
      k := DebtTo(t[..|t| - 1], v);
      SinceStep(t, k, v);
    }
  }

  lemma {:induction false} SinceStep(t: seq<Event>, k: nat, v: nat)
    requires t != [] && k < |t| - 1
    ensures var p, e := t[..|t| - 1], t[|t| - 1];
            && (Since(t, k, v) <==> Since(p, k, v) || IsSignal(e, v))
            && (ResetSince(t, k) <==> ResetSince(p, k) || e == Reset)
  {
    var p, e := t[..|t| - 1], t[|t| - 1];
    if j :| k < j < |p| && IsSignal(p[j], v) {
      assert IsSignal(t[j], v);
    }
    if j :| k < j < |p| && p[j] == Reset {
      assert t[j] == Reset;
    }
    assert IsSignal(e, v) ==> IsSignal(t[|t| - 1], v);
    assert e == Reset ==> t[|t| - 1] == Reset;
    if j :| k < j < |t| && IsSignal(t[j], v) {
      assert j < |p| ==> IsSignal(p[j], v);
    }
    if j :| k < j < |t| && t[j] == Reset {
      assert j < |p| ==> p[j] == Reset;
    }
  }

  /**
   * Over every run of a new device, for every vector: signals and the pending bit never exceed raises; a raise that no
   * reset follows is still pending or was signalled afterwards; a pending bit stands for such an unsignalled raise;
   * and whenever delivery is possible every pending vector is masked.
   */
  lemma {:induction false} NoneLostNoneInvented(config: seq<byte>, table: seq<MsixEntry>, numQueues: nat,
                                                ops: seq<Op>, v: nat)
    requires |config| == 256 && v < |table|
    ensures var o := Run(Fresh(config, table, numQueues), ops);
            && |o.dev.table| == |table|
            && Signals(o.events, v) + Ones(o.dev.pending[v]) <= Raises(o.events, v)
            && (forall k :: 0 <= k < |o.events| && o.events[k] == Raise(v) && !ResetSince(o.events, k)
                            ==> o.dev.pending[v] || Since(o.events, k, v))
            && (o.dev.pending[v] ==>
                  exists k :: 0 <= k < |o.events| && o.events[k] == Raise(v)
                              && !Since(o.events, k, v) && !ResetSince(o.events, k))
            && Quiet(o.dev)
  {
    hide Run, Since, ResetSince;
    var d := Fresh(config, table, numQueues);
    RunKeeps(d, ops, v);
    var t := Run(d, ops).events;
    forall k: nat | k < |t| && t[k] == Raise(v) && !Since(t, k, v) && !ResetSince(t, k)
      ensures Debt(t, v)
    {
      DebtFrom(t, k, v);
    }
    if Debt(t, v) {
      var k := DebtTo(t, v);
    }
  }

  lemma {:induction false} CommonEvents(d: Pci, offset: nat, value: u64)
    requires d.Shaped()
    ensures CommonWrite(d, offset, value).events in {[], [Level(false), Reset]}
  {
    hide QueueWrite;
  }

  lemma {:induction false} DeliverSignals(d: Pci, n: nat)
    requires d.Shaped() && n <= |d.table|
    ensures forall e :: e in DeliverTo(d, n).events ==> Allowed(d, e)
  {
    if n > 0 {
      DeliverSignals(d, n - 1);
    }
  }

  /** `e` sends the message of an unmasked vector. */
  predicate Allowed(d: Pci, e: Event)
  {
    e.Signal? && e.vector < |d.table| && e == SignalOf(d, e.vector) && !d.table[e.vector].Masked()
  }

  lemma {:induction false} DeliverAllowed(d: Pci, e: Event)
    requires d.Shaped() && e in Deliver(d).events
    ensures var d' := Deliver(d).dev; Allowed(d', e) && d'.Enabled() && !d'.FunctionMasked()
  {
    DeliverSignals(d, |d.table|);
  }

  lemma {:induction false} TableAllowed(d: Pci, rel: nat, value: u64, e: Event)
    requires d.Shaped() && e in TableWrite(d, rel, value).events
    ensures var d' := TableWrite(d, rel, value).dev; Allowed(d', e) && d'.Enabled() && !d'.FunctionMasked()
  {
    hide Deliver, EntryWrite, Allowed;
    var d' := EntrySet(d, rel, value);
    DeliverAllowed(d', e);
  }

  lemma NotifyRaises(d: Pci, queue: nat, a: Answer, v: nat)
    requires d.Shaped()
    ensures Raise(v) in Notify(d, queue, a).events <==>
            && a.wants && d.Enabled()
            && queue < |d.queues| && d.queueVectors[queue] == v < |d.table| && v != NO_VECTOR
  {
  }

  lemma NotifyAllowed(d: Pci, queue: nat, a: Answer, e: Event)
    requires d.Shaped() && e in Notify(d, queue, a).events && e.Signal?
    ensures var d' := Notify(d, queue, a).dev; Allowed(d', e) && d'.Enabled() && !d'.FunctionMasked()
  {
  }

  /** A vector is raised exactly by a notification its back end answers with an interrupt, while MSI-X is enabled. */
  lemma {:induction false} RaisedWhen(d: Pci, op: Op, v: nat)
    requires d.Shaped()
    ensures Raise(v) in Step(d, op).events <==>
            && op.WriteBar? && NOTIFY_OFFSET <= op.offset < NOTIFY_END && op.answer.wants
            && d.Enabled()
            && Taken(op.data) < |d.queues| && d.queueVectors[Taken(op.data)] == v < |d.table| && v != NO_VECTOR
  {
    hide Taken, CommonWrite, Notify, TableWrite, Deliver, WriteBytes, AlignBar;
    match op
    case WriteConfig(offset, data) =>
      if Raise(v) in Step(d, op).events {
        DeliverAllowed(d.(config := AlignBar(WriteBytes(d.config, offset, data))), Raise(v));
      }
    case WriteBar(offset, data, a) =>
      if offset < COMMON_END {
        CommonEvents(d, offset, Taken(data));
      } else if NOTIFY_OFFSET <= offset < NOTIFY_END {
        NotifyRaises(d, Taken(data), a, v);
      } else if TABLE_OFFSET <= offset < TABLE_OFFSET + 16 * |d.table| && Raise(v) in Step(d, op).events {
        TableAllowed(d, offset - TABLE_OFFSET, Taken(data), Raise(v));
      }
    case _ =>
  }

  /** A message is only sent with MSI-X on and the vector unmasked, and it is what the table holds after the step. */
  lemma {:induction false} SignalsAllowed(d: Pci, op: Op, e: Event)
    requires d.Shaped() && e in Step(d, op).events && e.Signal?
    ensures var d' := Step(d, op).dev; Allowed(d', e) && d'.Enabled() && !d'.FunctionMasked()
  {
    hide Taken, CommonWrite, Notify, TableWrite, Deliver, WriteBytes, AlignBar, Allowed;
    match op
    case WriteConfig(offset, data) =>
      DeliverAllowed(d.(config := AlignBar(WriteBytes(d.config, offset, data))), e);
    case WriteBar(offset, data, a) =>
      if offset < COMMON_END {
        CommonEvents(d, offset, Taken(data));
      } else if NOTIFY_OFFSET <= offset < NOTIFY_END {
        NotifyAllowed(d, Taken(data), a, e);
      } else {
        TableAllowed(d, offset - TABLE_OFFSET, Taken(data), e);
      }
    case _ =>
  }

  // ---- The INTx line ----

  /** Every new sink is installed while no interrupt status is set. */
  predicate SwapsClear(d: Pci, ops: seq<Op>)
    requires d.Shaped()
    decreases |ops|
  {
    ops == []
    || (SwapsClear(d, ops[..|ops| - 1])
        && (ops[|ops| - 1].SwapSink? ==> Run(d, ops[..|ops| - 1]).dev.isr == 0))
  }

  lemma {:induction false} LineKept(t: seq<Event>, more: seq<Event>)
    requires forall e :: e in more ==> !e.Level? && !e.Swap?
    ensures Line(t + more) == Line(t)
    decreases |more|
  {
    if more == [] {
      assert t + more == t;
    } else {
      LineKept(t, more[..|more| - 1]);
      assert (t + more)[..|t + more| - 1] == t + more[..|more| - 1];
      assert more[|more| - 1] in more;
    }
  }

  lemma {:induction false} LineLast(t: seq<Event>, e: Event)
    ensures Line(t + [e]) == (match e case Level(high) => high case Swap => false case _ => Line(t))
  {
    assert (t + [e])[..|t|] == t;
  }

  lemma {:induction false} DeliverLine(d: Pci, t: seq<Event>)
    requires d.Shaped() && Line(t) == (d.isr != 0)
    ensures var o := Deliver(d); Line(t + o.events) == (o.dev.isr != 0)
  {
    DeliverSignals(d, |d.table|);
    LineKept(t, Deliver(d).events);
  }

  lemma {:induction false} NotifyLine(d: Pci, t: seq<Event>, queue: nat, a: Answer)
    requires d.Shaped() && Line(t) == (d.isr != 0)
    ensures var o := Notify(d, queue, a); Line(t + o.events) == (o.dev.isr != 0)
  {
    hide Line;
    var o := Notify(d, queue, a);
    if o.events == [Level(true)] {
      LineLast(t, Level(true));
    } else {
      LineKept(t, o.events);
    }
  }

  lemma {:induction false} CommonLine(d: Pci, t: seq<Event>, offset: nat, value: u64)
    requires d.Shaped() && Line(t) == (d.isr != 0)
    ensures var o := CommonWrite(d, offset, value); Line(t + o.events) == (o.dev.isr != 0)
  {
    hide Line, QueueWrite;
    var o := CommonWrite(d, offset, value);
    assert t + [] == t;
    assert t + [Level(false), Reset] == (t + [Level(false)]) + [Reset];
    LineLast(t, Level(false));
    LineLast(t + [Level(false)], Reset);
  }

  lemma {:induction false} StepLine(d: Pci, t: seq<Event>, op: Op)
    requires d.Shaped() && Line(t) == (d.isr != 0)
    ensures var o := Step(d, op);
            Line(t + o.events) == (o.dev.isr != 0) <==> (op.SwapSink? ==> d.isr == 0)
  {
    hide Line, CommonWrite, Notify, Taken, Deliver, WriteBytes, AlignBar, EntryWrite;
    assert t + [] == t;
    match op
    case WriteConfig(offset, data) =>
      DeliverLine(d.(config := AlignBar(WriteBytes(d.config, offset, data))), t);
    case WriteBar(offset, data, a) =>
      if offset < COMMON_END {
        CommonLine(d, t, offset, Taken(data));
      } else if NOTIFY_OFFSET <= offset < NOTIFY_END {
        NotifyLine(d, t, Taken(data), a);
      } else if TABLE_OFFSET <= offset < TABLE_OFFSET + 16 * |d.table| {
        TableLine(d, t, offset - TABLE_OFFSET, Taken(data));
      }
    case ReadBar(offset) =>
      LineLast(t, Level(false));
    case SwapSink =>
      LineLast(t, Swap);
  }

  lemma {:induction false} TableLine(d: Pci, t: seq<Event>, rel: nat, value: u64)
    requires d.Shaped() && Line(t) == (d.isr != 0)
    ensures var o := TableWrite(d, rel, value); Line(t + o.events) == (o.dev.isr != 0)
  {
    hide Line, Deliver, EntryWrite;
    assert t + [] == t;
    var d' := EntrySet(d, rel, value);
    DeliverLine(d', t);
  }

  /**
   * In every state of every run the INTx line is high exactly when the interrupt status is non-zero, provided new
   * sinks are installed while it is zero.
   */
  lemma {:induction false} LineFollowsIsr(config: seq<byte>, table: seq<MsixEntry>, numQueues: nat, ops: seq<Op>)
    requires |config| == 256 && SwapsClear(Fresh(config, table, numQueues), ops)
    ensures var o := Run(Fresh(config, table, numQueues), ops); Line(o.events) <==> o.dev.isr != 0
    decreases |ops|
  {
    hide Line, Step;
    if ops == [] {
      assert !Line([]) by {
        NoLine();
      }
    } else {
      LineFollowsIsr(config, table, numQueues, ops[..|ops| - 1]);
      var o := Run(Fresh(config, table, numQueues), ops[..|ops| - 1]);
      StepLine(o.dev, o.events, ops[|ops| - 1]);
    }
  }

  lemma NoLine()
    ensures !Line([])
  {
  }

  /** With MSI-X off a wanted interrupt shows in the interrupt status and on the line; with it on it does neither. */
  lemma {:induction false} InterruptReported(d: Pci, t: seq<Event>, offset: u64, data: seq<byte>, a: Answer)
    requires d.Shaped() && NOTIFY_OFFSET <= offset < NOTIFY_END && Taken(data) < |d.queues| && a.wants
    ensures var o := Step(d, WriteBar(offset, data, a));
            && (!d.Enabled() ==> o.dev.isr % 2 == 1 && o.dev.isr / 2 == d.isr / 2 && Line(t + o.events))
            && (d.Enabled() ==> o.dev.isr == d.isr && Line(t + o.events) == Line(t))
  {
    hide Line, Taken;
    var o := Step(d, WriteBar(offset, data, a));
    if d.Enabled() {
      LineKept(t, o.events);
    } else {
      LineLast(t, Level(true));
    }
  }

  /**
   * Which wanted interrupts reach the guest at all: with MSI-X on and no valid vector for the queue there is neither a
   * vector raised nor a fallback to INTx, and with every other setting there is one of the two.
   */
  lemma {:induction false} WantedIsReported(d: Pci, offset: u64, data: seq<byte>, a: Answer)
    requires d.Shaped() && NOTIFY_OFFSET <= offset < NOTIFY_END && Taken(data) < |d.queues| && a.wants
    ensures var o := Step(d, WriteBar(offset, data, a)); var v := d.queueVectors[Taken(data)];
            && ((exists e :: e in o.events && (e.Raise? || e == Level(true)))
                <==> !d.Enabled() || (v < |d.table| && v != NO_VECTOR))
            && (d.Enabled() && (v >= |d.table| || v == NO_VECTOR) ==>
                  o == Out(d.(queues := d.queues[Taken(data) := a.queue]), []))
  {
    hide Taken;
    var v := d.queueVectors[Taken(data)];
    var o := Step(d, WriteBar(offset, data, a));
    if !d.Enabled() {
      assert Level(true) in o.events;
    } else if v < |d.table| && v != NO_VECTOR {
      assert Raise(v) in o.events;
    }
  }

  /** The limit of the line's promise is reached: an interrupt raised, then a new sink, which stays low. */
  lemma {:induction false} SwapLosesLevel(config: seq<byte>, table: seq<MsixEntry>, numQueues: nat, a: Answer)
    requires |config| == 256 && numQueues > 0 && a.wants && !Fresh(config, table, numQueues).Enabled()
    ensures var o := Run(Fresh(config, table, numQueues), [WriteBar(NOTIFY_OFFSET, [0], a), SwapSink]);
            o.dev.isr == 1 && !Line(o.events)
  {
    hide Line, Step, Taken;
    var d := Fresh(config, table, numQueues);
    var ops := [WriteBar(NOTIFY_OFFSET, [0], a), SwapSink];
    NotifiesZero();
    var o := Step(d, ops[0]);
    FirstNotice(d, a);
    assert ops[..1] == [ops[0]] && ops[..1][..0] == [];
    assert Run(d, []) == Out(d, []);
    assert Run(d, ops[..1]) == o;
    StepIsSwap(o.dev);
    assert Run(d, ops) == Out(o.dev, o.events + [Swap]);
    LineLast(o.events, Swap);
  }

  lemma {:induction false} NotifiesZero()
    ensures Taken([0]) == 0
  {
    assert [0][..1] == [0];
    assert [0][..0] == [];
  }

  lemma {:induction false} FirstNotice(d: Pci, a: Answer)
    requires d.Shaped() && !d.Enabled() && |d.queues| > 0 && d.isr == 0 && a.wants && Taken([0]) == 0
    ensures Step(d, WriteBar(NOTIFY_OFFSET, [0], a)).dev.isr == 1
  {
    hide Taken;
  }

  lemma StepIsSwap(d: Pci)
    requires d.Shaped()
    ensures Step(d, SwapSink) == Out(d, [Swap])
  {
  }

  // ---- Reset ----

  lemma {:induction false} RunConcat(d: Pci, a: seq<Op>, b: seq<Op>)
    requires d.Shaped()
    ensures Run(d, a + b) == Then(Run(d, a), Run(Run(d, a).dev, b))
    decreases |b|
  {
    hide Step;
    if b == [] {
      assert a + b == a;
      assert Run(d, a).events + [] == Run(d, a).events;
    } else {
      var init, last := b[..|b| - 1], b[|b| - 1];
      RunConcat(d, a, init);
      assert (a + b)[..|a + b| - 1] == a + init;
      var x, y := Run(d, a), Run(Run(d, a).dev, init);
      assert (x.events + y.events) + Step(y.dev, last).events == x.events + (y.events + Step(y.dev, last).events);
    }
  }

  /** A status write whose low byte is zero leaves a new device around the old configuration space and MSI-X table. */
  lemma {:induction false} ResetIsFresh(d: Pci, data: seq<byte>, a: Answer)
    requires d.Shaped() && Taken(data) % 0x100 == 0
    ensures Step(d, WriteBar(0x14, data, a)) == Out(Fresh(d.config, d.table, |d.queues|), [Level(false), Reset])
  {
    hide Taken;
    var d' := d.(status := 0);
    assert ResetDev(d').dev == Fresh(d.config, d.table, |d.queues|);
  }

  /** Whatever came before a reset, everything after it happens as it would on that new device. */
  lemma {:induction false} AfterReset(d: Pci, before: seq<Op>, data: seq<byte>, a: Answer, after: seq<Op>)
    requires d.Shaped() && Taken(data) % 0x100 == 0
    ensures var o := Run(d, before);
            var clean := Run(Fresh(o.dev.config, o.dev.table, |o.dev.queues|), after);
            Run(d, before + [WriteBar(0x14, data, a)] + after)
            == Out(clean.dev, o.events + [Level(false), Reset] + clean.events)
  {
    hide Step, Taken;
    var mid := before + [WriteBar(0x14, data, a)];
    assert mid[..|mid| - 1] == before;
    RunConcat(d, mid, after);
    ResetIsFresh(Run(d, before).dev, data, a);
  }
}
