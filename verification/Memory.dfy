/** Guest physical memory (src/memory.rs). */
module Memory {
  import opened Bytes

  const PAGE_SIZE := 4096

  /** One successful store of `data` at guest physical address `at`. */
  datatype Write = Write(at: nat, data: seq<byte>)

  function Zeros(n: nat): (m: seq<byte>)
    ensures |m| == n && forall i :: 0 <= i < n ==> m[i] == 0
  {
    seq(n, _ => 0)
  }

  /** `m` with `data` laid over it at `at`; a store that does not fit changes nothing. */
  function Splice(m: seq<byte>, at: nat, data: seq<byte>): (r: seq<byte>)
    ensures |r| == |m|
  {
    if at + |data| > |m| then m
    else seq(|m|, i requires 0 <= i < |m| => if at <= i < at + |data| then data[i - at] else m[i])
  }

  /** Bounds-checked load, as `checked_hva` decides it. */
  function Load(m: seq<byte>, at: nat, n: nat): (r: Option<seq<byte>>)
    ensures r.Some? <==> at + n <= |m|
    ensures r.Some? ==> |r.value| == n
  {
    if at + n <= |m| then Some(Slice(m, at, n)) else None
  }

  /** Memory after the stores of `log`, in order. */
  function Replay(m: seq<byte>, log: seq<Write>): (r: seq<byte>)
    ensures |r| == |m|
    decreases |log|
  {
    if log == [] then m
    else
      var w := log[|log| - 1];
      Splice(Replay(m, log[..|log| - 1]), w.at, w.data)
  }

  lemma {:induction false} ReplaySnoc(m: seq<byte>, log: seq<Write>, w: Write)
    ensures Replay(m, log + [w]) == Splice(Replay(m, log), w.at, w.data)
  {
    assert (log + [w])[..|log|] == log;
  }

  lemma {:induction false} ReplayConcat(m: seq<byte>, a: seq<Write>, b: seq<Write>)
    ensures Replay(m, a + b) == Replay(Replay(m, a), b)
    decreases |b|
  {
    if b == [] {
      assert a + b == a;
    } else {
      var init := b[..|b| - 1];
      ReplayConcat(m, a, init);
      assert a + b == (a + init) + [b[|b| - 1]];
      ReplaySnoc(m, a + init, b[|b| - 1]);
    }
  }

  lemma ReplayNothing(m: seq<byte>)
    ensures Replay(m, []) == m
  {
  }

  lemma {:induction false} TwoStores(m: seq<byte>, w0: Write, w1: Write)
    ensures Replay(m, [w0, w1]) == Splice(Splice(m, w0.at, w0.data), w1.at, w1.data)
  {
    hide Splice;
    assert [w0, w1] == [w0] + [w1];
    assert [w0] == [] + [w0];
    ReplaySnoc(m, [], w0);
    ReplaySnoc(m, [w0], w1);
  }

  lemma LogAssoc(a: seq<Write>, b: seq<Write>, c: seq<Write>)
    ensures (a + b) + c == a + (b + c)
  {
  }

  /** No store of `log` touches a byte of `[lo, hi)`. */
  ghost predicate Avoids(log: seq<Write>, lo: int, hi: int)
  {
    forall i :: 0 <= i < |log| ==> log[i].at + |log[i].data| <= lo || hi <= log[i].at
  }

  lemma AvoidsConcat(a: seq<Write>, b: seq<Write>, lo: int, hi: int)
    requires Avoids(a, lo, hi) && Avoids(b, lo, hi)
    ensures Avoids(a + b, lo, hi)
  {
  }

  /** Stores that avoid a window leave it alone. */
  lemma {:induction false} ReplayAvoids(m: seq<byte>, log: seq<Write>, lo: nat, hi: nat)
    requires Avoids(log, lo, hi)
    requires lo <= hi <= |m|
    ensures forall i :: lo <= i < hi ==> Replay(m, log)[i] == m[i]
    decreases |log|
  {
    if log != [] {
      var n := |log| - 1;
      ReplayAvoids(m, log[..n], lo, hi);
      assert log[n].at + |log[n].data| <= lo || hi <= log[n].at;
    }
  }

  lemma SpliceHolds(m: seq<byte>, w: Write)
    requires w.at + |w.data| <= |m|
    ensures Holds(Splice(m, w.at, w.data), w.at, w.data)
  {
  }

  lemma SpliceKeeps(m: seq<byte>, w: Write, at: nat, bs: seq<byte>)
    requires Holds(m, at, bs) && (w.at + |w.data| <= at || at + |bs| <= w.at)
    ensures Holds(Splice(m, w.at, w.data), at, bs)
  {
  }

  /** A stretch that the stores avoid holds what it held. */
  lemma {:induction false} ReplayHolds(m: seq<byte>, log: seq<Write>, at: nat, bs: seq<byte>)
    requires Holds(m, at, bs) && Avoids(log, at, at + |bs|)
    ensures Holds(Replay(m, log), at, bs)
  {
    hide Replay;
    ReplayAvoids(m, log, at, at + |bs|);
    HoldsSame(m, Replay(m, log), at, bs);
  }

  class GuestMemory {
    const data: array<byte>
    ghost var log: seq<Write>

    /** Memory starts zeroed and its contents are accounted for, store by store, by `log`. */
    ghost predicate Valid()
      reads this, data
    {
      data.Length < POW64 && data[..] == Replay(Zeros(data.Length), log)
    }

    /** New log entries are all that separates the new contents from the old. */
    twostate lemma Grown(added: seq<Write>)
      requires old(Valid()) && Valid()
      requires log == old(log) + added
      ensures Contents() == Replay(old(Contents()), added)
    {
      ReplayConcat(Zeros(data.Length), old(log), added);
    }

    ghost function Contents(): (m: seq<byte>)
      reads data
    {
      data[..]
    }

    /** Anonymous mapping: zero-filled, rounded up to whole pages. */
    constructor (size: nat)
      requires 0 < size && size + PAGE_SIZE <= POW64
      ensures Valid() && fresh(data) && log == []
      ensures size <= data.Length < size + PAGE_SIZE && data.Length % PAGE_SIZE == 0
    {
      var aligned := (size + (PAGE_SIZE - 1)) / PAGE_SIZE * PAGE_SIZE;
      data := new byte[aligned](_ => 0);
      log := [];
    }

    method ReadAt(gpa: u64, len: nat) returns (r: Option<seq<byte>>)
      ensures r == Load(Contents(), gpa, len)
    {
      if gpa + len > data.Length {
        return None;
      }
      assert data[gpa..gpa + len] == Slice(Contents(), gpa, len);
      r := Some(data[gpa..gpa + len]);
    }

    method WriteAt(gpa: u64, buf: seq<byte>) returns (ok: bool)
      requires Valid()
      modifies this, data
      ensures Valid()
      ensures ok == (gpa + |buf| <= data.Length)
      ensures log == old(log) + if ok then [Write(gpa, buf)] else []
      ensures Contents() == Splice(old(Contents()), gpa, buf)
    {
      if gpa + |buf| > data.Length {
        return false;
      }
      var i := 0;
      while i < |buf|
        invariant 0 <= i <= |buf|
        invariant log == old(log)
        invariant forall j :: 0 <= j < data.Length ==>
                    data[j] == if gpa <= j < gpa + i then buf[j - gpa] else old(data[j])
      {
        data[gpa + i] := buf[i];
        i := i + 1;
      }
      assert data[..] == Splice(old(data[..]), gpa, buf);
      ReplaySnoc(Zeros(data.Length), log, Write(gpa, buf));
      log := log + [Write(gpa, buf)];
      return true;
    }
  }

  /**
   * `allocate`: refused for no bytes, for a size that rounds up past the address space (and so wraps to nothing), and
   * when the host does not grant the mapping.
   */
  method Allocate(size: u64, granted: bool) returns (r: Option<GuestMemory>)
    ensures r.Some? <==> 0 < size <= POW64 - PAGE_SIZE && granted
    ensures r.Some? ==> fresh(r.value) && fresh(r.value.data) && r.value.Valid() && r.value.log == []
    ensures r.Some? ==> size <= r.value.data.Length < size + PAGE_SIZE && r.value.data.Length % PAGE_SIZE == 0
  {
    if size == 0 {
      return None;
    }
    var aligned := Wrap64((size + (PAGE_SIZE - 1)) / PAGE_SIZE * PAGE_SIZE);
    if aligned == 0 || !granted {
      return None;
    }
    var mem := new GuestMemory(size);
    r := Some(mem);
  }
}
