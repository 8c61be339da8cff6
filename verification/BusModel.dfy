/** Address ranges compared by overlap, and the bus that keys its device map with them (src/bus.rs). */
module BusModel {
  import opened Bytes

  const U64_MAX := 0xffff_ffff_ffff_ffff

  datatype Range = Range(base: u64, len: u64)

  datatype BusError = ZeroLength | Overflow | Overlap

  datatype Registered = Ok | Err(error: BusError)

  /** What `BusRange::new` accepts: not empty, and its end is representable. */
  predicate WellFormed(r: Range)
  {
    r.len > 0 && r.base + r.len <= U64_MAX
  }

  function Point(addr: u64): Range { Range(addr, 1) }

  /** Saturating end of the range. */
  function End(r: Range): u64 { Min(r.base + r.len, U64_MAX) }

  predicate Overlaps(a: Range, b: Range)
  {
    a.base < End(b) && b.base < End(a)
  }

  datatype Ordering = Less | Equal | Greater

  /** The order the map is keyed by: ranges that overlap count as equal. */
  function Cmp(a: Range, b: Range): Ordering
  {
    if Overlaps(a, b) then Equal else if End(a) <= b.base then Less else Greater
  }

  // ---- The order ----

  /** Overlap as sharing an address, without ends, saturation or comparisons of bounds. */
  predicate Contains(r: Range, addr: u64)
  {
    r.base <= addr < r.base + r.len
  }

  /** For ranges that can be registered, overlapping means sharing an address. */
  lemma {:induction false} OverlapsMeansShares(a: Range, b: Range)
    requires WellFormed(a) && WellFormed(b)
    ensures Overlaps(a, b) <==> exists x: u64 :: Contains(a, x) && Contains(b, x)
  {
    if Overlaps(a, b) {
      var x: u64 := if a.base <= b.base then b.base else a.base;
      assert Contains(a, x) && Contains(b, x);
    }
  }

  /** A one-byte probe is equal to a registrable range exactly when the range contains the address, U64_MAX included. */
  lemma PointProbe(r: Range, addr: u64)
    requires WellFormed(r)
    ensures Cmp(Point(addr), r) == Equal <==> Contains(r, addr)
  {
  }

  /** "Equal" is not transitive, so this is no lawful order on ranges at large. */
  lemma {:induction false} NotLawful()
    ensures exists a, b, c ::
              WellFormed(a) && WellFormed(b) && WellFormed(c)
              && Cmp(a, b) == Equal && Cmp(b, c) == Equal && Cmp(a, c) != Equal
  {
    var a, b, c := Range(0, 10), Range(5, 10), Range(10, 10);
    assert Cmp(a, b) == Equal && Cmp(b, c) == Equal && Cmp(a, c) != Equal;
  }

  ghost predicate PairwiseApart(rs: set<Range>)
  {
    && (forall r :: r in rs ==> WellFormed(r))
    && (forall a, b :: a in rs && b in rs && a != b ==> !Overlaps(a, b))
  }

  /** The comparison is a strict total order on `rs`. */
  ghost predicate StrictlyOrdered(rs: set<Range>)
  {
    && (forall a, b :: a in rs && b in rs ==> (Cmp(a, b) == Equal <==> a == b))
    && (forall a, b :: a in rs && b in rs ==> (Cmp(a, b) == Less <==> Cmp(b, a) == Greater))
    && (forall a, b, c :: a in rs && b in rs && c in rs && Cmp(a, b) == Less && Cmp(b, c) == Less ==>
          Cmp(a, c) == Less)
  }

  /** It is one exactly on sets of ranges that do not overlap. */
  lemma {:induction false} StrictTotalOrder(rs: set<Range>)
    requires forall r :: r in rs ==> WellFormed(r)
    ensures StrictlyOrdered(rs) <==> PairwiseApart(rs)
  {
    if StrictlyOrdered(rs) {
      forall a, b | a in rs && b in rs && a != b
        ensures !Overlaps(a, b)
      {
        assert Cmp(a, b) != Equal;
      }
    }
  }

  // ---- The map ----

  /** A registered device. */
  datatype Entry = Entry(range: Range, dev: nat)

  /** The map's contents in key order. */
  ghost predicate Sorted(es: seq<Entry>)
  {
    && (forall i :: 0 <= i < |es| ==> WellFormed(es[i].range))
    && (forall i, j :: 0 <= i < j < |es| ==> Cmp(es[i].range, es[j].range) == Less)
  }

  /** The keys of a map in key order never overlap, so the order is lawful on them. */
  lemma {:induction false} SortedIsApart(es: seq<Entry>)
    requires Sorted(es)
    ensures PairwiseApart(set i | 0 <= i < |es| :: es[i].range)
  {
    var rs := set i | 0 <= i < |es| :: es[i].range;
    forall a, b | a in rs && b in rs && a != b
      ensures !Overlaps(a, b)
    {
      var i :| 0 <= i < |es| && es[i].range == a;
      var j :| 0 <= j < |es| && es[j].range == b;
      if i < j {
        assert Cmp(es[i].range, es[j].range) == Less;
      } else {
        assert Cmp(es[j].range, es[i].range) == Less;
      }
    }
  }

  /** Every probe cuts the map into keys below, equal and above it. */
  lemma {:induction false} ProbeSplits(es: seq<Entry>, key: Range, i: nat, j: nat)
    requires Sorted(es) && i < j < |es| && key.len > 0
    ensures Cmp(es[i].range, key) == Greater ==> Cmp(es[j].range, key) == Greater
    ensures Cmp(es[j].range, key) == Less ==> Cmp(es[i].range, key) == Less
  {
    assert Cmp(es[i].range, es[j].range) == Less;
  }

  /** At most one entry holds an address. */
  lemma OneHolder(es: seq<Entry>, addr: u64, i: nat, j: nat)
    requires Sorted(es) && i < |es| && j < |es|
    requires Contains(es[i].range, addr) && Contains(es[j].range, addr)
    ensures i == j
  {
  }

  /** Specification of lookup: scan for an entry that contains the address. */
  function Scan(es: seq<Entry>, addr: u64): (e: Option<Entry>)
    decreases |es|
  {
    if es == [] then None
    else
      var n := |es| - 1;
      if Contains(es[n].range, addr) then Some(es[n]) else Scan(es[..n], addr)
  }

  lemma {:induction false} ScanFinds(es: seq<Entry>, addr: u64)
    ensures Scan(es, addr).None? <==> forall i :: 0 <= i < |es| ==> !Contains(es[i].range, addr)
    ensures Scan(es, addr).Some? ==> Scan(es, addr).value in es && Contains(Scan(es, addr).value.range, addr)
    decreases |es|
  {
    if es != [] {
      ScanFinds(es[..|es| - 1], addr);
    }
  }

  /** The scan finds exactly the holder, wherever it stands. */
  lemma {:induction false} ScanIs(es: seq<Entry>, addr: u64, i: nat)
    requires Sorted(es) && i < |es| && Contains(es[i].range, addr)
    ensures Scan(es, addr) == Some(es[i])
  {
    hide Scan, Sorted;
    ScanFinds(es, addr);
    var e := Scan(es, addr).value;
    var j :| 0 <= j < |es| && es[j] == e;
    OneHolder(es, addr, i, j);
  }

  function InsertAt(es: seq<Entry>, i: nat, e: Entry): (r: seq<Entry>)
    requires i <= |es|
    ensures |r| == |es| + 1
    ensures forall k :: 0 <= k < |r| ==> r[k] == if k < i then es[k] else if k == i then e else es[k - 1]
  {
    es[..i] + [e] + es[i..]
  }

  lemma {:induction false} InsertKeepsSorted(es: seq<Entry>, i: nat, e: Entry)
    requires Sorted(es) && WellFormed(e.range) && i <= |es|
    requires forall k :: 0 <= k < i ==> Cmp(es[k].range, e.range) == Less
    requires forall k :: i <= k < |es| ==> Cmp(e.range, es[k].range) == Less
    ensures Sorted(InsertAt(es, i, e))
  {
    hide Cmp;
    var r := InsertAt(es, i, e);
    forall a, b | 0 <= a < b < |r|
      ensures Cmp(r[a].range, r[b].range) == Less
    {
      if a == i {
        assert Cmp(e.range, es[b - 1].range) == Less;
      } else if b == i {
        assert Cmp(es[a].range, e.range) == Less;
      }
    }
  }

  lemma {:induction false} InsertHolds(es: seq<Entry>, i: nat, e: Entry)
    requires i <= |es|
    ensures forall x :: x in InsertAt(es, i, e) <==> x in es || x == e
  {
    assert es == es[..i] + es[i..];
  }

  /** A range neither equal nor greater than the key is less than it, seen from either side. */
  lemma CmpFlips(a: Range, b: Range)
    requires WellFormed(a) && WellFormed(b)
    ensures Cmp(a, b) == Less <==> Cmp(b, a) == Greater
    ensures Cmp(a, b) == Equal <==> Cmp(b, a) == Equal
  {
  }

  // ---- The bus ----

  /** A device's answer to a read: its state afterwards and the bytes. */
  datatype Reply<D> = Reply(state: D, bytes: seq<byte>)

  /** How devices react to a read of some width, and to a write, at an offset. */
  datatype Behaviour<!D> = Behaviour(read: (D, u64, nat) -> Reply<D>, write: (D, u64, seq<byte>) -> D)

  class Bus<D(!new)> {
    const behaviour: Behaviour<D>
    var devices: seq<Entry>
    /** The devices themselves, which the map and other parts of the monitor share. */
    var states: map<nat, D>

    ghost predicate Valid()
      reads this
    {
      && Sorted(devices)
      && (forall e :: e in devices ==> e.dev in states)
      && (forall d, o, n :: |behaviour.read(d, o, n).bytes| == n)
    }

    constructor (behaviour: Behaviour<D>)
      requires forall d, o, n :: |behaviour.read(d, o, n).bytes| == n
      ensures Valid() && devices == [] && states == map[] && this.behaviour == behaviour
    {
      this.behaviour := behaviour;
      devices, states := [], map[];
    }

    /** Ordered search: the position of an entry equal to the key, or where one would go. */
    method Search(key: Range) returns (found: bool, pos: nat)
      requires Valid() && key.len > 0
      ensures found ==> pos < |devices| && Cmp(key, devices[pos].range) == Equal
      ensures !found ==>
                && pos <= |devices|
                && (forall k :: 0 <= k < pos ==> Cmp(devices[k].range, key) == Less)
                && (forall k :: pos <= k < |devices| ==> Cmp(devices[k].range, key) == Greater)
    {
      var lo, hi := 0, |devices|;
      while lo < hi
        invariant 0 <= lo <= hi <= |devices|
        invariant forall k :: 0 <= k < lo ==> Cmp(devices[k].range, key) == Less
        invariant forall k :: hi <= k < |devices| ==> Cmp(devices[k].range, key) == Greater
      {
        var mid := (lo + hi) / 2;
        match Cmp(key, devices[mid].range)
        case Equal => return true, mid;
        case Less =>
          forall k | mid <= k < |devices|
            ensures Cmp(devices[k].range, key) == Greater
          {
            if mid < k { ProbeSplits(devices, key, mid, k); }
          }
          hi := mid;
        case Greater =>
          assert Cmp(devices[mid].range, key) == Less by { ProbeFlips(key, devices[mid].range); }
          forall k | 0 <= k <= mid
            ensures Cmp(devices[k].range, key) == Less
          {
            if k < mid { ProbeSplits(devices, key, k, mid); }
          }
          lo := mid + 1;
      }
      return false, lo;
    }

    /** Fails with Overlap exactly when the new range shares an address with a registered one. */
    method Register(base: u64, len: u64, dev: nat, device: D) returns (r: Registered)
      requires Valid()
      modifies this
      ensures Valid()
      ensures r == Err(ZeroLength) <==> len == 0
      ensures r == Err(Overflow) <==> len > 0 && base + len >= POW64
      ensures r == Err(Overlap) <==>
                WellFormed(Range(base, len)) && exists e :: e in old(devices) && Overlaps(e.range, Range(base, len))
      ensures r.Err? ==> devices == old(devices) && states == old(states)
      ensures r.Ok? ==> states == old(states)[dev := device]
      ensures r.Ok? ==> multiset(devices) == multiset(old(devices)) + multiset{Entry(Range(base, len), dev)}
    {
      hide Cmp, Overlaps;
      if len == 0 {
        return Err(ZeroLength);
      }
      if base + len > U64_MAX {
        return Err(Overflow);
      }
      var range := Range(base, len);
      var found, pos := Search(range);
      if found {
        EqualOverlaps(range, devices[pos].range);
        assert devices[pos] in devices;
        return Err(Overlap);
      }
      forall k | 0 <= k < |devices|
        ensures !Overlaps(devices[k].range, range) && (pos <= k ==> Cmp(range, devices[k].range) == Less)
      {
        EqualOverlaps(devices[k].range, range);
        CmpFlips(devices[k].range, range);
        CmpFlips(range, devices[k].range);
      }
      InsertKeepsSorted(devices, pos, Entry(range, dev));
      assert devices == devices[..pos] + devices[pos..];
      InsertHolds(devices, pos, Entry(range, dev));
      devices := InsertAt(devices, pos, Entry(range, dev));
      states := states[dev := device];
      return Ok;
    }

    /** Ordered lookup gives what a linear scan gives, for every address. */
    method Lookup(addr: u64) returns (e: Option<Entry>)
      requires Valid()
      ensures e == Scan(devices, addr)
    {
      hide Cmp, Scan, Contains;
      var found, pos := Search(Point(addr));
      if found {
        PointProbe(devices[pos].range, addr);
        ScanIs(devices, addr, pos);
        return Some(devices[pos]);
      }
      forall k | 0 <= k < |devices|
        ensures !Contains(devices[k].range, addr)
      {
        PointMisses(devices[k].range, addr);
      }
      ScanFinds(devices, addr);
      return None;
    }

    /**
     * Reads that one device covers entirely are answered by it, at the offset from its base, and change no other
     * device; any other read returns all ones and changes none.
     */
    method Read(addr: u64, data: array<byte>) returns (claimed: bool)
      requires Valid() && data.Length < POW64
      modifies `states, data
      ensures Valid()
      ensures data.Length == 0 ==> claimed && states == old(states)
      ensures data.Length > 0 ==>
                match Covering(devices, addr, data.Length)
                case Some(e) =>
                  var r := behaviour.read(old(states)[e.dev], addr - e.range.base, data.Length);
                  claimed && data[..] == r.bytes && states == old(states)[e.dev := r.state]
                case None => !claimed && (forall i :: 0 <= i < data.Length ==> data[i] == 0xff) && states == old(states)
    {
      hide Scan;
      if data.Length == 0 {
        return true;
      }
      var e := Lookup(addr);
      ScanFinds(devices, addr);
      if e.None? || !(addr + data.Length <= U64_MAX && addr + data.Length <= End(e.value.range)) {
        for i := 0 to data.Length
          modifies data
          invariant forall k :: 0 <= k < i ==> data[k] == 0xff
        {
          data[i] := 0xff;
        }
        return false;
      }
      var r := behaviour.read(states[e.value.dev], addr - e.value.range.base, data.Length);
      states := states[e.value.dev := r.state];
      for i := 0 to data.Length
        modifies data
        invariant forall k :: 0 <= k < i ==> data[k] == r.bytes[k]
      {
        data[i] := r.bytes[i];
      }
      return true;
    }

    /** Writes reach the device that covers them entirely, with all their bytes, and no other. */
    method Write(addr: u64, data: seq<byte>) returns (claimed: bool)
      requires Valid()
      modifies `states
      ensures Valid()
      ensures data == [] ==> claimed && states == old(states)
      ensures data != [] ==>
                match Covering(devices, addr, |data|)
                case Some(e) =>
                  && claimed
                  && states == old(states)[e.dev := behaviour.write(old(states)[e.dev], addr - e.range.base, data)]
                case None => !claimed && states == old(states)
    {
      hide Scan;
      if data == [] {
        return true;
      }
      var e := Lookup(addr);
      ScanFinds(devices, addr);
      if e.None? || !(addr + |data| <= U64_MAX && addr + |data| <= End(e.value.range)) {
        return false;
      }
      states := states[e.value.dev := behaviour.write(states[e.value.dev], addr - e.value.range.base, data)];
      return true;
    }
  }

  lemma ProbeFlips(key: Range, r: Range)
    requires key.len > 0 && WellFormed(r)
    ensures Cmp(key, r) == Greater ==> Cmp(r, key) == Less
    ensures Cmp(key, r) == Less ==> Cmp(r, key) == Greater
  {
  }

  lemma PointMisses(r: Range, addr: u64)
    requires WellFormed(r) && Cmp(r, Point(addr)) != Equal
    ensures !Contains(r, addr)
  {
  }

  lemma EqualOverlaps(a: Range, b: Range)
    ensures Cmp(a, b) == Equal <==> Overlaps(a, b)
    ensures Overlaps(a, b) <==> Overlaps(b, a)
  {
  }

  /** The entry, if any, whose range contains all of `[addr, addr + len)`. */
  function Covering(es: seq<Entry>, addr: u64, len: nat): (e: Option<Entry>)
    ensures e.Some? ==> Contains(e.value.range, addr) && e.value in es
  {
    ScanFinds(es, addr);
    match Scan(es, addr)
    case None => None
    case Some(e) => if addr + len <= e.range.base + e.range.len then Some(e) else None
  }

  /** The covering entry contains every byte of the access; without one, no registered range contains them all. */
  lemma {:induction false} CoveringCovers(es: seq<Entry>, addr: u64, len: nat)
    requires Sorted(es) && 0 < len && addr + len <= POW64
    ensures var c := Covering(es, addr, len);
            && (c.Some? ==> c.value in es && forall x: u64 :: addr <= x < addr + len ==> Contains(c.value.range, x))
            && (c.None? ==> forall e :: e in es ==> exists x: u64 :: addr <= x < addr + len && !Contains(e.range, x))
  {
    hide Scan;
    ScanFinds(es, addr);
    if Covering(es, addr, len).None? {
      forall e | e in es
        ensures exists x: u64 :: addr <= x < addr + len && !Contains(e.range, x)
      {
        if Contains(e.range, addr) {
          var i :| 0 <= i < |es| && es[i] == e;
          ScanIs(es, addr, i);
          var x: u64 := addr + len - 1;
          assert !Contains(e.range, x);
        } else {
          assert addr <= addr < addr + len;
        }
      }
    }
  }
}
