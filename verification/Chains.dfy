/** A driver's side of the descriptor table: what it stores there is what the device collects (src/virtio/mod.rs). */
module Chains {
  import opened Bytes
  import opened Memory
  import opened Virtq

  /** A descriptor as section 2.4.5 of VIRTIO 1.0 lays it out: le64 address, le32 length, le16 flags, le16 next. */
  function DescBytes(d: VirtqDesc): (bs: seq<byte>)
    ensures |bs| == 16
  {
    Le64(d.addr) + (Le32(d.len) + (Le16(d.flags) + Le16(d.next)))
  }

  /** Where entry `idx` of the table lies. */
  function DescAddr(table: u64, idx: u16): (a: nat)
  {
    var i: int := idx;
    table + 16 * i
  }

  /** The device decodes the descriptor the driver encoded. */
  lemma {:induction false} DescReadsBack(m: seq<byte>, table: u64, idx: u16, d: VirtqDesc)
    requires |m| < POW64 && Holds(m, DescAddr(table, idx), DescBytes(d))
    ensures DescAt(m, table, idx) == Some(d)
  {
    hide Holds, Le64, Le32, Le16, U64At, U32At, U16At, Wrap64;
    var a: nat := DescAddr(table, idx);
    HoldsFits(m, a, DescBytes(d));
    HoldsParts(m, a, Le64(d.addr), Le32(d.len) + (Le16(d.flags) + Le16(d.next)));
    HoldsParts(m, a + 8, Le32(d.len), Le16(d.flags) + Le16(d.next));
    HoldsParts(m, a + 12, Le16(d.flags), Le16(d.next));
    Loads64(m, a, d.addr);
    Loads32(m, a + 8, d.len);
    Loads16(m, a + 12, d.flags);
    Loads16(m, a + 14, d.next);
    NoWrap(a);
  }

  lemma NoWrap(a: nat)
    requires a < POW64
    ensures Wrap64(a) == a
  {
  }

  /** Descriptors that form one chain through the table indices `path`: NEXT is flag bit 0, clear on the last only. */
  ghost predicate Listed(path: seq<u16>, ds: seq<VirtqDesc>, num: u16)
  {
    && 0 < |path| == |ds|
    && Distinct(path)
    && (forall i :: 0 <= i < |path| ==> path[i] < num)
    && (forall i :: 0 < i < |path| ==> ds[i - 1].flags % 2 == 1 && ds[i - 1].next == path[i])
    && ds[|ds| - 1].flags % 2 == 0
  }

  ghost predicate TableHolds(m: seq<byte>, table: u64, path: seq<u16>, ds: seq<VirtqDesc>)
    requires |path| == |ds|
  {
    forall i :: 0 <= i < |path| ==> Holds(m, DescAddr(table, path[i]), DescBytes(ds[i]))
  }

  /** Exactly the listed descriptors are collected, in order. */
  lemma {:induction false} ListCollected(m: seq<byte>, table: u64, path: seq<u16>, ds: seq<VirtqDesc>, num: u16)
    requires |m| < POW64 && Listed(path, ds, num) && TableHolds(m, table, path, ds)
    ensures Walk(TableAt(m, table), path[0], 0, num) == ds
  {
    hide Holds, DescAt, Walk, DescBytes, Listed;
    var t := TableAt(m, table);
    assert |path| == |ds| by { ListedShape(path, ds, num); }
    forall i | 0 <= i < |path|
      ensures t(path[i]) == Some(ds[i])
    {
      DescReadsBack(m, table, path[i], ds[i]);
    }
    ListWalk(t, path, ds, num);
  }

  lemma ListedShape(path: seq<u16>, ds: seq<VirtqDesc>, num: u16)
    requires Listed(path, ds, num)
    ensures 0 < |path| == |ds|
  {
  }

  lemma {:induction false} ListWalk(t: Table, path: seq<u16>, ds: seq<VirtqDesc>, num: u16)
    requires Listed(path, ds, num) && forall i :: 0 <= i < |path| ==> t(path[i]) == Some(ds[i])
    ensures Walk(t, path[0], 0, num) == ds
  {
    hide Walk, Distinct;
    forall i | 0 < i < |path|
      ensures LinksTo(t(path[i - 1]).value, path[i])
    {
      assert t(path[i - 1]) == Some(ds[i - 1]);
    }
    WalkWholeChain(t, path, num);
    assert Descs(t, path) == ds;
  }

  /** The driver's stores of the first `k` descriptors. */
  function DescStores(table: u64, path: seq<u16>, ds: seq<VirtqDesc>, k: nat): (ws: seq<Write>)
    requires k <= |path| == |ds|
    ensures |ws| == k
  {
    if k == 0 then []
    else DescStores(table, path, ds, k - 1) + [Write(DescAddr(table, path[k - 1]), DescBytes(ds[k - 1]))]
  }

  lemma {:induction false} StoresHold(m: seq<byte>, table: u64, path: seq<u16>, ds: seq<VirtqDesc>, k: nat)
    requires k <= |path| == |ds| && Distinct(path)
    requires forall i :: 0 <= i < |path| ==> DescAddr(table, path[i]) + 16 <= |m|
    ensures var m' := Replay(m, DescStores(table, path, ds, k));
            forall i :: 0 <= i < k ==> Holds(m', DescAddr(table, path[i]), DescBytes(ds[i]))
  {
    hide DescBytes, Replay, Splice, Holds;
    if k > 0 {
      StoresHold(m, table, path, ds, k - 1);
      var ws := DescStores(table, path, ds, k - 1);
      var m1 := Replay(m, ws);
      var w := Write(DescAddr(table, path[k - 1]), DescBytes(ds[k - 1]));
      ReplaySnoc(m, ws, w);
      SpliceHolds(m1, w);
      forall i | 0 <= i < k - 1
        ensures Holds(Splice(m1, w.at, w.data), DescAddr(table, path[i]), DescBytes(ds[i]))
      {
        assert path[i] != path[k - 1];
        SpliceKeeps(m1, w, DescAddr(table, path[i]), DescBytes(ds[i]));
      }
    }
  }

  /** A driver that stores a chain of distinct in-table descriptors has exactly that chain collected by the device. */
  lemma {:induction false} StoredChainCollected(m: seq<byte>, table: u64, path: seq<u16>, ds: seq<VirtqDesc>, num: u16)
    requires Listed(path, ds, num) && table + 16 * num <= |m| < POW64
    ensures var m' := Replay(m, DescStores(table, path, ds, |ds|));
            Walk(TableAt(m', table), path[0], 0, num) == ds
  {
    hide DescStores, Replay, Walk, Holds, DescBytes;
    StoresHold(m, table, path, ds, |ds|);
    ListCollected(Replay(m, DescStores(table, path, ds, |ds|)), table, path, ds, num);
  }
}
