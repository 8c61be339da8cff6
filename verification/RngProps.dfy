/** What the entropy device delivers: successive bytes of the stream, none of them twice (src/virtio/rng.rs). */
module RngProps {
  import opened Bytes
  import opened Memory
  import opened Virtq
  import opened Blk
  import opened Device

  /** The buffer is one the device is to fill: flag bit 1 (WRITE), and not empty. */
  predicate Wanted(d: VirtqDesc) { d.flags / 2 % 2 == 1 && d.len > 0 }

  /** How many reads of the entropy source the first `k` buffers take. */
  function ReadsUpTo(chain: seq<VirtqDesc>, k: nat): (n: nat)
    requires k <= |chain|
  {
    if k == 0 then 0 else ReadsUpTo(chain, k - 1) + if Wanted(chain[k - 1]) then 1 else 0
  }

  /** Buffer `i` is wanted and its read of the entropy source succeeds. */
  predicate Drawn(s: RngState, chain: seq<VirtqDesc>, i: nat)
    requires i < |chain|
  {
    Wanted(chain[i]) && !s.fails(s.asked + ReadsUpTo(chain, i))
  }

  /** How far into the stream the first `k` buffers take the device. */
  function DrawnUpTo(s: RngState, chain: seq<VirtqDesc>, k: nat): (n: nat)
    requires k <= |chain|
  {
    if k == 0 then 0 else DrawnUpTo(s, chain, k - 1) + if Drawn(s, chain, k - 1) then chain[k - 1].len else 0
  }

  /** Buffer `i` is filled: its bytes are drawn and it lies in guest memory. */
  predicate Filled(s: RngState, chain: seq<VirtqDesc>, size: nat, i: nat)
    requires i < |chain|
  {
    Drawn(s, chain, i) && chain[i].addr + chain[i].len <= size
  }

  function FilledBytes(s: RngState, chain: seq<VirtqDesc>, size: nat, k: nat): (n: nat)
    requires k <= |chain|
  {
    if k == 0 then 0
    else FilledBytes(s, chain, size, k - 1) + if Filled(s, chain, size, k - 1) then chain[k - 1].len else 0
  }

  /** The store of buffer `i`: its stretch of the entropy stream. */
  ghost predicate FillOf(s: RngState, chain: seq<VirtqDesc>, i: nat, w: Write)
    requires i < |chain|
  {
    && w.at == chain[i].addr && |w.data| == chain[i].len
    && forall j :: 0 <= j < |w.data| ==> w.data[j] == s.entropy(s.drawn + DrawnUpTo(s, chain, i) + j)
  }

  /** The buffer that store `n` fills: the `n`-th of those that are filled. */
  function Nth(s: RngState, chain: seq<VirtqDesc>, size: nat, k: nat, n: nat): (i: int)
    requires k <= |chain|
  {
    if k == 0 then -1
    else if Filled(s, chain, size, k - 1) && Count(s, chain, size, k - 1) == n then k - 1
    else Nth(s, chain, size, k - 1, n)
  }

  function Count(s: RngState, chain: seq<VirtqDesc>, size: nat, k: nat): (n: nat)
    requires k <= |chain|
  {
    if k == 0 then 0 else Count(s, chain, size, k - 1) + if Filled(s, chain, size, k - 1) then 1 else 0
  }

  /** Store `w` fills the `n`-th of the buffers that are filled, among the first `k`. */
  ghost predicate FillsNth(s: RngState, chain: seq<VirtqDesc>, size: nat, k: nat, n: nat, w: Write)
    requires k <= |chain|
  {
    var i := Nth(s, chain, size, k, n);
    0 <= i < k && FillOf(s, chain, i, w)
  }

  /** The first `k` buffers: state, count and stores. */
  ghost predicate FilledTo(s: RngState, chain: seq<VirtqDesc>, size: nat, k: nat, e: Effect<RngState>)
    requires k <= |chain|
  {
    && e.dev == s.(asked := s.asked + ReadsUpTo(chain, k), drawn := s.drawn + DrawnUpTo(s, chain, k))
    && e.written == FilledBytes(s, chain, size, k) % POW32
    && |e.writes| == Count(s, chain, size, k)
    && (forall n :: 0 <= n < |e.writes| ==> FillsNth(s, chain, size, k, n, e.writes[n]))
  }

  lemma {:induction false} FillStep(s: RngState, chain: seq<VirtqDesc>, size: nat, k: nat, e: Effect<RngState>,
                                    e': Effect<RngState>)
    requires k < |chain| && FilledTo(s, chain, size, k, e)
    requires !Wanted(chain[k]) ==> e' == e
    requires Wanted(chain[k]) && !Drawn(s, chain, k) ==> e' == e.(dev := e.dev.(asked := e.dev.asked + 1))
    requires Drawn(s, chain, k) ==>
               var ws := Stored(size, Write(chain[k].addr, Draw(e.dev, chain[k].len)));
               e' == Effect(e.dev.(asked := e.dev.asked + 1, drawn := e.dev.drawn + chain[k].len), e.writes + ws,
                            if ws == [] then e.written else Plus32(e.written, chain[k].len))
    ensures FilledTo(s, chain, size, k + 1, e')
  {
    hide Plus32, ReadsUpTo, Wanted;
    Unfolds(s, chain, size, k);
    Plus32Mod(FilledBytes(s, chain, size, k), chain[k].len);
    forall n | 0 <= n < |e'.writes|
      ensures FillsNth(s, chain, size, k + 1, n, e'.writes[n])
    {
      if n < |e.writes| {
        assert FillsNth(s, chain, size, k, n, e.writes[n]);
      }
    }
    assert e'.dev == s.(asked := s.asked + ReadsUpTo(chain, k + 1), drawn := s.drawn + DrawnUpTo(s, chain, k + 1));
    assert |e'.writes| == Count(s, chain, size, k + 1);
    assert e'.written == FilledBytes(s, chain, size, k + 1) % POW32;
  }

  lemma Unfolds(s: RngState, chain: seq<VirtqDesc>, size: nat, k: nat)
    requires k < |chain|
    ensures ReadsUpTo(chain, k + 1) == ReadsUpTo(chain, k) + if Wanted(chain[k]) then 1 else 0
    ensures Drawn(s, chain, k) ==> Wanted(chain[k])
  {
  }

  lemma {:induction false} FillsTo(s: RngState, chain: seq<VirtqDesc>, size: nat, k: nat)
    requires k <= |chain|
    ensures FilledTo(s, chain, size, k, FillBuffers(s, chain, size, k))
  {
    hide FilledTo, Draw, Stored, Plus32;
    if k == 0 {
      FillsNone(s, chain, size);
    } else {
      FillsTo(s, chain, size, k - 1);
      var e := FillBuffers(s, chain, size, k - 1);
      AskedIs(s, chain, size, k - 1, e);
      FillStep(s, chain, size, k - 1, e, FillBuffers(s, chain, size, k));
    }
  }

  lemma FillsNone(s: RngState, chain: seq<VirtqDesc>, size: nat)
    ensures FilledTo(s, chain, size, 0, Effect(s, [], 0))
  {
  }

  lemma AskedIs(s: RngState, chain: seq<VirtqDesc>, size: nat, k: nat, e: Effect<RngState>)
    requires k <= |chain| && FilledTo(s, chain, size, k, e)
    ensures e.dev.asked == s.asked + ReadsUpTo(chain, k) && e.dev.fails == s.fails
  {
  }

  /**
   * A chain takes one read of the entropy source per writable, non-empty buffer. Exactly the buffers whose read
   * succeeds and that lie in memory are filled, in order, each with its own stretch of the stream; the stretches follow
   * one another without overlap; and their total length is reported modulo 2^32.
   */
  lemma {:induction false} ChainFilled(s: RngState, chain: seq<VirtqDesc>, m: seq<byte>)
    ensures FilledTo(s, chain, |m|, |chain|, FillChain(s, chain, m))
  {
    FillsTo(s, chain, |m|, |chain|);
  }

  /** No byte of entropy is handed out twice: later buffers and later chains draw from where earlier ones stopped. */
  lemma {:induction false} StretchesFollow(s: RngState, chain: seq<VirtqDesc>, i: nat, j: nat)
    requires i < j <= |chain| && Drawn(s, chain, i)
    ensures DrawnUpTo(s, chain, i) + chain[i].len <= DrawnUpTo(s, chain, j)
  {
    hide Drawn;
    if j > i + 1 {
      StretchesFollow(s, chain, i, j - 1);
    }
  }
}
