/** Fixed-width unsigned integers and their little-endian byte encodings. */
module Bytes {

  const POW16 := 0x1_0000
  const POW32 := 0x1_0000_0000
  const POW64 := 0x1_0000_0000_0000_0000

  type byte = x: int | 0 <= x < 0x100
  type u16 = x: int | 0 <= x < 0x1_0000
  type u32 = x: int | 0 <= x < 0x1_0000_0000
  type u64 = x: int | 0 <= x < 0x1_0000_0000_0000_0000

  datatype Option<+T> = None | Some(value: T)

  function Min(a: int, b: int): int { if a <= b then a else b }

  function Max(a: int, b: int): int { if a >= b then a else b }

  /** Bit `k` of a number. */
  predicate Bit(v: nat, k: nat)
    decreases k
  {
    if k == 0 then v % 2 == 1 else Bit(v / 2, k - 1)
  }

  /** Wrapping (release-build) 64-bit addition result. */
  function Wrap64(x: nat): u64 { x % POW64 }

  /** The `n` elements of `s` from index `at` on. */
  function Slice<T>(s: seq<T>, at: nat, n: nat): (r: seq<T>)
    requires at + n <= |s|
    ensures |r| == n
  {
    seq(n, i requires 0 <= i < n => s[at + i])
  }

  // ---- Little-endian loads ----

  function U16At(bs: seq<byte>, i: nat): (v: u16)
    requires i + 2 <= |bs|
  {
    var lo: int, hi: int := bs[i], bs[i + 1];
    lo + 0x100 * hi
  }

  function U32At(bs: seq<byte>, i: nat): (v: u32)
    requires i + 4 <= |bs|
  {
    U16At(bs, i) + 0x1_0000 * U16At(bs, i + 2)
  }

  function U64At(bs: seq<byte>, i: nat): (v: u64)
    requires i + 8 <= |bs|
  {
    U32At(bs, i) + 0x1_0000_0000 * U32At(bs, i + 4)
  }

  /** A little-endian number of which at most the bytes 0 and 3 are not zero. */
  lemma Sparse(bs: seq<byte>, a: nat, n: nat)
    requires n in {2, 4, 8} && a + n <= |bs| && forall i :: a < i < a + n && i != a + 3 ==> bs[i] == 0
    ensures n == 2 ==> U16At(bs, a) == bs[a]
    ensures n == 4 ==> U32At(bs, a) == (bs[a] as int) + 0x100_0000 * (bs[a + 3] as int)
    ensures n == 8 ==> U64At(bs, a) == (bs[a] as int) + 0x100_0000 * (bs[a + 3] as int)
  {
  }

  // ---- Little-endian encodings ----

  function Le16(v: u16): (bs: seq<byte>)
    ensures |bs| == 2 && U16At(bs, 0) == v
  {
    [v % 0x100, v / 0x100]
  }

  function Le32(v: u32): (bs: seq<byte>)
    ensures |bs| == 4 && U32At(bs, 0) == v
  {
    Le16(v % 0x1_0000) + Le16(v / 0x1_0000)
  }

  function Le64(v: u64): (bs: seq<byte>)
    ensures |bs| == 8 && U64At(bs, 0) == v
  {
    Le32(v % 0x1_0000_0000) + Le32(v / 0x1_0000_0000)
  }

  // ---- Bytes in memory ----

  /** `m` holds `bs` at address `at`. */
  ghost predicate Holds(m: seq<byte>, at: nat, bs: seq<byte>)
  {
    at + |bs| <= |m| && forall i :: 0 <= i < |bs| ==> m[at + i] == bs[i]
  }

  lemma {:induction false} HoldsParts(m: seq<byte>, at: nat, a: seq<byte>, b: seq<byte>)
    ensures Holds(m, at, a + b) <==> Holds(m, at, a) && Holds(m, at + |a|, b)
  {
    if Holds(m, at, a + b) {
      forall i | 0 <= i < |a|
        ensures m[at + i] == a[i]
      {
        assert (a + b)[i] == a[i];
      }
      forall i | 0 <= i < |b|
        ensures m[at + |a| + i] == b[i]
      {
        assert m[at + (|a| + i)] == (a + b)[|a| + i];
      }
    }
    if Holds(m, at, a) && Holds(m, at + |a|, b) {
      forall i | 0 <= i < |a + b|
        ensures m[at + i] == (a + b)[i]
      {
        if i >= |a| {
          assert m[at + |a| + (i - |a|)] == b[i - |a|];
        }
      }
    }
  }

  lemma Reads16(bs: seq<byte>, a: nat, v: u16)
    requires a + 2 <= |bs| && bs[a] == Le16(v)[0] && bs[a + 1] == Le16(v)[1]
    ensures U16At(bs, a) == v
  {
  }

  lemma {:induction false} Reads32(bs: seq<byte>, a: nat, v: u32)
    requires a + 4 <= |bs| && bs[a] == Le32(v)[0] && bs[a + 1] == Le32(v)[1]
    requires bs[a + 2] == Le32(v)[2] && bs[a + 3] == Le32(v)[3]
    ensures U32At(bs, a) == v
  {
    hide Le32;
    assert U32At(Le32(v), 0) == v;
  }

  /** What was encoded little-endian is loaded back. */
  lemma {:induction false} Loads16(m: seq<byte>, a: nat, v: u16)
    requires Holds(m, a, Le16(v))
    ensures U16At(m, a) == v
  {
    hide Le16, U16At;
    assert m[a + 0] == Le16(v)[0] && m[a + 1] == Le16(v)[1];
    Reads16(m, a, v);
  }

  lemma {:induction false} Loads32(m: seq<byte>, a: nat, v: u32)
    requires Holds(m, a, Le32(v))
    ensures U32At(m, a) == v
  {
    hide Le32, U32At;
    assert m[a + 0] == Le32(v)[0] && m[a + 1] == Le32(v)[1] && m[a + 2] == Le32(v)[2] && m[a + 3] == Le32(v)[3];
    Reads32(m, a, v);
  }

  lemma {:induction false} Loads64(m: seq<byte>, a: nat, v: u64)
    requires Holds(m, a, Le64(v))
    ensures U64At(m, a) == v
  {
    hide Le32, U32At, Holds;
    HoldsParts(m, a, Le32(v % 0x1_0000_0000), Le32(v / 0x1_0000_0000));
    HoldsFits(m, a, Le64(v));
    Loads32(m, a, v % 0x1_0000_0000);
    Loads32(m, a + 4, v / 0x1_0000_0000);
  }

  lemma HoldsFits(m: seq<byte>, at: nat, bs: seq<byte>)
    requires Holds(m, at, bs)
    ensures at + |bs| <= |m|
  {
  }

  lemma {:induction false} HoldsAt(m: seq<byte>, at: nat, bs: seq<byte>, i: nat)
    requires Holds(m, at, bs) && i < |bs|
    ensures at + i < |m| && m[at + i] == bs[i]
  {
  }

  /** And what is loaded is what is held. */
  lemma {:induction false} Held16(m: seq<byte>, a: nat)
    requires a + 2 <= |m|
    ensures Holds(m, a, Le16(U16At(m, a)))
  {
    var lo: int, hi: int := m[a], m[a + 1];
    assert (lo + 0x100 * hi) % 0x100 == lo && (lo + 0x100 * hi) / 0x100 == hi;
  }

  lemma {:induction false} Held32(m: seq<byte>, a: nat)
    requires a + 4 <= |m|
    ensures Holds(m, a, Le32(U32At(m, a)))
  {
    hide Le16, U16At, Holds;
    var lo: int, hi: int := U16At(m, a), U16At(m, a + 2);
    assert (lo + 0x1_0000 * hi) % 0x1_0000 == lo && (lo + 0x1_0000 * hi) / 0x1_0000 == hi;
    Held16(m, a);
    Held16(m, a + 2);
    HoldsParts(m, a, Le16(lo), Le16(hi));
  }

  lemma {:induction false} Held64(m: seq<byte>, a: nat)
    requires a + 8 <= |m|
    ensures Holds(m, a, Le64(U64At(m, a)))
  {
    hide Le32, U32At, Holds;
    var lo: int, hi: int := U32At(m, a), U32At(m, a + 4);
    assert (lo + 0x1_0000_0000 * hi) % 0x1_0000_0000 == lo && (lo + 0x1_0000_0000 * hi) / 0x1_0000_0000 == hi;
    Held32(m, a);
    Held32(m, a + 4);
    HoldsParts(m, a, Le32(lo), Le32(hi));
  }

  /** Memories that agree on a stretch hold the same there. */
  lemma HoldsSame(m: seq<byte>, m': seq<byte>, at: nat, bs: seq<byte>)
    requires Holds(m, at, bs) && |m'| == |m| && forall i :: at <= i < at + |bs| ==> m'[i] == m[i]
    ensures Holds(m', at, bs)
  {
  }

  // ---- The encoding is little-endian ----

  lemma LittleEndian()
    ensures Le16(0x1234) == [0x34, 0x12]
    ensures Le32(0x1234_5678) == [0x78, 0x56, 0x34, 0x12]
    ensures Le64(0x12) == [0x12, 0, 0, 0, 0, 0, 0, 0]
  {
  }
}
