/** Little-endian packing of register values into accesses of any width (src/virtio/pci.rs). */
module Le {
  import opened Arith
  import opened Bytes

  function Pow256(n: nat): (p: nat)
    ensures p > 0
  {
    if n == 0 then 1 else 0x100 * Pow256(n - 1)
  }

  lemma {:induction false} Pow256Eight()
    ensures Pow256(8) == POW64
  {
    assert Pow256(2) == POW16;
    assert Pow256(4) == POW16 * Pow256(2);
    assert Pow256(6) == POW16 * Pow256(4);
  }

  /** The value of the bytes of `s`, the first the least significant. */
  function Value(s: seq<byte>): (v: nat)
    ensures v < Pow256(|s|)
  {
    if s == [] then 0
    else
      var lo := Value(s[..|s| - 1]);
      var hi: int := s[|s| - 1];
      ValueBound(lo, hi, Pow256(|s| - 1));
      lo + hi * Pow256(|s| - 1)
  }

  lemma {:induction false} ValueBound(lo: nat, hi: nat, p: nat)
    requires lo < p && hi < 0x100
    ensures lo + hi * p < 0x100 * p
  {
    assert (0xff - hi) * p >= 0;
    assert hi * p + (0xff - hi) * p == 0xff * p;
  }

  /** What a device reads from a write: at most eight bytes are taken. */
  function Taken(data: seq<byte>): (v: u64)
  {
    Pow256Eight();
    Pow256Grows(Min(|data|, 8), 8);
    Value(data[..Min(|data|, 8)])
  }

  lemma {:induction false} Pow256Grows(a: nat, b: nat)
    requires a <= b
    ensures Pow256(a) <= Pow256(b)
    decreases b
  {
    if a < b {
      Pow256Grows(a, b - 1);
    }
  }

  /** Byte `i` of `v`. */
  function ByteOf(v: nat, i: nat): (b: byte) { v / Pow256(i) % 0x100 }

  /** `v` packed into `n` bytes, zero past the eighth. */
  function Packed(v: u64, n: nat): (s: seq<byte>)
    ensures |s| == n
  {
    seq(n, i requires 0 <= i < n => if i < 8 then ByteOf(v, i) else 0)
  }

  lemma {:induction false} SplitMod(v: nat, p: nat)
    requires p > 0
    ensures v % (0x100 * p) == v % p + v / p % 0x100 * p
  {
    var q, r := v / p, v % p;
    var h, l := q / 0x100, q % 0x100;
    assert v == q * p + r;
    assert q == h * 0x100 + l;
    assert q * p == h * (0x100 * p) + l * p by {
      assert q * p == (h * 0x100 + l) * p;
      assert (h * 0x100 + l) * p == h * 0x100 * p + l * p;
      assert h * 0x100 * p == h * (0x100 * p);
    }
    ValueBound(r, l, p);
    ModUnique(v, h, l * p + r, 0x100 * p);
  }

  /** What is packed is what is read back, cut to the width of the access. */
  lemma {:induction false} RoundTrip(v: u64, n: nat)
    requires n <= 8
    ensures Taken(Packed(v, n)) == v % Pow256(n)
  {
    assert Packed(v, n)[..n] == Packed(v, n);
    PackedValue(v, n);
  }

  lemma {:induction false} PackedValue(v: u64, n: nat)
    requires n <= 8
    ensures Value(Packed(v, n)) == v % Pow256(n)
  {
    if n > 0 {
      PackedValue(v, n - 1);
      assert Packed(v, n)[..n - 1] == Packed(v, n - 1);
      SplitMod(v, Pow256(n - 1));
    }
  }

  /** `get_le`. */
  method GetLe(data: seq<byte>) returns (value: u64)
    ensures value == Taken(data)
  {
    var n := Min(|data|, 8);
    var v: nat, p: nat, i: nat := 0, 1, 0;
    while i < n
      invariant i <= n && v == Value(data[..i]) && p == Pow256(i)
    {
      assert data[..i + 1][..i] == data[..i];
      var b: int := data[i];
      v := v + b * p;
      p := 0x100 * p;
      i := i + 1;
    }
    Pow256Eight();
    Pow256Grows(n, 8);
    value := v;
  }

  /** `put_le`. */
  method PutLe(data: array<byte>, value: u64)
    modifies data
    ensures data[..] == Packed(value, data.Length)
  {
    var p: nat, i: nat := 1, 0;
    while i < data.Length
      invariant i <= data.Length && p == Pow256(i)
      invariant forall k :: 0 <= k < i ==> data[k] == if k < 8 then ByteOf(value, k) else 0
    {
      data[i] := if i < 8 then value / p % 0x100 else 0;
      p := 0x100 * p;
      i := i + 1;
    }
  }
}
