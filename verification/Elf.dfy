/** The ELF loader (src/boot.rs, src/elf.rs). */
module Elf {
  import opened Bytes
  import opened Memory

  const HIMEM := 0x10_0000
  const EHDR_LEN := 64
  const PHDR_LEN := 56
  const PT_LOAD := 1

  datatype Ehdr = Ehdr(entry: u64, phoff: u64, phentsize: u16, phnum: u16)

  datatype Phdr = Phdr(kind: u32, offset: u64, paddr: u64, filesz: u64, memsz: u64) {
    predicate IsLoad() { kind == PT_LOAD }

    /** Physical address clamped to high memory. */
    function LoadAddr(): u64 { Max(paddr, HIMEM) }
  }

  /** The header, if the file is long enough and is a 64-bit ELF. */
  function ReadEhdr(file: seq<byte>): (h: Option<Ehdr>)
  {
    if |file| < EHDR_LEN || Slice(file, 0, 4) != [0x7f, 0x45, 0x4c, 0x46] || file[4] != 2 then
      None
    else
      Some(Ehdr(U64At(file, 24), U64At(file, 32), U16At(file, 54), U16At(file, 56)))
  }

  function DecodePhdr(file: seq<byte>, at: nat): (p: Phdr)
    requires at + PHDR_LEN <= |file|
  {
    Phdr(U32At(file, at), U64At(file, at + 8), U64At(file, at + 24), U64At(file, at + 32), U64At(file, at + 40))
  }

  function ReadPhdr(file: seq<byte>, h: Ehdr, i: nat): (p: Option<Phdr>)
  {
    var at := Wrap64(h.phoff + i * h.phentsize);
    if at + PHDR_LEN > |file| then None
    else Some(DecodePhdr(file, at))
  }

  /** Stores made, and whether loading is still going well. */
  datatype Loaded = Loaded(ok: bool, writes: seq<Write>)

  /** One program header: copy the file bytes, then clear the rest of the segment. */
  function LoadSegment(file: seq<byte>, p: Phdr, size: nat): (r: Loaded)
  {
    var at := p.LoadAddr();
    if !p.IsLoad() then Loaded(true, [])
    else if Wrap64(at + p.memsz) > size then Loaded(false, [])
    else if p.filesz > 0 && (p.offset + p.filesz > |file| || at + p.filesz > size) then Loaded(false, [])
    else
      var copy := if p.filesz > 0 then [Write(at, Slice(file, p.offset, p.filesz))] else [];
      if p.memsz <= p.filesz then Loaded(true, copy)
      else if Wrap64(at + p.filesz) + (p.memsz - p.filesz) > size then Loaded(false, copy)
      else Loaded(true, copy + [Write(Wrap64(at + p.filesz), Zeros(p.memsz - p.filesz))])
  }

  /** The first `k` program headers, stopping at the first that fails. */
  function LoadSegments(file: seq<byte>, h: Ehdr, size: nat, k: nat): (r: Loaded)
  {
    if k == 0 then Loaded(true, [])
    else
      var r := LoadSegments(file, h, size, k - 1);
      if !r.ok then r
      else
        match ReadPhdr(file, h, k - 1)
        case None => Loaded(false, r.writes)
        case Some(p) =>
          var s := LoadSegment(file, p, size);
          Loaded(s.ok, r.writes + s.writes)
  }

  function LoadElf(file: seq<byte>, size: nat): (r: Loaded)
  {
    match ReadEhdr(file)
    case None => Loaded(false, [])
    case Some(h) => LoadSegments(file, h, size, h.phnum)
  }

  // ---- On every outcome ----

  /** Every store lies between 1 MiB and the end of guest RAM. */
  ghost predicate HighOnly(ws: seq<Write>, size: nat)
  {
    forall i :: 0 <= i < |ws| ==> HIMEM <= ws[i].at && ws[i].at + |ws[i].data| <= size
  }

  lemma SegmentHigh(file: seq<byte>, p: Phdr, size: nat)
    requires size < POW64
    ensures HighOnly(LoadSegment(file, p, size).writes, size)
  {
  }

  /** Whatever the file holds and whether or not loading succeeds, nothing below 1 MiB or past RAM is written. */
  lemma {:induction false} LoaderStaysHigh(file: seq<byte>, h: Ehdr, size: nat, k: nat)
    requires size < POW64
    ensures HighOnly(LoadSegments(file, h, size, k).writes, size)
  {
    hide LoadSegment, ReadPhdr;
    if k > 0 {
      LoaderStaysHigh(file, h, size, k - 1);
      var p := ReadPhdr(file, h, k - 1);
      if p.Some? {
        SegmentHigh(file, p.value, size);
      }
    }
  }

  // ---- On success ----

  /** Program header `i`, once loading has read it. */
  ghost predicate HeadersRead(file: seq<byte>, h: Ehdr, k: nat)
  {
    forall i :: 0 <= i < k ==> ReadPhdr(file, h, i).Some?
  }

  ghost function Seg(file: seq<byte>, h: Ehdr, i: nat): Phdr
    requires ReadPhdr(file, h, i).Some?
  {
    ReadPhdr(file, h, i).value
  }

  /** Address `a` belongs to the loaded image of the segment. */
  predicate Covers(p: Phdr, a: nat)
  {
    p.IsLoad() && p.LoadAddr() <= a < p.LoadAddr() + p.memsz
  }

  ghost predicate Apart(p: Phdr, q: Phdr)
  {
    forall a: nat :: Covers(p, a) ==> !Covers(q, a)
  }

  /** Well-formed segments whose clamped ranges do not overlap. */
  ghost predicate Sound(file: seq<byte>, h: Ehdr, k: nat)
    requires HeadersRead(file, h, k)
  {
    && (forall i :: 0 <= i < k && Seg(file, h, i).IsLoad() ==> Seg(file, h, i).filesz <= Seg(file, h, i).memsz)
    && (forall i, j :: 0 <= i < j < k ==> Apart(Seg(file, h, i), Seg(file, h, j)))
  }

  /** The byte the segment puts at `a`: from the file, or zero beyond the file data. */
  function ImageByte(file: seq<byte>, p: Phdr, a: nat): (b: byte)
    requires Covers(p, a)
  {
    var j := a - p.LoadAddr();
    if j < p.filesz && p.offset + j < |file| then file[p.offset + j] else 0
  }

  lemma {:induction false} SegmentLoads(file: seq<byte>, p: Phdr, m: seq<byte>)
    requires |m| < POW64 && LoadSegment(file, p, |m|).ok
    requires p.IsLoad() ==> p.filesz <= p.memsz
    ensures var m' := Replay(m, LoadSegment(file, p, |m|).writes);
            && (p.IsLoad() && p.filesz > 0 ==> p.offset + p.filesz <= |file|)
            && InPlace(file, p, m')
            && (forall a :: 0 <= a < |m| && !Covers(p, a) ==> m'[a] == m[a])
  {
    hide Replay, Splice, Slice, Covers, ImageByte;
    if !p.IsLoad() {
      ReplayNothing(m);
      NotLoaded(p);
    } else if p.memsz == p.filesz {
      if p.filesz == 0 {
        ReplayNothing(m);
      } else {
        SegmentReplay(m, [Write(p.LoadAddr(), Slice(file, p.offset, p.filesz))]);
      }
      LaidWhole(file, p, m);
    } else if p.filesz == 0 {
      assert LoadSegment(file, p, |m|).writes == [Write(p.LoadAddr(), Zeros(p.memsz))];
      SegmentReplay(m, [Write(p.LoadAddr(), Zeros(p.memsz))]);
      LaidZero(file, p, m);
    } else {
      var at := p.LoadAddr();
      var w0, w1 := Write(at, Slice(file, p.offset, p.filesz)), Write(at + p.filesz, Zeros(p.memsz - p.filesz));
      assert LoadSegment(file, p, |m|).writes == [w0, w1];
      TwoStores(m, w0, w1);
      LaidBoth(file, p, m);
    }
  }

  lemma NotLoaded(p: Phdr)
    requires !p.IsLoad()
    ensures forall a: nat :: !Covers(p, a)
  {
  }

  lemma LaidWhole(file: seq<byte>, p: Phdr, m: seq<byte>)
    requires p.IsLoad() && p.memsz == p.filesz && p.LoadAddr() + p.filesz <= |m|
    requires p.filesz > 0 ==> p.offset + p.filesz <= |file|
    ensures var m' := if p.filesz == 0 then m else Splice(m, p.LoadAddr(), Slice(file, p.offset, p.filesz));
            && InPlace(file, p, m')
            && (forall a :: 0 <= a < |m| && !Covers(p, a) ==> m'[a] == m[a])
  {
  }

  lemma LaidZero(file: seq<byte>, p: Phdr, m: seq<byte>)
    requires p.IsLoad() && p.filesz == 0 && p.LoadAddr() + p.memsz <= |m|
    ensures var m' := Splice(m, p.LoadAddr(), Zeros(p.memsz));
            && InPlace(file, p, m')
            && (forall a :: 0 <= a < |m| && !Covers(p, a) ==> m'[a] == m[a])
  {
  }

  lemma LaidBoth(file: seq<byte>, p: Phdr, m: seq<byte>)
    requires p.IsLoad() && 0 < p.filesz < p.memsz && p.LoadAddr() + p.memsz <= |m| && p.offset + p.filesz <= |file|
    ensures var m0 := Splice(m, p.LoadAddr(), Slice(file, p.offset, p.filesz));
            var m' := Splice(m0, p.LoadAddr() + p.filesz, Zeros(p.memsz - p.filesz));
            && InPlace(file, p, m')
            && (forall a :: 0 <= a < |m| && !Covers(p, a) ==> m'[a] == m[a])
  {
  }

  lemma {:induction false} SegmentReplay(m: seq<byte>, ws: seq<Write>)
    requires |ws| <= 1
    ensures Replay(m, ws) == if ws == [] then m else Splice(m, ws[0].at, ws[0].data)
  {
    hide Splice;
  }

  /**
   * After `k` headers loaded successfully, each segment's range holds its file bytes followed by zeros to `p_memsz`,
   * and every byte outside all ranges is as before.
   */
  lemma {:induction false} ImageInPlace(file: seq<byte>, h: Ehdr, m: seq<byte>, k: nat)
    requires |m| < POW64 && LoadSegments(file, h, |m|, k).ok
    ensures HeadersRead(file, h, k)
    ensures Sound(file, h, k) ==>
              var m' := Replay(m, LoadSegments(file, h, |m|, k).writes);
              Placed(file, h, k, m') && Spared(file, h, k, m, m')
  {
    hide LoadSegment, ReadPhdr, ImageByte, Replay, InPlace, Apart;
    if k == 0 {
      ReplayNothing(m);
    } else {
      ImageInPlace(file, h, m, k - 1);
      var r := LoadSegments(file, h, |m|, k - 1);
      var p := ReadPhdr(file, h, k - 1).value;
      var s := LoadSegment(file, p, |m|);
      assert HeadersRead(file, h, k);
      if Sound(file, h, k) {
        var m0 := Replay(m, r.writes);
        ReplayConcat(m, r.writes, s.writes);
        var m' := Replay(m0, s.writes);
        assert p == Seg(file, h, k - 1);
        SegmentLoads(file, p, m0);
        assert Sound(file, h, k - 1) && Placed(file, h, k - 1, m0) && Spared(file, h, k - 1, m, m0);
        forall i | 0 <= i < k
          ensures InPlace(file, Seg(file, h, i), m')
        {
          if i < k - 1 {
            KeepsOther(file, Seg(file, h, i), p, m0, m');
          }
        }
      }
    }
  }

  lemma KeepsOther(file: seq<byte>, p: Phdr, other: Phdr, m: seq<byte>, m': seq<byte>)
    requires |m'| == |m| && InPlace(file, p, m)
    requires Apart(p, other)
    requires forall a :: 0 <= a < |m| && !Covers(other, a) ==> m'[a] == m[a]
    ensures InPlace(file, p, m')
  {
  }

  /** Each of the first `k` segments is in memory: file bytes, then zeros to `p_memsz`. */
  ghost predicate Placed(file: seq<byte>, h: Ehdr, k: nat, m: seq<byte>)
    requires HeadersRead(file, h, k)
  {
    forall i :: 0 <= i < k ==> InPlace(file, Seg(file, h, i), m)
  }

  ghost predicate InPlace(file: seq<byte>, p: Phdr, m: seq<byte>)
  {
    forall a: nat :: Covers(p, a) ==> a < |m| && m[a] == ImageByte(file, p, a)
  }

  /** Bytes outside all of them are the same in both memories. */
  ghost predicate Spared(file: seq<byte>, h: Ehdr, k: nat, m: seq<byte>, m': seq<byte>)
    requires HeadersRead(file, h, k) && |m'| == |m|
  {
    forall a :: 0 <= a < |m| && (forall i :: 0 <= i < k ==> !Covers(Seg(file, h, i), a)) ==> m'[a] == m[a]
  }

  // ---- The loader itself ----

  method ReadSegment(file: seq<byte>, h: Ehdr, i: nat) returns (p: Option<Phdr>)
    ensures p == ReadPhdr(file, h, i)
  {
    var at := Wrap64(h.phoff + i * h.phentsize);
    if at + PHDR_LEN > |file| {
      return None;
    }
    p := Some(DecodePhdr(file, at));
  }

  method StoreSegment(file: seq<byte>, p: Phdr, mem: GuestMemory) returns (ok: bool)
    requires mem.Valid()
    modifies mem, mem.data
    ensures mem.Valid()
    ensures var r := LoadSegment(file, p, mem.data.Length); ok == r.ok && mem.log == old(mem.log) + r.writes
  {
    hide Splice, Slice, Wrap64, Replay, Zeros;
    if !p.IsLoad() {
      return true;
    }
    var at := p.LoadAddr();
    if Wrap64(at + p.memsz) > mem.data.Length {
      return false;
    }
    if p.filesz > 0 {
      if p.offset + p.filesz > |file| {
        return false;
      }
      ok := mem.WriteAt(at, Slice(file, p.offset, p.filesz));
      if !ok {
        return false;
      }
    }
    if p.memsz > p.filesz {
      ok := mem.WriteAt(Wrap64(at + p.filesz), Zeros(p.memsz - p.filesz));
      return ok;
    }
    return true;
  }

  /** Returns the entry point on success. */
  method LoadElfKernel(file: seq<byte>, mem: GuestMemory) returns (entry: Option<u64>)
    requires mem.Valid()
    modifies mem, mem.data
    ensures mem.Valid()
    ensures var r := LoadElf(file, mem.data.Length);
            && entry.Some? == r.ok && mem.log == old(mem.log) + r.writes
            && (entry.Some? ==> entry.value == ReadEhdr(file).value.entry)
  {
    hide Splice, LoadSegment, ReadPhdr, U64At;
    var eh := ReadEhdr(file);
    if eh.None? {
      return None;
    }
    var h := eh.value;
    ghost var size := mem.data.Length;
    var i: nat := 0;
    while i < h.phnum
      invariant i <= h.phnum && mem.Valid()
      invariant LoadSegments(file, h, size, i).ok
      invariant mem.log == old(mem.log) + LoadSegments(file, h, size, i).writes
    {
      var p := ReadSegment(file, h, i);
      if p.None? {
        LoadFailed(file, h, size, i + 1, h.phnum);
        return None;
      }
      LogAssoc(old(mem.log), LoadSegments(file, h, size, i).writes, LoadSegment(file, p.value, size).writes);
      var ok := StoreSegment(file, p.value, mem);
      if !ok {
        LoadFailed(file, h, size, i + 1, h.phnum);
        return None;
      }
      i := i + 1;
    }
    return Some(h.entry);
  }

  /** A failure is final. */
  lemma {:induction false} LoadFailed(file: seq<byte>, h: Ehdr, size: nat, i: nat, k: nat)
    requires i <= k && !LoadSegments(file, h, size, i).ok
    ensures LoadSegments(file, h, size, k) == LoadSegments(file, h, size, i)
    decreases k
  {
    hide LoadSegment, ReadPhdr;
    if i < k {
      LoadFailed(file, h, size, i, k - 1);
    }
  }
}
