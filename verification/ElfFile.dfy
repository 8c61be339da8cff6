/** ELF64 files as a linker writes them, and what the loader makes of them (src/boot.rs, src/elf.rs). */
module ElfFile {
  import opened Bytes
  import opened Memory
  import opened Elf

  /** The ELF64 header fields the loader uses, little-endian at their offsets. */
  ghost predicate IsElf(file: seq<byte>, h: Ehdr)
  {
    && |file| >= 64
    && Holds(file, 0, [0x7f, 0x45, 0x4c, 0x46, 2])
    && Holds(file, 24, Le64(h.entry)) && Holds(file, 32, Le64(h.phoff))
    && Holds(file, 54, Le16(h.phentsize)) && Holds(file, 56, Le16(h.phnum))
  }

  /** A program header at `at`: type, file offset, physical address, size in the file and size in memory. */
  ghost predicate HasPhdr(file: seq<byte>, at: nat, p: Phdr)
  {
    && at + 56 <= |file|
    && Holds(file, at, Le32(p.kind)) && Holds(file, at + 8, Le64(p.offset)) && Holds(file, at + 24, Le64(p.paddr))
    && Holds(file, at + 32, Le64(p.filesz)) && Holds(file, at + 40, Le64(p.memsz))
  }

  /** Where program header `i` is. */
  function PhdrAt(h: Ehdr, i: nat): (at: nat)
  {
    h.phoff + i * h.phentsize
  }

  /** The file's program headers are `segs`. */
  ghost predicate Lists(file: seq<byte>, h: Ehdr, segs: seq<Phdr>)
  {
    && |segs| == h.phnum
    && forall i :: 0 <= i < |segs| ==> PhdrAt(h, i) < POW64 && HasPhdr(file, PhdrAt(h, i), segs[i])
  }

  /** A file is read as the header it encodes, and a file that is too short or has another magic number is refused. */
  lemma {:induction false} HeaderIsRead(file: seq<byte>, h: Ehdr)
    ensures IsElf(file, h) ==> ReadEhdr(file) == Some(h)
    ensures ReadEhdr(file).None? <==> |file| < 64 || !Holds(file, 0, [0x7f, 0x45, 0x4c, 0x46, 2])
  {
    hide U16At, U64At, Le16, Le64, Slice, Holds;
    if IsElf(file, h) {
      Loads64(file, 24, h.entry);
      Loads64(file, 32, h.phoff);
      Loads16(file, 54, h.phentsize);
      Loads16(file, 56, h.phnum);
    }
    if |file| >= 64 {
      MagicIs(file);
    }
  }

  lemma {:induction false} MagicIs(file: seq<byte>)
    requires |file| >= 64
    ensures Slice(file, 0, 4) == [0x7f, 0x45, 0x4c, 0x46] && file[4] == 2
        <==> Holds(file, 0, [0x7f, 0x45, 0x4c, 0x46, 2])
  {
    var magic: seq<byte> := [0x7f, 0x45, 0x4c, 0x46, 2];
    var four := Slice(file, 0, 4);
    assert four == [file[0], file[1], file[2], file[3]];
    if Holds(file, 0, magic) {
      assert file[0 + 0] == magic[0] && file[0 + 1] == magic[1] && file[0 + 2] == magic[2];
      assert file[0 + 3] == magic[3] && file[0 + 4] == magic[4];
    }
  }

  lemma {:induction false} SegmentIsRead(file: seq<byte>, h: Ehdr, i: nat, p: Phdr)
    requires PhdrAt(h, i) < POW64 && HasPhdr(file, PhdrAt(h, i), p)
    ensures ReadPhdr(file, h, i) == Some(p)
  {
    hide U32At, U64At, Le32, Le64;
    var at := PhdrAt(h, i);
    Loads32(file, at, p.kind);
    Loads64(file, at + 8, p.offset);
    Loads64(file, at + 24, p.paddr);
    Loads64(file, at + 32, p.filesz);
    Loads64(file, at + 40, p.memsz);
  }

  lemma {:induction false} SegmentsAreRead(file: seq<byte>, h: Ehdr, segs: seq<Phdr>)
    requires Lists(file, h, segs)
    ensures forall i :: 0 <= i < |segs| ==> ReadPhdr(file, h, i) == Some(segs[i])
  {
    hide ReadPhdr, HasPhdr, PhdrAt;
    forall i | 0 <= i < |segs|
      ensures ReadPhdr(file, h, i) == Some(segs[i])
    {
      SegmentIsRead(file, h, i, segs[i]);
    }
  }

  // ---- When loading succeeds ----

  /** Where a segment goes: its physical address, but never below 1 MiB. */
  function Base(p: Phdr): (a: nat) { if p.paddr < 0x10_0000 then 0x10_0000 else p.paddr }

  predicate Loads(p: Phdr) { p.kind == 1 }

  predicate WellFormed(p: Phdr) { Loads(p) ==> p.filesz <= p.memsz }

  /** The segment is in the file and fits in `size` bytes of guest memory. */
  predicate Fits(file: seq<byte>, p: Phdr, size: nat)
  {
    Loads(p) ==> Base(p) + p.memsz <= size && (p.filesz == 0 || p.offset + p.filesz <= |file|)
  }

  lemma SegmentOk(file: seq<byte>, p: Phdr, size: nat)
    requires size < POW64 && WellFormed(p)
    ensures LoadSegment(file, p, size).ok <==> Fits(file, p, size)
  {
  }

  lemma {:induction false} LoadsIff(file: seq<byte>, h: Ehdr, segs: seq<Phdr>, size: nat, k: nat)
    requires size < POW64 && k <= |segs| && (forall i :: 0 <= i < |segs| ==> WellFormed(segs[i]))
    requires forall i :: 0 <= i < |segs| ==> ReadPhdr(file, h, i) == Some(segs[i])
    ensures LoadSegments(file, h, size, k).ok <==> forall i :: 0 <= i < k ==> Fits(file, segs[i], size)
  {
    hide LoadSegment, ReadPhdr, Fits, WellFormed;
    if k > 0 {
      LoadsIff(file, h, segs, size, k - 1);
      SegmentOk(file, segs[k - 1], size);
    }
  }

  // ---- What is then in memory ----

  predicate Within(p: Phdr, a: nat) { Loads(p) && Base(p) <= a < Base(p) + p.memsz }

  ghost predicate Disjoint(p: Phdr, q: Phdr)
  {
    forall a: nat :: !(Within(p, a) && Within(q, a))
  }

  ghost predicate AllDisjoint(segs: seq<Phdr>)
  {
    forall i, j :: 0 <= i < j < |segs| ==> Disjoint(segs[i], segs[j])
  }

  /** Byte `j` of the segment's range: file contents up to the file size, zero after it. */
  ghost predicate LaidByte(file: seq<byte>, p: Phdr, m: seq<byte>, j: nat)
  {
    && Base(p) + j < |m|
    && (j < p.filesz ==> p.offset + j < |file| && m[Base(p) + j] == file[p.offset + j])
    && (j >= p.filesz ==> m[Base(p) + j] == 0)
  }

  ghost predicate Laid(file: seq<byte>, p: Phdr, m: seq<byte>)
  {
    Loads(p) ==> forall j :: 0 <= j < p.memsz ==> LaidByte(file, p, m, j)
  }

  lemma SameRange(p: Phdr, a: nat)
    ensures Covers(p, a) <==> Within(p, a)
  {
  }

  lemma {:induction false} ApartIs(p: Phdr, q: Phdr)
    requires Disjoint(p, q)
    ensures Apart(p, q)
  {
    hide Covers, Within;
    forall a: nat | Covers(p, a)
      ensures !Covers(q, a)
    {
      SameRange(p, a);
      SameRange(q, a);
    }
  }

  lemma {:induction false} LaidIs(file: seq<byte>, p: Phdr, m: seq<byte>)
    requires InPlace(file, p, m) && Fits(file, p, |m|)
    ensures Laid(file, p, m)
  {
    if Loads(p) {
      forall j | 0 <= j < p.memsz
        ensures LaidByte(file, p, m, j)
      {
        assert Covers(p, Base(p) + j);
      }
    }
  }

  lemma {:induction false} SoundIs(file: seq<byte>, h: Ehdr, segs: seq<Phdr>)
    requires forall i :: 0 <= i < |segs| ==> ReadPhdr(file, h, i) == Some(segs[i]) && WellFormed(segs[i])
    requires AllDisjoint(segs)
    ensures HeadersRead(file, h, |segs|) && Sound(file, h, |segs|)
  {
    hide ReadPhdr, Apart, Disjoint;
    forall i, j | 0 <= i < j < |segs|
      ensures Apart(Seg(file, h, i), Seg(file, h, j))
    {
      ApartIs(segs[i], segs[j]);
    }
  }

  /**
   * A file that encodes header `h` and program headers `segs` is loaded exactly when every loadable segment fits, its
   * entry point is the one in the header, and if the segments do not overlap then each is in memory, file bytes then
   * zeros, and every other byte is as before.
   */
  lemma {:induction false} FileLoads(file: seq<byte>, h: Ehdr, segs: seq<Phdr>, m: seq<byte>)
    requires |m| < POW64 && IsElf(file, h) && Lists(file, h, segs)
    requires forall i :: 0 <= i < |segs| ==> WellFormed(segs[i])
    ensures ReadEhdr(file) == Some(h)
    ensures LoadElf(file, |m|).ok <==> forall i :: 0 <= i < |segs| ==> Fits(file, segs[i], |m|)
    ensures LoadElf(file, |m|).ok && AllDisjoint(segs) ==>
              var m' := Replay(m, LoadElf(file, |m|).writes);
              && (forall i :: 0 <= i < |segs| ==> Laid(file, segs[i], m'))
              && (forall a :: 0 <= a < |m| && (forall i :: 0 <= i < |segs| ==> !Within(segs[i], a)) ==> m'[a] == m[a])
  {
    hide IsElf, Lists, LoadSegments, ReadPhdr, ReadEhdr, WellFormed, Fits, Laid, InPlace, Within, Covers, Replay, Apart;
    HeaderIsRead(file, h);
    SegmentsAreRead(file, h, segs);
    ListsLength(file, h, segs);
    LoadsIff(file, h, segs, |m|, |segs|);
    if LoadElf(file, |m|).ok && AllDisjoint(segs) {
      SoundIs(file, h, segs);
      ImageInPlace(file, h, m, |segs|);
      var m' := Replay(m, LoadElf(file, |m|).writes);
      forall i | 0 <= i < |segs|
        ensures Laid(file, segs[i], m')
      {
        assert InPlace(file, Seg(file, h, i), m');
        LaidIs(file, segs[i], m');
      }
      forall a | 0 <= a < |m| && (forall i :: 0 <= i < |segs| ==> !Within(segs[i], a))
        ensures m'[a] == m[a]
      {
        forall i | 0 <= i < |segs|
          ensures !Covers(Seg(file, h, i), a)
        {
          SameRange(segs[i], a);
        }
      }
    }
  }

  lemma ListsLength(file: seq<byte>, h: Ehdr, segs: seq<Phdr>)
    requires Lists(file, h, segs)
    ensures |segs| == h.phnum
  {
  }
}
