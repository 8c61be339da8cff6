/** Finding and reading the MP table the way a guest does, from the floating pointer on (src/mptable.rs). */
module MpGuest {
  import opened Bytes
  import opened Memory
  import opened MpTable
  import MpWriter

  /** The configuration table's address: signature, one paragraph, zero sum, a table present. */
  function FindTable(m: seq<byte>, at: nat): (p: Option<nat>)
  {
    if at + 16 > |m| || Slice(m, at, 4) != [0x5f, 0x4d, 0x50, 0x5f] || m[at + 8] != 1 || m[at + 11] != 0
       || Sum(Slice(m, at, 16), 16) % 256 != 0 then None
    else Some(U32At(m, at + 4))
  }

  /** Specification revision, OEM and product identification, local APIC address, entries. */
  datatype MpInfo = MpInfo(revision: byte, oem: seq<byte>, product: seq<byte>, lapic: u32, entries: seq<Entry>)

  /** A configuration table whose bytes sum to zero and whose entries fill it exactly. */
  function ReadConfig(t: seq<byte>): (r: Option<MpInfo>)
  {
    match ReadTable(t)
    case None => None
    case Some(p) =>
      if p.end != |t| || Sum(t, |t|) % 256 != 0 then None
      else Some(MpInfo(t[6], Slice(t, 8, 8), Slice(t, 16, 12), U32At(t, 36), p.entries))
  }

  /** From the floating pointer at `at`, through the table's address and stored length, to what the table says. */
  function ReadMp(m: seq<byte>, at: nat): (r: Option<MpInfo>)
  {
    match FindTable(m, at)
    case None => None
    case Some(p) =>
      if p + 44 > |m| || p + U16At(m, p + 4) > |m| then None else ReadConfig(Slice(m, p, U16At(m, p + 4)))
  }

  /** Revision 1.4, "FERRVM00", "ferrvm 0.1  ", the local APICs at 0xfee0_0000, and the intended entries. */
  ghost function Intended(n: byte, sig: u32, feat: u32, timerOnPin2: bool): (i: MpInfo)
  {
    MpInfo(4, [0x46, 0x45, 0x52, 0x52, 0x56, 0x4d, 0x30, 0x30],
           [0x66, 0x65, 0x72, 0x72, 0x76, 0x6d, 0x20, 0x30, 0x2e, 0x31, 0x20, 0x20],
           0xfee0_0000, Entries(n, sig, feat, timerOnPin2))
  }

  lemma {:induction false} HeaderKept(n: byte, sig: u32, feat: u32, timerOnPin2: bool)
    ensures var t := Table(n, sig, feat, timerOnPin2);
            |t| >= 44 && forall i :: 0 <= i < 44 && i !in {4, 5, 7, 34, 35} ==> t[i] == Blank()[i]
  {
    hide Entries, EncodeAll, Fill, Blank, Sum;
    TableLength(n, sig, feat, timerOnPin2);
    var es := Entries(n, sig, feat, timerOnPin2);
    BlankChecksum();
    FilledHeader(Blank() + EncodeAll(es), |es|);
  }

  lemma BlankChecksum()
    ensures Blank()[7] == 0
  {
  }

  lemma {:induction false} ConfigReads(n: byte, sig: u32, feat: u32, timerOnPin2: bool)
    ensures ReadConfig(Table(n, sig, feat, timerOnPin2)) == Some(Intended(n, sig, feat, timerOnPin2))
  {
    hide Table, ReadTable, Entries, Sum, U16At, U32At, Le32, Le16;
    var t := Table(n, sig, feat, timerOnPin2);
    TableReadsBack(n, sig, feat, timerOnPin2);
    HeaderKept(n, sig, feat, timerOnPin2);
    var i := Intended(n, sig, feat, timerOnPin2);
    assert Slice(t, 8, 8) == i.oem;
    assert Slice(t, 16, 12) == i.product;
    Reads32(t, 36, 0xfee0_0000);
  }

  lemma {:induction false} PointerReads()
    ensures var f := Pointer();
            && Slice(f, 0, 4) == [0x5f, 0x4d, 0x50, 0x5f] && f[8] == 1 && f[11] == 0
            && Sum(f, 16) % 256 == 0 && U32At(f, 4) == 0xf_0010
  {
    hide Sum, Checksum, Le32, U32At;
    PointerIsSound();
  }

  /**
   * After the stores, whatever memory held, a guest that looks at 0xf_0000 finds the floating pointer and through it
   * the intended table.
   */
  lemma {:induction false} GuestReadsMp(m: seq<byte>, n: byte, sig: u32, feat: u32, timerOnPin2: bool)
    requires 0xf_0010 + |Table(n, sig, feat, timerOnPin2)| <= |m|
    ensures ReadMp(Replay(m, MpWriter.TableStores(Table(n, sig, feat, timerOnPin2), |m|)), 0xf_0000)
         == Some(Intended(n, sig, feat, timerOnPin2))
  {
    hide Table, Pointer, Intended, ReadConfig, Sum, U16At, U32At;
    var t := Table(n, sig, feat, timerOnPin2);
    var w0, w1 := Write(0xf_0010, t), Write(0xf_0000, Pointer());
    TwoStores(m, w0, w1);
    var m' := Splice(Splice(m, w0.at, w0.data), w1.at, w1.data);
    assert Slice(m', 0xf_0000, 16) == Pointer();
    assert Slice(m', 0xf_0010, |t|) == t;
    TableReadsBack(n, sig, feat, timerOnPin2);
    ConfigReads(n, sig, feat, timerOnPin2);
    PointerReads();
    assert Slice(m', 0xf_0000, 4) == Slice(Pointer(), 0, 4);
    assert m'[0xf_0008] == Pointer()[8] && m'[0xf_000b] == Pointer()[11];
    Same32(m', 0xf_0000, Pointer(), 4);
    Same16(m', 0xf_0010, t, 4);
  }

  lemma Same32(m: seq<byte>, at: nat, bs: seq<byte>, i: nat)
    requires at + |bs| <= |m| && Slice(m, at, |bs|) == bs && i + 4 <= |bs|
    ensures U32At(m, at + i) == U32At(bs, i)
  {
  }

  lemma Same16(m: seq<byte>, at: nat, bs: seq<byte>, i: nat)
    requires at + |bs| <= |m| && Slice(m, at, |bs|) == bs && i + 2 <= |bs|
    ensures U16At(m, at + i) == U16At(bs, i)
  {
  }
}
