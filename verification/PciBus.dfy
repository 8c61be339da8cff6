/** How guest accesses reach a function: the BAR window (src/virtio/pci.rs) and the type-1 mechanism (src/pci.rs). */
module PciBus {
  import opened Arith
  import opened Bytes
  import opened PciModel
  import opened PciConfig
  import opened PciDevice

  // ---- The BAR window ----

  ghost predicate AllValid(devs: seq<VirtioPciDevice>)
    reads devs
  {
    forall d :: d in devs ==> d.Valid()
  }

  /** The first device in registration order that answers at `addr`. */
  ghost function Target(devs: seq<VirtioPciDevice>, addr: u64): (t: Option<VirtioPciDevice>)
    requires AllValid(devs)
    reads devs
    ensures t.Some? ==> t.value in devs && Answers(t.value.config, addr)
    ensures t.None? <==> forall d :: d in devs ==> !Answers(d.config, addr)
  {
    if devs == [] then None
    else
      var last := devs[|devs| - 1];
      assert last in devs && devs == devs[..|devs| - 1] + [last];
      var t := Target(devs[..|devs| - 1], addr);
      if t.None? && Answers(last.config, addr) then Some(last) else t
  }

  /** Distinct functions were given distinct bases. */
  ghost predicate BasesDiffer(devs: seq<VirtioPciDevice>)
    requires AllValid(devs)
    reads devs
  {
    forall d, e :: d in devs && e in devs && d != e ==> BarBase(d.config) != BarBase(e.config)
  }

  /** Then the device routing finds is the only one that answers, so the order of registration does not matter. */
  lemma {:induction false} TargetIsOnly(devs: seq<VirtioPciDevice>, addr: u64, d: VirtioPciDevice)
    requires AllValid(devs) && BasesDiffer(devs) && d in devs && Answers(d.config, addr)
    ensures Target(devs, addr) == Some(d)
  {
    hide Answers, BarBase;
    var t := Target(devs, addr);
    if t != Some(d) {
      OneAnswers(d.config, t.value.config, addr);
    }
  }

  class VirtioPciMmio {
    var windowBase: u64
    var devices: seq<VirtioPciDevice>

    ghost predicate Valid()
      reads this, devices
    {
      AllValid(devices)
    }

    constructor (base: u64)
      ensures Valid() && windowBase == base && devices == []
    {
      windowBase, devices := base, [];
    }

    method AddDevice(d: VirtioPciDevice)
      requires Valid() && d.Valid()
      modifies `devices
      ensures Valid() && devices == old(devices) + [d]
    {
      devices := devices + [d];
    }

    method Route(addr: u64) returns (t: Option<VirtioPciDevice>)
      requires Valid()
      ensures t == Target(devices, addr)
    {
      hide U16At, U32At;
      var i: nat := 0;
      t := None;
      while i < |devices|
        invariant i <= |devices| && AllValid(devices[..i]) && t == None == Target(devices[..i], addr)
      {
        var d := devices[i];
        assert d in devices && devices[..i + 1][..i] == devices[..i];
        if U16At(d.config, 0x04) / 2 % 2 == 1 {
          var base := U32At(d.config, 0x10) - U32At(d.config, 0x10) % 0x1000;
          if base != 0 && addr >= base && addr < base + 0x1000 {
            t := Some(d);
            TargetStays(devices, addr, i + 1);
            break;
          }
        }
        i := i + 1;
      }
      assert devices[..|devices|] == devices;
    }

    /** Only the device that answers sees the write, at its BAR-relative offset. */
    method Write(offset: u64, data: seq<byte>, answer: Answer)
      requires Valid()
      modifies devices
      ensures Valid()
      ensures var addr := Wrap64(windowBase + offset);
              var t := old(Target(devices, addr));
              && (t.Some? ==> t.value.Did(old(t.value.trace), PciModel.MmioWrite(old(t.value.State()),
                                                                addr - old(BarBase(t.value.config)), data, answer)))
              && (forall d :: d in devices && t != Some(d) ==> unchanged(d))
    {
      hide PciModel.MmioWrite, Answers, BarBase, Target, Wrap64;
      var addr := Wrap64(windowBase + offset);
      var t := Route(addr);
      if t.Some? {
        InBar(t.value.config, addr);
        t.value.MmioWrite(addr - BarBase(t.value.config), data, answer);
      }
    }

    /** Likewise for a read; one no device answers is all ones. */
    method Read(offset: u64, data: array<byte>, features: u64, fill: seq<byte>)
      requires Valid() && |fill| == data.Length
      modifies devices, data
      ensures Valid()
      ensures var addr := Wrap64(windowBase + offset);
              var t := old(Target(devices, addr));
              && (t.None? ==> data[..] == seq(data.Length, _ => 0xff))
              && (t.Some? ==>
                    var rel := addr - old(BarBase(t.value.config));
                    && data[..] == BarBytes(old(t.value.State()), rel, data.Length, features, fill)
                    && t.value.Did(old(t.value.trace), PciModel.MmioRead(old(t.value.State()), rel)))
              && (forall d :: d in devices && t != Some(d) ==> unchanged(d))
    {
      hide PciModel.MmioRead, Answers, BarBase, Target, BarBytes, Wrap64;
      var addr := Wrap64(windowBase + offset);
      var t := Route(addr);
      if t.Some? {
        InBar(t.value.config, addr);
        t.value.MmioRead(addr - BarBase(t.value.config), data, features, fill);
      } else {
        Fill(data, 0xff);
      }
    }
  }

  lemma InBar(c: seq<byte>, addr: u64)
    requires |c| == 256 && Answers(c, addr)
    ensures 0 <= addr - BarBase(c) < 0x1000
  {
  }

  lemma {:induction false} TargetStays(devs: seq<VirtioPciDevice>, addr: u64, n: nat)
    requires AllValid(devs) && n <= |devs| && Target(devs[..n], addr).Some?
    ensures Target(devs, addr) == Target(devs[..n], addr)
    decreases |devs|
  {
    hide Answers;
    if n < |devs| {
      assert devs[..|devs| - 1][..n] == devs[..n];
      TargetStays(devs[..|devs| - 1], addr, n);
    } else {
      assert devs[..n] == devs;
    }
  }

  // ---- The type-1 configuration mechanism ----

  function SlotKey(dev: byte, func: byte): (k: u16) { dev * 8 + func % 8 }

  /** What CONFIG_ADDRESS selects: nothing when it is disabled or names another bus. */
  function Selected(address: u32, portByte: u64): (s: Option<(u16, u64)>)
  {
    if address < 0x8000_0000 || address / 0x1_0000 % 0x100 != 0 then None
    else
      var low := address % 0x100;
      Some((SlotKey(address / 0x800 % 0x20, address / 0x100 % 8), Wrap64(low - low % 4 + portByte)))
  }

  /** The address a driver writes to reach register `4 * reg` of a slot on bus 0. */
  function AddressOf(dev: byte, func: byte, reg: nat): (a: u32)
    requires dev < 0x20 && func < 8 && reg < 0x40
  {
    0x8000_0000 + dev * 0x800 + func * 0x100 + 4 * reg
  }

  /** Every register of every slot has an address that selects it. */
  lemma {:induction false} EverySlotReachable(dev: byte, func: byte, reg: nat, portByte: u64)
    requires dev < 0x20 && func < 8 && reg < 0x40 && portByte < 4
    ensures Selected(AddressOf(dev, func, reg), portByte) == Some((SlotKey(dev, func), 4 * reg + portByte))
  {
    hide SlotKey, AddressOf, Wrap64;
    AddressParts(dev, func, reg);
    AddressOn(dev, func, reg);
    SmallWrap(4 * reg + portByte);
  }

  /** And whatever its reserved and low bits, an address selects by enable bit, bus, slot and register alone. */
  lemma {:induction false} SelectionIs(enable: nat, reserved: nat, bus: nat, dev: byte, func: byte, reg: nat, low: nat,
                                       portByte: u64)
    requires enable < 2 && reserved < 0x80 && bus < 0x100 && dev < 0x20 && func < 8 && reg < 0x40 && low < 4
    requires portByte < 4
    ensures var a := enable * 0x8000_0000 + reserved * 0x100_0000 + bus * 0x1_0000 + dev * 0x800 + func * 0x100
                     + 4 * reg + low;
            Selected(a, portByte)
            == if enable == 1 && bus == 0 then Some((dev as int * 8 + func, 4 * reg + portByte)) else None
  {
    hide Wrap64;
    var d: nat, f: nat := dev, func;
    var a3: nat := enable * 0x80 + reserved;
    var a2: nat := a3 * 0x100 + bus;
    var a1: nat := a2 * 0x20 + d;
    var a0: nat := a1 * 8 + f;
    var a: nat := a0 * 0x100 + 4 * reg + low;
    DivUnique(a, a0, 4 * reg + low, 0x100);
    DivUnique(a0, a1, f, 8);
    DivUnique(a, a1, f * 0x100 + 4 * reg + low, 0x800);
    DivUnique(a1, a2, d, 0x20);
    DivUnique(a, a2, d * 0x800 + f * 0x100 + 4 * reg + low, 0x1_0000);
    DivUnique(a2, a3, bus, 0x100);
    DivUnique(4 * reg + low, reg, low, 4);
    SmallWrap(4 * reg + portByte);
  }

  lemma AddressOn(dev: byte, func: byte, reg: nat)
    requires dev < 0x20 && func < 8 && reg < 0x40
    ensures AddressOf(dev, func, reg) >= 0x8000_0000
  {
  }

  lemma SmallWrap(x: nat)
    requires x < 0x200
    ensures Wrap64(x) == x
  {
  }

  /** No two slots share a key. */
  lemma KeysDiffer(dev: byte, func: byte, dev2: byte, func2: byte)
    requires dev < 0x20 && func < 8 && dev2 < 0x20 && func2 < 8
    ensures SlotKey(dev, func) == SlotKey(dev2, func2) <==> dev == dev2 && func == func2
  {
  }

  lemma {:induction false} AddressParts(dev: byte, func: byte, reg: nat)
    requires dev < 0x20 && func < 8 && reg < 0x40
    ensures var a := AddressOf(dev, func, reg);
            && a / 0x1_0000 % 0x100 == 0 && a / 0x800 % 0x20 == dev && a / 0x100 % 8 == func
            && a % 0x100 - a % 0x100 % 4 == 4 * reg
  {
    var a := AddressOf(dev, func, reg);
    assert a / 0x100 == 0x80_0000 + 8 * dev + func;
    assert a / 0x800 == 0x10_0000 + dev;
  }

  /** The latch after the bytes `data` are written at byte `offset` of it. */
  function Latched(bytes: seq<byte>, offset: nat, data: seq<byte>): (r: seq<byte>)
    requires |bytes| == 4
    ensures |r| == 4
  {
    seq(4, i requires 0 <= i < 4 => if offset <= i < offset + |data| then data[i - offset] else bytes[i])
  }

  class PciRootBus {
    var configAddress: u32

    constructor ()
      ensures configAddress == 0
    {
      configAddress := 0;
    }

    /** A write to port bytes 0 to 3. */
    method WriteAddress(offset: nat, data: seq<byte>)
      requires offset < 4
      modifies this
      ensures Le32(configAddress) == Latched(old(Le32(configAddress)), offset, data)
    {
      hide Le32, U32At;
      var bytes := Le32(configAddress);
      var i: nat := 0;
      while i < |data|
        invariant i <= |data| && |bytes| == 4
        invariant bytes == Latched(Le32(configAddress), offset, data[..i])
      {
        if offset + i < 4 {
          bytes := bytes[offset + i := data[i]];
        }
        i := i + 1;
      }
      assert data[..i] == data;
      configAddress := U32At(bytes, 0);
      LeInverse(bytes);
    }

    /** A read of port bytes 0 to 3: the latch, zero past its end. */
    method ReadAddress(offset: nat, data: array<byte>)
      requires offset < 4
      modifies data
      ensures forall k :: 0 <= k < data.Length ==>
                data[k] == if offset + k < 4 then Le32(configAddress)[offset + k] else 0
    {
      hide Le32;
      var bytes := Le32(configAddress);
      for i := 0 to data.Length
        invariant forall k :: 0 <= k < i ==> data[k] == if offset + k < 4 then bytes[offset + k] else 0
      {
        data[i] := if offset + i < 4 then bytes[offset + i] else 0;
      }
    }
  }

  lemma {:induction false} LeInverse(s: seq<byte>)
    requires |s| == 4
    ensures Le32(U32At(s, 0)) == s
  {
    var v: int, lo: int, hi: int := U32At(s, 0), U16At(s, 0), U16At(s, 2);
    assert v % POW16 == lo && v / POW16 == hi;
    assert Le16(lo) == [s[0], s[1]];
    assert Le16(hi) == [s[2], s[3]];
  }
}
