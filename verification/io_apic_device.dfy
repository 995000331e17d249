/** The I/O APICs' registers, and the code that programs them. */
module IoApicDevice {
  import opened Regions
  import opened IoApic

  const REGISTERS: nat := 64
  const TABLE: nat := 0x10

  /** One I/O APIC: registers behind a selector and a window. */
  class IoApicRegs {
    const registers: array<bv32>
    var selector: nat

    ghost predicate Valid()
      reads this
    {
      registers.Length == REGISTERS
    }

    ghost function Entry(i: nat): bv64
      requires registers.Length == REGISTERS && i < TABLE_ENTRIES
      reads registers
    {
      Joined(registers[TABLE + 2 * i], registers[TABLE + 2 * i + 1])
    }

    method ReadReg(reg: nat) returns (v: bv32)
      requires Valid() && reg < REGISTERS
      modifies this
      ensures v == registers[reg]
    {
      selector := reg;
      v := registers[selector];
    }

    method WriteReg(reg: nat, v: bv32)
      requires Valid() && reg < REGISTERS
      modifies this, registers
      ensures registers[..] == old(registers[..])[reg := v]
    {
      selector := reg;
      registers[selector] := v;
      assert registers[..] == old(registers[..])[reg := v];
    }

    method ReadEntry(i: nat) returns (v: bv64)
      requires Valid() && i < TABLE_ENTRIES
      modifies this
      ensures v == Entry(i)
    {
      var lo := ReadReg(TABLE + 2 * i);
      var hi := ReadReg(TABLE + 2 * i + 1);
      v := (lo as bv64) | ((hi as bv64) << 32);
    }

    /** The two halves of one entry and no others. */
    method WriteEntry(i: nat, v: bv64)
      requires Valid() && i < TABLE_ENTRIES
      modifies this, registers
      ensures forall j :: 0 <= j < TABLE_ENTRIES ==> Entry(j) == if j == i then v else old(Entry(j))
    {
      hide Low, High, Joined;
      WriteReg(TABLE + 2 * i, Low(v));
      WriteReg(TABLE + 2 * i + 1, High(v));
      SplitAndJoin(v);
      var now, was := registers[..], old(registers[..]);
      assert now[TABLE + 2 * i] == Low(v) && now[TABLE + 2 * i + 1] == High(v);
      assert forall r :: 0 <= r < REGISTERS && r != TABLE + 2 * i && r != TABLE + 2 * i + 1 ==> now[r] == was[r];
      forall j | 0 <= j < TABLE_ENTRIES && j != i ensures Entry(j) == old(Entry(j)) {
        assert now[TABLE + 2 * j] == was[TABLE + 2 * j] && now[TABLE + 2 * j + 1] == was[TABLE + 2 * j + 1];
      }
    }

    /** Masking or unmasking one global interrupt. The entry is the low byte of the
        difference, whatever the interrupt; beyond the table the kernel stops. */
    method SetMask(gsi: nat, base: nat, mask: bool) returns (ok: bool)
      requires Valid()
      modifies this, registers
      ensures ok <==> (gsi - base) % U32_LIMIT % 256 < TABLE_ENTRIES
      ensures forall j :: 0 <= j < TABLE_ENTRIES ==>
        Entry(j) == if ok && j == (gsi - base) % U32_LIMIT % 256 then Masked(old(Entry(j)), mask) else old(Entry(j))
    {
      hide Masked, Joined;
      var index := (gsi - base) % U32_LIMIT % 256;
      if index >= TABLE_ENTRIES { return false; }
      var v := ReadEntry(index);
      WriteEntry(index, Masked(v, mask));
      return true;
    }
  }

  // --------------------------------------------------------------- the tables

  method ParseOverrides(sources: seq<Source>) returns (os: seq<Override>)
    ensures os == Overrides(sources)
  {
    os := [];
    for i := 0 to |sources|
      invariant os == Overrides(sources[..i])
    {
      var p, t := PolarityOf(sources[i].flags), TriggerOf(sources[i].flags);
      assert sources[..i + 1][..i] == sources[..i];
      if p.Some? && t.Some? {
        os := os + [Override(sources[i].irq, sources[i].gsi, p.value, t.value)];
      }
    }
    assert sources[..|sources|] == sources;
  }

  method FindOverride(os: seq<Override>, irq: nat) returns (o: Option<Override>)
    ensures o == Effective(os, irq)
  {
    var i := 0;
    while i < |os|
      invariant 0 <= i <= |os| && Effective(os[i..], irq) == Effective(os, irq)
    {
      if os[i].irq == irq { return Some(os[i]); }
      assert os[i..][1..] == os[i + 1..];
      i := i + 1;
    }
    return None;
  }

  /** Whether an override has claimed `gsi` for an interrupt other than it. */
  method AnyClaims(os: seq<Override>, gsi: nat) returns (claimed: bool)
    requires Effective(os, gsi).None?
    ensures claimed <==> Claimed(os, gsi)
  {
    for i := 0 to |os|
      invariant !Claimed(os[..i], gsi)
    {
      NotOverridden(os, gsi, i);
      if os[i].gsi == gsi && os[i].irq != gsi { return true; }
    }
    assert os[..|os|] == os;
    return false;
  }

  lemma {:induction false} NotOverridden(os: seq<Override>, irq: nat, i: nat)
    requires i < |os| && Effective(os, irq).None?
    ensures os[i].irq != irq
  {
    if i > 0 { NotOverridden(os[1..], irq, i - 1); }
  }

  method FindServer(apics: seq<Apic>, gsi: nat) returns (k: nat)
    ensures k == Server(apics, gsi)
  {
    k := 0;
    while k < |apics|
      invariant 0 <= k <= |apics| && forall j :: 0 <= j < k ==> !Serves(apics[j], gsi)
    {
      if Serves(apics[k], gsi) { return; }
      k := k + 1;
    }
  }

  // --------------------------------------------------------------- programming

  ghost predicate Devices(devices: seq<IoApicRegs>)
    reads devices
  {
    && (forall k :: 0 <= k < |devices| ==> devices[k].Valid())
    && (forall j, k :: 0 <= j < k < |devices| ==>
      devices[j] != devices[k] && devices[j].registers != devices[k].registers)
  }

  /** Where a legacy interrupt goes. */
  method FindRoute(os: seq<Override>, apics: seq<Apic>, irq: nat) returns (r: Option<Slot>)
    ensures r == Route(os, apics, irq)
  {
    var o := FindOverride(os, irq);
    var gsi := irq;
    if o.Some? {
      gsi := o.value.gsi;
    } else {
      var claimed := AnyClaims(os, irq);
      if claimed { return None; }
    }
    var k := FindServer(apics, gsi);
    if k == |apics| { return None; }
    return Some(Slot(k, gsi - apics[k].base));
  }

  method WriteSlot(devices: seq<IoApicRegs>, slot: Slot, v: bv64)
    requires Devices(devices) && slot.apic < |devices| && slot.index < TABLE_ENTRIES
    modifies devices, set k | 0 <= k < |devices| :: devices[k].registers
    ensures Devices(devices)
    ensures forall k, i :: 0 <= k < |devices| && 0 <= i < TABLE_ENTRIES ==>
      devices[k].Entry(i) == if Slot(k, i) == slot then v else old(devices[k].Entry(i))
  {
    devices[slot.apic].WriteEntry(slot.index, v);
    forall k, i | 0 <= k < |devices| && 0 <= i < TABLE_ENTRIES
      ensures devices[k].Entry(i) == if Slot(k, i) == slot then v else old(devices[k].Entry(i))
    {
      if k != slot.apic { assert devices[k].registers != devices[slot.apic].registers; }
    }
  }

  /** An interrupt whose index is beyond the table stops the kernel. */
  ghost predicate InTable(os: seq<Override>, apics: seq<Apic>, n: nat) {
    forall irq: nat :: irq < n && Route(os, apics, irq).Some? ==> Route(os, apics, irq).value.index < TABLE_ENTRIES
  }

  method MakeInfo(os: seq<Override>, bsp: bv8, irq: nat) returns (info: MapInfo)
    requires irq < LEGACY_IRQS
    ensures info == Info(os, bsp, irq)
  {
    var o := FindOverride(os, irq);
    var level := o.Some? && o.value.trigger.Level?;
    var activeLow := o.Some? && o.value.polarity.ActiveLow?;
    info := MapInfo(bsp, false, level, activeLow, false, Fixed, (32 + irq) as bv8);
  }

  lemma {:induction false} InTableIff(sources: seq<Source>, apics: seq<Apic>)
    ensures InTable(Overrides(sources), apics, LEGACY_IRQS) <==>
      forall irq: nat, slot :: irq < LEGACY_IRQS && SentTo(sources, apics, irq, slot) ==> slot.index < 24
  {
    hide Route, SentTo, Overrides;
    forall irq: nat, slot
      ensures Route(Overrides(sources), apics, irq) == Some(slot) <==> SentTo(sources, apics, irq, slot)
    {
      RouteIff(sources, apics, irq, slot);
    }
    forall irq: nat | irq < LEGACY_IRQS && Route(Overrides(sources), apics, irq).Some?
      ensures SentTo(sources, apics, irq, Route(Overrides(sources), apics, irq).value)
    {
    }
  }

  /** All sixteen, in order. Afterwards, from the firmware's list and the ranges
      alone: every entry that an interrupt is sent to says what the last of them
      should, every other is as before; and it stops exactly if one would be sent
      beyond a table. */
  method SetupIoApic(devices: seq<IoApicRegs>, apics: seq<Apic>, sources: seq<Source>, bsp: bv8) returns (ok: bool)
    requires Devices(devices) && |apics| == |devices|
    modifies devices, set k | 0 <= k < |devices| :: devices[k].registers
    ensures Devices(devices)
    ensures ok <==> forall irq: nat, slot :: irq < LEGACY_IRQS && SentTo(sources, apics, irq, slot) ==> slot.index < 24
    ensures ok ==> forall k: nat, i: nat, irq: nat :: k < |devices| && i < TABLE_ENTRIES ==>
      LastSent(sources, apics, irq, Slot(k, i)) ==> Says(devices[k].Entry(i), sources, bsp, irq)
    ensures ok ==> forall k: nat, i: nat :: k < |devices| && i < TABLE_ENTRIES ==>
      (forall irq: nat :: irq < LEGACY_IRQS ==> !SentTo(sources, apics, irq, Slot(k, i))) ==>
        devices[k].Entry(i) == old(devices[k].Entry(i))
    ensures ok ==> forall k, i :: 0 <= k < |devices| && 0 <= i < TABLE_ENTRIES ==>
      devices[k].Entry(i) == Programmed(Overrides(sources),
                                        apics, bsp, LEGACY_IRQS, Slot(k, i), old(devices[k].Entry(i)))
  {
    hide Route, AsRaw, Joined, Overrides, Info, IoApicRegs.Entry, SentTo, Says;
    InTableIff(sources, apics);
    var os := ParseOverrides(sources);
    var irq := 0;
    while irq < LEGACY_IRQS
      invariant 0 <= irq <= LEGACY_IRQS && Devices(devices) && InTable(os, apics, irq)
      invariant forall k, i :: 0 <= k < |devices| && 0 <= i < TABLE_ENTRIES ==>
        devices[k].Entry(i) == Programmed(os, apics, bsp, irq, Slot(k, i), old(devices[k].Entry(i)))
    {
      var r := FindRoute(os, apics, irq);
      if r.Some? {
        if r.value.index >= TABLE_ENTRIES { return false; }
        var info := MakeInfo(os, bsp, irq);
        WriteSlot(devices, r.value, AsRaw(info));
      }
      irq := irq + 1;
    }
    forall k: nat, i: nat, irq: nat | k < |devices| && i < TABLE_ENTRIES && LastSent(sources, apics, irq, Slot(k, i))
      ensures Says(devices[k].Entry(i), sources, bsp, irq)
    {
      EntriesFollowFirmware(sources, apics, bsp, Slot(k, i), old(devices[k].Entry(i)));
    }
    forall k: nat, i: nat | k < |devices| && i < TABLE_ENTRIES
      && forall irq: nat :: irq < LEGACY_IRQS ==> !SentTo(sources, apics, irq, Slot(k, i))
      ensures devices[k].Entry(i) == old(devices[k].Entry(i))
    {
      EntriesFollowFirmware(sources, apics, bsp, Slot(k, i), old(devices[k].Entry(i)));
    }
    return true;
  }
}
