/** Routing the sixteen legacy interrupts through the I/O APICs: which redirection
    entry each gets, and what the entries say. Register layout as in section 3.2.4
    of the Intel 82093AA datasheet; overrides as in section 5.2.12.5 of the ACPI
    specification. */
module IoApic {
  import opened Regions

  const LEGACY_IRQS: nat := 16
  const TABLE_ENTRIES: nat := 24
  const U32_LIMIT: nat := 0x1_0000_0000

  // ------------------------------------------------------------------- entries

  datatype Delivery = Fixed | LowestPriority | Smi | Nmi | Init | ExtInt

  datatype MapInfo = MapInfo(dest: bv8, mask: bool, level: bool, activeLow: bool, logical: bool, delivery: Delivery,
                             vector: bv8)

  function DeliveryBits(d: Delivery): bv64 {
    match d case Fixed => 0 case LowestPriority => 1 case Smi => 2 case Nmi => 4 case Init => 5 case ExtInt => 7
  }

  function Bit(b: bool, at: bv6): bv64 { (if b then 1 else 0 as bv64) << at }

  /** The 64-bit entry. */
  function AsRaw(i: MapInfo): bv64 {
    ((i.dest as bv64) << 56) | Bit(i.mask, 16) | Bit(i.level, 15) | Bit(i.activeLow, 13) | Bit(i.logical, 11)
    | (DeliveryBits(i.delivery) << 8) | (i.vector as bv64)
  }

  function FieldBit(v: bv64, at: bv6): bool { (v >> at) & 1 == 1 }

  function DeliveryOf(v: bv64): Option<Delivery> {
    var d := (v >> 8) & 7;
    if d == 0 then Some(Fixed) else if d == 1 then Some(LowestPriority) else if d == 2 then Some(Smi)
    else if d == 4 then Some(Nmi) else if d == 5 then Some(Init) else if d == 7 then Some(ExtInt) else None
  }

  /** What the hardware makes of an entry. */
  function Decode(v: bv64): Option<MapInfo> {
    var d := DeliveryOf(v);
    if d.None? then None else
      Some(MapInfo(((v >> 56) & 0xFF) as bv8, FieldBit(v, 16), FieldBit(v, 15),
                   FieldBit(v, 13), FieldBit(v, 11), d.value, (v & 0xFF) as bv8))
  }

  function Low(v: bv64): bv32 { (v & 0xFFFF_FFFF) as bv32 }

  function High(v: bv64): bv32 { (v >> 32) as bv32 }

  function Joined(lo: bv32, hi: bv32): bv64 { (lo as bv64) | ((hi as bv64) << 32) }

  /** Two words and back. */
  lemma {:induction false} SplitAndJoin(v: bv64)
    ensures Joined(Low(v), High(v)) == v
  {
  }

  lemma {:induction false} BitFields(i: MapInfo)
    ensures var v := AsRaw(i);
      && FieldBit(v, 16) == i.mask && FieldBit(v, 15) == i.level
      && FieldBit(v, 13) == i.activeLow && FieldBit(v, 11) == i.logical
  {
  }

  lemma {:induction false} WideFields(i: MapInfo)
    ensures var v := AsRaw(i);
      && (v >> 56) & 0xFF == i.dest as bv64 && v & 0xFF == i.vector as bv64 && (v >> 8) & 7 == DeliveryBits(i.delivery)
  {
  }

  /** Encoding loses nothing. */
  lemma {:induction false} EntryRoundTrip(i: MapInfo)
    ensures Decode(AsRaw(i)) == Some(i)
  {
    BitFields(i);
    WideFields(i);
    hide AsRaw, FieldBit;
  }

  function Masked(v: bv64, mask: bool): bv64 { (v & !(1 << 16)) | Bit(mask, 16) }

  lemma {:induction false} MaskedWide(v: bv64, mask: bool)
    ensures var w := Masked(v, mask);
      (w >> 8) & 7 == (v >> 8) & 7 && (w >> 56) & 0xFF == (v >> 56) & 0xFF && w & 0xFF == v & 0xFF
  {
  }

  lemma {:induction false} MaskedBits(v: bv64, mask: bool)
    ensures var w := Masked(v, mask);
      && FieldBit(w, 16) == mask
      && FieldBit(w, 15) == FieldBit(v, 15) && FieldBit(w, 13) == FieldBit(v, 13) && FieldBit(w, 11) == FieldBit(v, 11)
  {
  }

  /** Masking changes the mask and nothing else. */
  lemma {:induction false} MaskingKeepsTheRest(v: bv64, mask: bool)
    ensures Decode(v).Some? <==> Decode(Masked(v, mask)).Some?
    ensures Decode(v).Some? ==> Decode(Masked(v, mask)).value == Decode(v).value.(mask := mask)
  {
    hide FieldBit, Masked;
    MaskedWide(v, mask);
    MaskedBits(v, mask);
  }

  // ------------------------------------------------------------------- routing

  /** An interrupt source override as the firmware lists it. */
  datatype Source = Source(irq: nat, gsi: nat, flags: nat)

  /** An override as the kernel keeps it. */
  datatype Override = Override(irq: nat, gsi: nat, polarity: Polarity, trigger: Trigger)

  datatype Polarity = DefaultPolarity | ActiveHigh | ActiveLow

  datatype Trigger = DefaultTrigger | Edge | Level

  function PolarityOf(flags: nat): Option<Polarity> {
    var p := flags % 4;
    if p == 0 then Some(DefaultPolarity) else if p == 1 then Some(ActiveHigh)
    else if p == 3 then Some(ActiveLow) else None
  }

  function TriggerOf(flags: nat): Option<Trigger> {
    var t := flags / 4 % 4;
    if t == 0 then Some(DefaultTrigger) else if t == 1 then Some(Edge) else if t == 3 then Some(Level) else None
  }

  /** Entries with reserved settings are skipped. */
  function Overrides(sources: seq<Source>): seq<Override> {
    if sources == [] then [] else
      var s := sources[|sources| - 1];
      var p, t, before := PolarityOf(s.flags), TriggerOf(s.flags), Overrides(sources[..|sources| - 1]);
      if p.None? || t.None? then before else before + [Override(s.irq, s.gsi, p.value, t.value)]
  }

  /** The first override of an interrupt. */
  function Effective(os: seq<Override>, irq: nat): Option<Override> {
    if os == [] then None else if os[0].irq == irq then Some(os[0]) else Effective(os[1..], irq)
  }

  predicate Claimed(os: seq<Override>, gsi: nat) { exists i :: 0 <= i < |os| && os[i].gsi == gsi }

  /** The global interrupt of a legacy one: overridden, or its own number unless
      an override has claimed that for another. */
  function Global(os: seq<Override>, irq: nat): Option<nat> {
    var o := Effective(os, irq);
    if o.Some? then Some(o.value.gsi) else if Claimed(os, irq) then None else Some(irq)
  }

  /** An I/O APIC serves `count` global interrupts from `base` on; the hardware
      reports its highest entry, so the last one is left out. */
  datatype Apic = Apic(base: nat, count: nat)

  predicate Serves(a: Apic, gsi: nat) { a.base <= gsi < (a.base + a.count) % U32_LIMIT }

  function Server(apics: seq<Apic>, gsi: nat): (k: nat)
    ensures k <= |apics| && (k < |apics| ==> Serves(apics[k], gsi)) && forall j :: 0 <= j < k ==> !Serves(apics[j], gsi)
  {
    if apics == [] then 0 else if Serves(apics[0], gsi) then 0 else
      var k := Server(apics[1..], gsi);
      assert forall j :: 0 < j < k + 1 ==> apics[j] == apics[1..][j - 1];
      k + 1
  }

  datatype Slot = Slot(apic: nat, index: nat)

  /** The redirection entry of a legacy interrupt. */
  function Route(os: seq<Override>, apics: seq<Apic>, irq: nat): (r: Option<Slot>)
    ensures r.Some? ==> r.value.apic < |apics| && r.value.index < apics[r.value.apic].count
  {
    var g := Global(os, irq);
    if g.None? then None else
      var k := Server(apics, g.value);
      if k == |apics| then None else Some(Slot(k, g.value - apics[k].base))
  }

  lemma {:induction false} EffectiveIsIn(os: seq<Override>, irq: nat)
    requires Effective(os, irq).Some?
    ensures Effective(os, irq).value.irq == irq && Claimed(os, Effective(os, irq).value.gsi)
  {
    if os[0].irq != irq {
      EffectiveIsIn(os[1..], irq);
      var i :| 0 <= i < |os[1..]| && os[1..][i].gsi == Effective(os, irq).value.gsi;
      assert os[i + 1].gsi == Effective(os, irq).value.gsi;
    }
  }

  /** Two legacy interrupts end up at the same global interrupt exactly if both
      are overridden, to the same one. */
  lemma {:induction false} GlobalClashIff(os: seq<Override>, a: nat, b: nat)
    requires a != b
    ensures (Global(os, a).Some? && Global(os, a) == Global(os, b)) <==>
      (Effective(os, a).Some? && Effective(os, b).Some? && Effective(os, a).value.gsi == Effective(os, b).value.gsi)
  {
    if Effective(os, a).Some? { EffectiveIsIn(os, a); }
    if Effective(os, b).Some? { EffectiveIsIn(os, b); }
  }

  /** Both are overridden to one global interrupt that some I/O APIC serves. */
  predicate Shared(os: seq<Override>, apics: seq<Apic>, a: nat, b: nat) {
    && Effective(os, a).Some? && Effective(os, b).Some?
    && Effective(os, a).value.gsi == Effective(os, b).value.gsi
    && Server(apics, Effective(os, a).value.gsi) < |apics|
  }

  /** The condition on the firmware's tables. */
  ghost predicate NoSharing(os: seq<Override>, apics: seq<Apic>) {
    forall a: nat, b: nat :: a < b < LEGACY_IRQS ==> !Shared(os, apics, a, b)
  }

  ghost predicate DistinctGsis(os: seq<Override>) {
    forall i, j :: 0 <= i < j < |os| ==> os[i].gsi != os[j].gsi
  }

  lemma {:induction false} EffectiveAt(os: seq<Override>, irq: nat)
    requires Effective(os, irq).Some?
    ensures exists i :: 0 <= i < |os| && os[i] == Effective(os, irq).value && os[i].irq == irq
    decreases |os|
  {
    if os[0].irq != irq {
      EffectiveAt(os[1..], irq);
      var i :| 0 <= i < |os[1..]| && os[1..][i] == Effective(os, irq).value && os[1..][i].irq == irq;
      assert os[i + 1] == Effective(os, irq).value;
    }
  }

  lemma {:induction false} DistinctGsisSuffice(os: seq<Override>, apics: seq<Apic>)
    requires DistinctGsis(os)
    ensures NoSharing(os, apics)
  {
    forall a: nat, b: nat | a < b < LEGACY_IRQS && Effective(os, a).Some? && Effective(os, b).Some?
      ensures Effective(os, a).value.gsi != Effective(os, b).value.gsi
    {
      EffectiveAt(os, a);
      EffectiveAt(os, b);
      var i :| 0 <= i < |os| && os[i] == Effective(os, a).value && os[i].irq == a;
      var j :| 0 <= j < |os| && os[j] == Effective(os, b).value && os[j].irq == b;
    }
  }

  /** Two legacy interrupts get the same redirection entry exactly if both are
      overridden to one global interrupt that is served. */
  lemma {:induction false} RouteClashIff(os: seq<Override>, apics: seq<Apic>, a: nat, b: nat)
    requires a != b
    ensures (Route(os, apics, a).Some? && Route(os, apics, a) == Route(os, apics, b)) <==> Shared(os, apics, a, b)
  {
    GlobalClashIff(os, a, b);
    hide Effective, Server, Claimed;
  }

  /** No redirection entry is meant for two legacy interrupts if and only if no two
      are overridden to the same served one. */
  lemma {:induction false} RoutingIsInjectiveIff(os: seq<Override>, apics: seq<Apic>)
    ensures NoSharing(os, apics) <==>
      forall a: nat, b: nat :: a < b < LEGACY_IRQS && Route(os, apics, a).Some? ==>
        Route(os, apics, a) != Route(os, apics, b)
  {
    forall a: nat, b: nat | a < b < LEGACY_IRQS
      ensures Shared(os, apics, a, b) <==> (Route(os, apics, a).Some? && Route(os, apics, a) == Route(os, apics, b))
    {
      RouteClashIff(os, apics, a, b);
    }
    hide Shared, Route;
  }

  // --------------------------------------------------------------- programming

  function Info(os: seq<Override>, bsp: bv8, irq: nat): MapInfo
    requires irq < LEGACY_IRQS
  {
    var o := Effective(os, irq);
    var level, activeLow := o.Some? && o.value.trigger.Level?, o.Some? && o.value.polarity.ActiveLow?;
    MapInfo(bsp, false, level, activeLow, false, Fixed, (32 + irq) as bv8)
  }

  /** The content of an entry after the first `n` legacy interrupts. */
  function Programmed(os: seq<Override>, apics: seq<Apic>, bsp: bv8, n: nat, slot: Slot, before: bv64): bv64
    requires n <= LEGACY_IRQS
  {
    if n == 0 then before
    else if Route(os, apics, n - 1) == Some(slot) then AsRaw(Info(os, bsp, n - 1))
    else Programmed(os, apics, bsp, n - 1, slot, before)
  }

  /** None of the interrupts after it, up to `n`, gets its entry. */
  ghost predicate Last(os: seq<Override>, apics: seq<Apic>, irq: nat, n: nat) {
    forall j: nat :: irq < j < n ==> Route(os, apics, j) != Route(os, apics, irq)
  }

  lemma {:induction false} VectorsDiffer(a: nat, b: nat)
    requires a < b < LEGACY_IRQS
    ensures (32 + a) as bv8 != (32 + b) as bv8
  {
    assert ((32 + a) as bv8) as int == 32 + a && ((32 + b) as bv8) as int == 32 + b;
  }

  /** Of the interrupts that share an entry it is the last one's: the hardware reads
      back the vector, destination, polarity and trigger of a routed interrupt
      exactly if no later one gets the same entry. */
  lemma {:induction false} EntryIsTheLastOnes(os: seq<Override>, apics: seq<Apic>, bsp: bv8, irq: nat, n: nat,
                                              before: bv64)
    requires irq < n <= LEGACY_IRQS && Route(os, apics, irq).Some?
    ensures Decode(Programmed(os, apics, bsp, n, Route(os, apics, irq).value, before)) == Some(Info(os, bsp, irq)) <==>
      Last(os, apics, irq, n)
    decreases n
  {
    hide Route, AsRaw, Decode;
    if irq == n - 1 {
      EntryRoundTrip(Info(os, bsp, irq));
    } else if Route(os, apics, n - 1) == Route(os, apics, irq) {
      EntryRoundTrip(Info(os, bsp, n - 1));
      VectorsDiffer(irq, n - 1);
    } else {
      EntryIsTheLastOnes(os, apics, bsp, irq, n - 1, before);
    }
  }

  /** After programming, every routed interrupt's entry is its own if and only if
      there is no sharing. */
  lemma {:induction false} EntriesSayWhatWasChosenIff(os: seq<Override>, apics: seq<Apic>, bsp: bv8, before: bv64)
    ensures NoSharing(os, apics) <==>
      forall irq: nat :: irq < LEGACY_IRQS && Route(os, apics, irq).Some? ==>
        Decode(Programmed(os, apics, bsp, LEGACY_IRQS, Route(os, apics, irq).value, before)) == Some(Info(os, bsp, irq))
  {
    hide Route, AsRaw, Decode, Info, NoSharing, Programmed;
    RoutingIsInjectiveIff(os, apics);
    forall irq: nat | irq < LEGACY_IRQS && Route(os, apics, irq).Some?
      ensures Decode(Programmed(os, apics, bsp, LEGACY_IRQS, Route(os, apics, irq).value, before))
        == Some(Info(os, bsp, irq))
        <==> Last(os, apics, irq, LEGACY_IRQS)
    {
      EntryIsTheLastOnes(os, apics, bsp, irq, LEGACY_IRQS, before);
    }
    if a: nat, b: nat :|
      a < b < LEGACY_IRQS && Route(os, apics, a).Some? && Route(os, apics, a) == Route(os, apics, b) {
      assert !Last(os, apics, a, LEGACY_IRQS);
    }
  }

  /** Tables with sharing: interrupts 0 and 1 both overridden to 2. Both are routed
      to entry 2, which ends up as interrupt 1's. */
  lemma {:induction false} SharedEntry(bsp: bv8, before: bv64)
    ensures var os := [Override(0, 2, DefaultPolarity, DefaultTrigger),
                       Override(1, 2, DefaultPolarity, DefaultTrigger)];
      var apics := [Apic(0, 23)];
      && Route(os, apics, 0) == Some(Slot(0, 2)) && Route(os, apics, 1) == Some(Slot(0, 2))
      && Decode(Programmed(os, apics, bsp, LEGACY_IRQS, Slot(0, 2), before)) == Some(Info(os, bsp, 1))
  {
    var o, p := Override(0, 2, DefaultPolarity, DefaultTrigger), Override(1, 2, DefaultPolarity, DefaultTrigger);
    var os, apics := [o, p], [Apic(0, 23)];
    assert os[1..] == [p] && Effective(os, 1) == Effective([p], 1) == Some(p);
    forall j: nat | 1 < j < LEGACY_IRQS ensures Route(os, apics, j) != Some(Slot(0, 2)) {
      assert Effective(os, j) == Effective([p], j) == Effective([], j);
      if j == 2 { assert os[0].gsi == 2; }
    }
    EntryIsTheLastOnes(os, apics, bsp, 1, LEGACY_IRQS, before);
  }

  /** The highest entry of an I/O APIC is never touched. */
  lemma {:induction false} HighestEntryIsLeftOut(os: seq<Override>, apics: seq<Apic>, bsp: bv8, k: nat, n: nat,
                                                 before: bv64)
    requires k < |apics| && n <= LEGACY_IRQS
    ensures Programmed(os, apics, bsp, n, Slot(k, apics[k].count), before) == before
    decreases n
  {
    hide Route;
    if n > 0 { HighestEntryIsLeftOut(os, apics, bsp, k, n - 1, before); }
  }

  // ------------------------------------------------------- what the firmware said

  /** Neither field of the flags is the reserved value. */
  predicate Defined(flags: nat) { flags % 4 != 2 && flags / 4 % 4 != 2 }

  /** The first usable entry of the firmware's list for an interrupt. */
  predicate FirstFor(sources: seq<Source>, irq: nat, k: nat) {
    && k < |sources| && sources[k].irq == irq && Defined(sources[k].flags)
    && forall j :: 0 <= j < k ==> sources[j].irq != irq || !Defined(sources[j].flags)
  }

  lemma {:induction false} EffectiveSnoc(os: seq<Override>, o: Override, irq: nat)
    ensures Effective(os + [o], irq) ==
      if Effective(os, irq).Some? then Effective(os, irq) else if o.irq == irq then Some(o) else None
    decreases |os|
  {
    if os != [] {
      assert (os + [o])[1..] == os[1..] + [o];
      EffectiveSnoc(os[1..], o, irq);
    }
  }

  /** The override in force is the first usable entry, settings and all. */
  lemma {:induction false} EffectiveIsFirst(sources: seq<Source>, irq: nat)
    ensures Effective(Overrides(sources), irq).None? ==> forall k: nat :: !FirstFor(sources, irq, k)
    ensures forall k: nat :: FirstFor(sources, irq, k) ==>
      Effective(Overrides(sources), irq) ==
        Some(Override(irq, sources[k].gsi, PolarityOf(sources[k].flags).value, TriggerOf(sources[k].flags).value))
    decreases |sources|
  {
    if sources != [] {
      var n := |sources| - 1;
      var front, s := sources[..n], sources[n];
      EffectiveIsFirst(front, irq);
      if Defined(s.flags) {
        EffectiveSnoc(Overrides(front),
                      Override(s.irq, s.gsi, PolarityOf(s.flags).value, TriggerOf(s.flags).value), irq);
      }
      assert forall k: nat :: k < n ==> (FirstFor(front, irq, k) <==> FirstFor(sources, irq, k));
      hide Overrides, Effective;
      if FirstFor(sources, irq, n) {
        NoEarlier(sources, irq, n);
      }
    }
  }

  lemma {:induction false} NoEarlier(sources: seq<Source>, irq: nat, n: nat)
    requires FirstFor(sources, irq, n)
    ensures Effective(Overrides(sources[..n]), irq).None?
    decreases n
  {
    NoUsable(sources[..n], irq);
  }

  lemma {:induction false} NoUsable(sources: seq<Source>, irq: nat)
    requires forall j :: 0 <= j < |sources| ==> sources[j].irq != irq || !Defined(sources[j].flags)
    ensures Effective(Overrides(sources), irq).None?
    decreases |sources|
  {
    if sources != [] {
      var front, s := sources[..|sources| - 1], sources[|sources| - 1];
      NoUsable(front, irq);
      if Defined(s.flags) {
        EffectiveSnoc(Overrides(front),
                      Override(s.irq, s.gsi, PolarityOf(s.flags).value, TriggerOf(s.flags).value), irq);
      }
    }
  }

  lemma {:induction false} NoFirstNoUsable(sources: seq<Source>, irq: nat)
    requires forall j: nat :: !FirstFor(sources, irq, j)
    ensures forall j :: 0 <= j < |sources| ==> sources[j].irq != irq || !Defined(sources[j].flags)
    decreases |sources|
  {
    if sources != [] {
      var n := |sources| - 1;
      assert forall k: nat :: k < n ==> (FirstFor(sources[..n], irq, k) <==> FirstFor(sources, irq, k));
      NoFirstNoUsable(sources[..n], irq);
      assert forall j :: 0 <= j < n ==> sources[..n][j] == sources[j];
      assert !FirstFor(sources, irq, n);
    }
  }

  // -------------------------------------------------- which entry each one gets

  /** The global interrupt the firmware's list gives a legacy one: that of its first
      usable override, or its own number unless a usable override has that. */
  ghost predicate Assigned(sources: seq<Source>, irq: nat, g: nat) {
    if exists k: nat :: FirstFor(sources, irq, k)
    then exists k: nat :: FirstFor(sources, irq, k) && sources[k].gsi == g
    else g == irq && forall j :: 0 <= j < |sources| && Defined(sources[j].flags) ==> sources[j].gsi != irq
  }

  /** I/O APIC `k` is the first whose range, the last entry left out, has `g`. */
  predicate FirstWith(apics: seq<Apic>, g: nat, k: nat) {
    && k < |apics| && apics[k].base <= g < (apics[k].base + apics[k].count) % 0x1_0000_0000
    && forall j :: 0 <= j < k ==> !(apics[j].base <= g < (apics[j].base + apics[j].count) % 0x1_0000_0000)
  }

  /** A legacy interrupt is sent to an entry: that of its global interrupt, counted
      from the start of the range. */
  ghost predicate SentTo(sources: seq<Source>, apics: seq<Apic>, irq: nat, slot: Slot) {
    exists g: nat ::
      Assigned(sources, irq, g) && FirstWith(apics, g, slot.apic) && slot.index == g - apics[slot.apic].base
  }

  lemma {:induction false} ClaimedIff(sources: seq<Source>, g: nat)
    ensures Claimed(Overrides(sources), g) <==>
      exists j :: 0 <= j < |sources| && Defined(sources[j].flags) && sources[j].gsi == g
    decreases |sources|
  {
    if sources != [] {
      var n := |sources| - 1;
      var front, s, os := sources[..n], sources[n], Overrides(sources);
      ClaimedIff(front, g);
      var before := Overrides(front);
      if Defined(s.flags) {
        assert os == before + [os[|before|]] && os[|before|].gsi == s.gsi;
        if i :| 0 <= i < |before| && before[i].gsi == g { assert os[i].gsi == g; }
      }
      if j :| 0 <= j < n && Defined(front[j].flags) && front[j].gsi == g { assert sources[j].gsi == g; }
    }
  }

  lemma {:induction false} FirstForIsOne(sources: seq<Source>, irq: nat, j: nat, k: nat)
    requires FirstFor(sources, irq, j) && FirstFor(sources, irq, k)
    ensures j == k
  {
  }

  lemma {:induction false} AssignedIff(sources: seq<Source>, irq: nat, g: nat)
    ensures Global(Overrides(sources), irq) == Some(g) <==> Assigned(sources, irq, g)
  {
    EffectiveIsFirst(sources, irq);
    ClaimedIff(sources, irq);
    hide Overrides, Effective, Claimed;
    if k: nat :| FirstFor(sources, irq, k) {
      if j: nat :| FirstFor(sources, irq, j) && sources[j].gsi == g { FirstForIsOne(sources, irq, j, k); }
    } else {
      NoFirstNoUsable(sources, irq);
      NoUsable(sources, irq);
    }
  }

  lemma {:induction false} ServerIff(apics: seq<Apic>, g: nat, k: nat)
    ensures Server(apics, g) == k && k < |apics| <==> FirstWith(apics, g, k)
  {
    hide Server;
    var s := Server(apics, g);
    assert s < |apics| ==> Serves(apics[s], g);
    assert k < s ==> !Serves(apics[k], g);
  }

  /** The entry computed is the one the firmware's list and the ranges say: a legacy
      interrupt gets one exactly if it is overridden, or no override has its number,
      and some range has its global interrupt; and then the first such range. */
  lemma {:induction false} RouteIff(sources: seq<Source>, apics: seq<Apic>, irq: nat, slot: Slot)
    ensures Route(Overrides(sources), apics, irq) == Some(slot) <==> SentTo(sources, apics, irq, slot)
  {
    hide Overrides, Assigned, Server, Global;
    var os := Overrides(sources);
    if Route(os, apics, irq) == Some(slot) {
      var g := Global(os, irq).value;
      AssignedIff(sources, irq, g);
      ServerIff(apics, g, slot.apic);
    }
    if SentTo(sources, apics, irq, slot) {
      var g: nat :|
        Assigned(sources, irq, g) && FirstWith(apics, g, slot.apic) && slot.index == g - apics[slot.apic].base;
      AssignedIff(sources, irq, g);
      ServerIff(apics, g, slot.apic);
    }
  }

  /** What an entry should say for a legacy interrupt: its vector, unmasked to the
      boot processor; active low and level triggered if its first usable override
      says so. */
  ghost predicate Says(v: bv64, sources: seq<Source>, bsp: bv8, irq: nat)
    requires irq < LEGACY_IRQS
  {
    Decode(v) == Some(MapInfo(bsp, false,
                              exists k: nat :: FirstFor(sources, irq, k) && sources[k].flags / 4 % 4 == 3,
                              exists k: nat :: FirstFor(sources, irq, k) && sources[k].flags % 4 == 3,
                              false, Fixed, (32 + irq) as bv8))
  }

  /** `irq` is the last legacy interrupt sent to the entry. */
  ghost predicate LastSent(sources: seq<Source>, apics: seq<Apic>, irq: nat, slot: Slot) {
    irq < 16 && SentTo(sources, apics, irq, slot)
    && forall j: nat :: irq < j < 16 ==> !SentTo(sources, apics, j, slot)
  }

  lemma {:induction false} InfoIs(sources: seq<Source>, bsp: bv8, irq: nat)
    requires irq < LEGACY_IRQS
    ensures Info(Overrides(sources), bsp, irq) ==
      MapInfo(bsp, false, exists k: nat :: FirstFor(sources, irq, k) && sources[k].flags / 4 % 4 == 3,
              exists k: nat :: FirstFor(sources, irq, k) && sources[k].flags % 4 == 3,
              false, Fixed, (32 + irq) as bv8)
  {
    EffectiveIsFirst(sources, irq);
    hide Overrides, Effective;
    if k: nat :| FirstFor(sources, irq, k) {
      forall j: nat | FirstFor(sources, irq, j) ensures j == k { FirstForIsOne(sources, irq, j, k); }
      hide FirstFor;
    } else {
      NoFirstNoUsable(sources, irq);
      NoUsable(sources, irq);
    }
  }

  lemma {:induction false} UnsentIsUntouched(
      os: seq<Override>, apics: seq<Apic>, bsp: bv8, n: nat, slot: Slot, before: bv64)
    requires n <= LEGACY_IRQS && forall j: nat :: j < n ==> Route(os, apics, j) != Some(slot)
    ensures Programmed(os, apics, bsp, n, slot, before) == before
    decreases n
  {
    hide Route;
    if n > 0 { UnsentIsUntouched(os, apics, bsp, n - 1, slot, before); }
  }

  /** Every entry of every I/O APIC after programming, from the firmware's list and
      the ranges alone: it says what the last interrupt sent there should, and is as
      before if none is. */
  lemma {:induction false} EntriesFollowFirmware(
      sources: seq<Source>, apics: seq<Apic>, bsp: bv8, slot: Slot, before: bv64)
    ensures var v := Programmed(Overrides(sources), apics, bsp, LEGACY_IRQS, slot, before);
      && (forall irq: nat :: LastSent(sources, apics, irq, slot) ==> Says(v, sources, bsp, irq))
      && ((forall irq: nat :: irq < LEGACY_IRQS ==> !SentTo(sources, apics, irq, slot)) ==> v == before)
  {
    var os := Overrides(sources);
    hide Overrides, Route, SentTo, Decode, Info, Programmed;
    forall irq: nat ensures Route(os, apics, irq) == Some(slot) <==> SentTo(sources, apics, irq, slot) {
      RouteIff(sources, apics, irq, slot);
    }
    forall irq: nat | LastSent(sources, apics, irq, slot)
      ensures Says(Programmed(os, apics, bsp, LEGACY_IRQS, slot, before), sources, bsp, irq)
    {
      EntryIsTheLastOnes(os, apics, bsp, irq, LEGACY_IRQS, before);
      InfoIs(sources, bsp, irq);
    }
    if forall irq: nat :: irq < LEGACY_IRQS ==> !SentTo(sources, apics, irq, slot) {
      UnsentIsUntouched(os, apics, bsp, LEGACY_IRQS, slot, before);
    }
  }

  /** From the firmware's list to the hardware's entry: the entry of the last legacy
      interrupt sent there is active low, or level triggered, exactly if the flags of
      the interrupt's first usable override say so, and edge triggered and active
      high if it has none; it goes unmasked to the boot processor with vector 32 plus
      the interrupt's number. */
  lemma {:induction false} EntryMatchesFirmware(
      sources: seq<Source>, apics: seq<Apic>, bsp: bv8, irq: nat, slot: Slot, before: bv64, k: nat)
    requires LastSent(sources, apics, irq, slot)
    ensures var entry := Decode(Programmed(Overrides(sources), apics, bsp, LEGACY_IRQS, slot, before));
      && entry.Some?
      && entry.value.vector == (32 + irq) as bv8 && entry.value.dest == bsp
      && !entry.value.mask && !entry.value.logical && entry.value.delivery.Fixed?
      && (FirstFor(sources, irq, k) ==>
          (entry.value.activeLow <==> sources[k].flags % 4 == 3)
            && (entry.value.level <==> sources[k].flags / 4 % 4 == 3))
      && ((forall j: nat :: !FirstFor(sources, irq, j)) ==> !entry.value.activeLow && !entry.value.level)
  {
    hide Decode, Programmed, Overrides, SentTo;
    EntriesFollowFirmware(sources, apics, bsp, slot, before);
    if FirstFor(sources, irq, k) {
      forall j: nat | FirstFor(sources, irq, j) ensures j == k { FirstForIsOne(sources, irq, j, k); }
    }
  }
}
