/** The hand-off of physical memory from the bootloader to the kernel: which
    regions are recorded, in what order the kernel sees them, and what the
    kernel's allocator can therefore never return. */
module Handoff {
  import opened Regions
  import opened KernelFrames
  import opened PageEnumeration
  import opened MemoryLimit
  import opened BootFrames

  const MAX_REGIONS: nat := 512

  type BootAllocator = BootFrames.LinearIncFrameAllocator

  /** What the bootloader knows when it draws up the list. */
  datatype BootFacts = BootFacts(
    memoryMap: seq<Descriptor>,
    framebuffer: Option<Region>,
    kernel: Region,
    bootstrap: Region,
    localApic: nat,
    ioApics: seq<nat>,
    gdt: nat,
    pageTable: nat)

  /** The descriptors that stay off limits after the bootloader exits. */
  function ReservedRegions(ds: seq<Descriptor>): seq<Region> {
    if ds == [] then []
    else
      var init, d := ReservedRegions(ds[..|ds| - 1]), ds[|ds| - 1];
      if d.UsableAfterExit() then init else init + [Region(d.start, d.Length())]
  }

  function PagesAt(bases: seq<nat>): seq<Region> {
    seq(|bases|, i requires 0 <= i < |bases| => Region(bases[i], PAGE_SIZE))
  }

  /** The bootloader's own memory and the images it loaded. The bootstrap image
      is recorded with the length of the kernel image. */
  function Images(f: BootFacts, taken: Region): seq<Region> {
    [taken]
    + (if f.framebuffer.Some? then [f.framebuffer.value] else [])
    + [f.kernel, Region(f.bootstrap.start, f.kernel.length)]
  }

  function Devices(f: BootFacts): seq<Region> {
    [Region(f.localApic, PAGE_SIZE)]
    + PagesAt(f.ioApics)
    + [Region(f.gdt, PAGE_SIZE), Region(f.pageTable, PAGE_SIZE)]
  }

  /** The list as first drawn up. */
  function Recorded(f: BootFacts, taken: Region): seq<Region> {
    ReservedRegions(f.memoryMap) + Images(f, taken) + Devices(f)
  }

  lemma {:induction false} ReservedOnlyGrows(ds: seq<Descriptor>, n: nat)
    requires n <= |ds|
    ensures |ReservedRegions(ds[..n])| <= |ReservedRegions(ds)|
    decreases |ds| - n
  {
    if n == |ds| {
      assert ds[..n] == ds;
    } else {
      assert ds[..n + 1][..n] == ds[..n];
      ReservedOnlyGrows(ds, n + 1);
    }
  }

  /** The array the regions are written to, with its running index. */
  class RegionMap {
    const regions: array<Region>
    var count: nat

    constructor ()
      ensures Listed() == [] && regions.Length == MAX_REGIONS && fresh(regions)
    {
      regions := new Region[MAX_REGIONS];
      count := 0;
    }

    ghost predicate Valid()
      reads this
    {
      count <= regions.Length == MAX_REGIONS
    }

    ghost function Listed(): seq<Region>
      reads this, regions
    {
      if count <= regions.Length then regions[..count] else []
    }

    method Write(r: Region)
      requires Valid() && count < MAX_REGIONS
      modifies this, regions
      ensures Valid() && Listed() == old(Listed()) + [r]
    {
      regions[count] := r;
      count := count + 1;
    }

    method WriteReserved(ds: seq<Descriptor>)
      requires Valid() && count + |ReservedRegions(ds)| <= MAX_REGIONS
      modifies this, regions
      ensures Valid() && Listed() == old(Listed()) + ReservedRegions(ds)
    {
      ghost var before := Listed();
      for n := 0 to |ds|
        invariant Valid() && Listed() == before + ReservedRegions(ds[..n])
      {
        ReservedOnlyGrows(ds, n + 1);
        assert ds[..n + 1][..n] == ds[..n];
        if !ds[n].UsableAfterExit() {
          Write(Region(ds[n].start, ds[n].Length()));
        }
      }
      assert ds[..|ds|] == ds;
    }

    method WritePages(bases: seq<nat>)
      requires Valid() && count + |bases| <= MAX_REGIONS
      modifies this, regions
      ensures Valid() && Listed() == old(Listed()) + PagesAt(bases)
    {
      ghost var before := Listed();
      for n := 0 to |bases|
        invariant Valid() && Listed() == before + PagesAt(bases)[..n]
      {
        Write(Region(bases[n], PAGE_SIZE));
      }
    }

    method WriteImages(f: BootFacts, taken: Region)
      requires Valid() && count + |Images(f, taken)| <= MAX_REGIONS
      modifies this, regions
      ensures Valid() && Listed() == old(Listed()) + Images(f, taken)
    {
      Write(taken);
      if f.framebuffer.Some? {
        Write(f.framebuffer.value);
      }
      Write(f.kernel);
      Write(Region(f.bootstrap.start, f.kernel.length));
    }

    method WriteDevices(f: BootFacts)
      requires Valid() && count + |Devices(f)| <= MAX_REGIONS
      modifies this, regions
      ensures Valid() && Listed() == old(Listed()) + Devices(f)
    {
      Write(Region(f.localApic, PAGE_SIZE));
      WritePages(f.ioApics);
      Write(Region(f.gdt, PAGE_SIZE));
      Write(Region(f.pageTable, PAGE_SIZE));
    }

    /** Draw up the list. */
    method Construct(f: BootFacts, taken: Region)
      requires Valid() && count == 0 && |Recorded(f, taken)| <= MAX_REGIONS
      modifies this, regions
      ensures Valid() && Listed() == Recorded(f, taken)
    {
      hide ReservedRegions, Images, Devices;
      WriteReserved(f.memoryMap);
      WriteImages(f, taken);
      WriteDevices(f);
    }

    /** Record the kernel argument and, once more, everything allocated; then
        sort the list by start address. */
    method Finish(argument: Region, taken: Region)
      requires Valid() && count + 2 <= MAX_REGIONS
      modifies this, regions
      ensures Valid() && Sorts(old(Listed()) + [argument, taken], Listed())
    {
      Write(argument);
      Write(taken);
      assert old(Listed()) + [argument] + [taken] == old(Listed()) + [argument, taken];
      hide Sorts;
      SortList();
    }

    method SortList()
      requires Valid()
      modifies regions
      ensures Sorts(old(Listed()), Listed())
    {
      hide SortRegions, SortedByStart;
      ghost var before := Listed();
      var sorted := SortRegions(regions[..count]);
      SortKeeps(before);
      SortSorts(before);
      forall i | 0 <= i < count { regions[i] := sorted[i]; }
      assert regions[..count] == sorted;
    }
  }

  // ---------------------------------------------------------------- sorting

  /** `ss` is `rs` in order of start addresses; equal ones may be either way around. */
  ghost predicate Sorts(rs: seq<Region>, ss: seq<Region>) {
    multiset(ss) == multiset(rs) && SortedByStart(ss)
  }

  function Insert(r: Region, rs: seq<Region>): seq<Region> {
    if rs == [] || r.start <= rs[0].start then [r] + rs else [rs[0]] + Insert(r, rs[1..])
  }

  function SortRegions(rs: seq<Region>): seq<Region> {
    if rs == [] then [] else Insert(rs[0], SortRegions(rs[1..]))
  }

  lemma {:induction false} InsertKeeps(r: Region, rs: seq<Region>)
    ensures multiset(Insert(r, rs)) == multiset(rs) + multiset{r}
    ensures |Insert(r, rs)| == |rs| + 1
  {
    if !(rs == [] || r.start <= rs[0].start) {
      InsertKeeps(r, rs[1..]);
      assert rs == [rs[0]] + rs[1..];
    }
  }

  lemma {:induction false} InsertSorts(r: Region, rs: seq<Region>)
    requires SortedByStart(rs)
    ensures SortedByStart(Insert(r, rs))
  {
    if !(rs == [] || r.start <= rs[0].start) {
      InsertSorts(r, rs[1..]);
      var t := Insert(r, rs[1..]);
      forall i | 0 <= i < |t| ensures rs[0].start <= t[i].start {
        InsertKeeps(r, rs[1..]);
        assert t[i] in multiset(t);
        assert t[i] == r || t[i] in rs[1..];
      }
    }
  }

  lemma {:induction false} SortKeeps(rs: seq<Region>)
    ensures multiset(SortRegions(rs)) == multiset(rs) && |SortRegions(rs)| == |rs|
  {
    if rs != [] {
      SortKeeps(rs[1..]);
      InsertKeeps(rs[0], SortRegions(rs[1..]));
      assert rs == [rs[0]] + rs[1..];
    }
  }

  lemma {:induction false} SortSorts(rs: seq<Region>)
    ensures SortedByStart(SortRegions(rs))
  {
    if rs != [] {
      SortSorts(rs[1..]);
      InsertSorts(rs[0], SortRegions(rs[1..]));
    }
  }

  lemma {:induction false} SortCovers(rs: seq<Region>, ss: seq<Region>, a: int)
    requires multiset(ss) == multiset(rs)
    ensures InSome(ss, a) <==> InSome(rs, a)
  {
    if InSome(ss, a) {
      var i :| 0 <= i < |ss| && ss[i].Holds(a);
      assert ss[i] in multiset(rs);
      var j :| 0 <= j < |rs| && rs[j] == ss[i];
    }
    if InSome(rs, a) {
      var i :| 0 <= i < |rs| && rs[i].Holds(a);
      assert rs[i] in multiset(ss);
      var j :| 0 <= j < |ss| && ss[j] == rs[i];
    }
  }

  lemma {:induction false} SortedLength(rs: seq<Region>, ss: seq<Region>)
    requires Sorts(rs, ss)
    ensures |ss| == |rs|
  {
    assert |multiset(ss)| == |multiset(rs)|;
  }

  // ------------------------------------------------------------ the hand-off

  /** Where the kernel's allocator starts on a list of regions. */
  function KernelStart(rs: seq<Region>): (c: Cursor)
    requires |rs| >= 1
    ensures c.index <= |Merge(rs)|
  {
    Cursor(InitialIndex(Merge(rs), FIRST_FRAME), FIRST_FRAME)
  }

  /** Over any run of the kernel's allocator no block meets any recorded region,
      whichever way the list was sorted. */
  lemma {:induction false} KernelAvoidsRecorded(rs: seq<Region>, ss: seq<Region>, counts: seq<nat>, k: nat, a: int)
    requires |rs| >= 1 && Sorts(rs, ss) && forall i :: 0 <= i < |counts| ==> counts[i] >= 1
    requires k < |counts|
    ensures |ss| >= 1
    ensures Run(Merge(ss), KernelStart(ss), PAGE_SIZE, counts)[k].Contains(a) ==> 0x100000 <= a && !InSome(rs, a)
  {
    SortedLength(rs, ss);
    MergeIsUnion(ss);
    InitialIndexIsExact(Merge(ss), FIRST_FRAME);
    RunIsSafe(Merge(ss), KernelStart(ss), PAGE_SIZE, counts);
    SortCovers(rs, ss, a);
  }

  // -------------------------------------------- what the recorded list covers

  lemma {:induction false} InSomeConcat(rs: seq<Region>, ss: seq<Region>, a: int)
    ensures InSome(rs + ss, a) <==> InSome(rs, a) || InSome(ss, a)
  {
    var all := rs + ss;
    if InSome(rs, a) {
      var i :| 0 <= i < |rs| && rs[i].Holds(a);
      assert all[i].Holds(a);
    }
    if InSome(ss, a) {
      var i :| 0 <= i < |ss| && ss[i].Holds(a);
      assert all[|rs| + i].Holds(a);
    }
  }

  lemma {:induction false} ReservedCovers(ds: seq<Descriptor>, a: int)
    ensures InSome(ReservedRegions(ds), a) <==>
      exists i :: 0 <= i < |ds| && ds[i].kind.Reserved? && ds[i].start <= a < ds[i].start + ds[i].pages * 4096
  {
    if ds != [] {
      var init, d := ds[..|ds| - 1], ds[|ds| - 1];
      ReservedCovers(init, a);
      InSomeConcat(ReservedRegions(init), [Region(d.start, d.Length())], a);
      assert InSome([Region(d.start, d.Length())], a) <==> Region(d.start, d.Length()).Holds(a) by {
        assert [Region(d.start, d.Length())][0].Holds(a) <==> Region(d.start, d.Length()).Holds(a);
      }
      assert forall i :: 0 <= i < |init| ==> init[i] == ds[i];
    }
  }

  /** The page at `start` holds the byte. */
  predicate OnPageAt(start: nat, a: int) { start <= a < start + 4096 }

  /** A byte of the local APIC's page, of an I/O APIC's, of the descriptor table's or
      of the page table's. */
  ghost predicate OnDevice(f: BootFacts, a: int) {
    || OnPageAt(f.localApic, a)
    || (exists i :: 0 <= i < |f.ioApics| && OnPageAt(f.ioApics[i], a))
    || OnPageAt(f.gdt, a)
    || OnPageAt(f.pageTable, a)
  }

  lemma {:induction false} PagesAtCover(bases: seq<nat>, a: int)
    ensures InSome(PagesAt(bases), a) <==> exists i :: 0 <= i < |bases| && OnPageAt(bases[i], a)
  {
    var rs := PagesAt(bases);
    assert forall i :: 0 <= i < |bases| ==> (rs[i].Holds(a) <==> OnPageAt(bases[i], a));
    if i :| 0 <= i < |bases| && OnPageAt(bases[i], a) { assert rs[i].Holds(a); }
  }

  lemma {:induction false} DevicesCover(f: BootFacts, a: int)
    ensures InSome(Devices(f), a) <==> OnDevice(f, a)
  {
    var first, last := [Region(f.localApic, PAGE_SIZE)], [Region(f.gdt, PAGE_SIZE), Region(f.pageTable, PAGE_SIZE)];
    InSomeConcat(first + PagesAt(f.ioApics), last, a);
    InSomeConcat(first, PagesAt(f.ioApics), a);
    PagesAtCover(f.ioApics, a);
    hide PagesAt;
    assert first[0].Holds(a) <==> OnPageAt(f.localApic, a);
    assert last[0].Holds(a) <==> OnPageAt(f.gdt, a);
    assert last[1].Holds(a) <==> OnPageAt(f.pageTable, a);
  }

  /** The first list covers every byte the firmware reserves, everything
      allocated by then, the framebuffer, the kernel image and as many bytes of
      the bootstrap image as the kernel image has, the pages of the local APIC, of
      every I/O APIC, of the descriptor table and of the page table, and nothing
      but those. */
  lemma {:induction false} RecordedCovers(f: BootFacts, taken: Region, a: int)
    ensures InSome(Recorded(f, taken), a) <==>
      || (exists i :: 0 <= i < |f.memoryMap| && f.memoryMap[i].kind.Reserved?
            && f.memoryMap[i].start <= a < f.memoryMap[i].start + f.memoryMap[i].pages * 4096)
      || taken.Holds(a) || (f.framebuffer.Some? && f.framebuffer.value.Holds(a))
      || f.kernel.Holds(a) || Region(f.bootstrap.start, f.kernel.length).Holds(a)
      || OnPageAt(f.localApic, a) || (exists i :: 0 <= i < |f.ioApics| && OnPageAt(f.ioApics[i], a))
      || OnPageAt(f.gdt, a) || OnPageAt(f.pageTable, a)
  {
    DevicesCover(f, a);
    hide Devices;
    ReservedCovers(f.memoryMap, a);
    InSomeConcat(ReservedRegions(f.memoryMap) + Images(f, taken), Devices(f), a);
    InSomeConcat(ReservedRegions(f.memoryMap), Images(f, taken), a);
    var images := Images(f, taken);
    assert images[0] == taken;
    assert images[|images| - 2] == f.kernel && images[|images| - 1] == Region(f.bootstrap.start, f.kernel.length);
    if f.framebuffer.Some? { assert images[1] == f.framebuffer.value; }
  }

  /** Hand-off safety. Whatever the firmware's map, whatever the bootloader
      allocated and recorded, and however it sorted the list, no block the kernel's
      allocator returns in any run has a byte below one megabyte, in a frame the bootloader's allocator
      ever returned, in memory the firmware reserves, in the framebuffer, the kernel
      image or the kernel argument, on the page of an interrupt controller, of the
      descriptor table or of the page table, or in the piece of the bootstrap image
      that is recorded. */
  lemma {:induction false} HandoffIsSafe(
      boot: BootAllocator, f: BootFacts, early: Region, argument: Region, ss: seq<Region>,
      counts: seq<nat>, k: nat, a: int)
    requires boot.Valid() && Sorts(Recorded(f, early) + [argument, boot.Allocated()], ss)
    requires forall i :: 0 <= i < |counts| ==> counts[i] >= 1
    requires k < |counts|
    ensures |ss| >= 1 &&
      (Run(Merge(ss), KernelStart(ss), PAGE_SIZE, counts)[k].Contains(a) ==>
        && 0x100000 <= a
        && (forall h :: 0 <= h < |boot.handed| ==> !OnPageAt(boot.handed[h] * 4096, a))
        && (forall i :: 0 <= i < |f.memoryMap| && f.memoryMap[i].kind.Reserved? ==>
              !(f.memoryMap[i].start <= a < f.memoryMap[i].start + f.memoryMap[i].pages * 4096))
        && !f.kernel.Holds(a) && !argument.Holds(a) && (f.framebuffer.Some? ==> !f.framebuffer.value.Holds(a))
        && !(f.bootstrap.start <= a < f.bootstrap.start + f.kernel.length)
        && !OnPageAt(f.localApic, a) && (forall i :: 0 <= i < |f.ioApics| ==> !OnPageAt(f.ioApics[i], a))
        && !OnPageAt(f.gdt, a) && !OnPageAt(f.pageTable, a))
  {
    var rs := Recorded(f, early) + [argument, boot.Allocated()];
    KernelAvoidsRecorded(rs, ss, counts, k, a);
    RecordedCovers(f, early, a);
    hide Recorded, Run, Merge, KernelStart;
    InSomeConcat(Recorded(f, early), [argument, boot.Allocated()], a);
    assert rs[|rs| - 1] == boot.Allocated() && rs[|rs| - 2] == argument;
    assert boot.Allocated().Holds(a) ==> InSome(rs, a);
    assert argument.Holds(a) ==> InSome(rs, a);
  }

  /** Its own entry covers the bootstrap image exactly when that image is no
      longer than the kernel image. */
  lemma {:induction false} BootstrapEntryCovers(f: BootFacts)
    ensures f.bootstrap.length <= f.kernel.length <==>
      forall a :: f.bootstrap.Holds(a) ==> Region(f.bootstrap.start, f.kernel.length).Holds(a)
  {
    if f.bootstrap.length > f.kernel.length {
      assert f.bootstrap.Holds(f.bootstrap.start + f.kernel.length);
    }
  }

  /** The pages the kernel hands out, by single frames and by requests of any
      sizes alike, are exactly those that no entry touches and that are not lost in
      the rest of a page, so the uncovered tail of a bootstrap image that is longer
      than the kernel is handed out again. */
  lemma {:induction false} KernelHandsOutTheRest(rs: seq<Region>, ss: seq<Region>, p: nat)
    requires |rs| >= 1 && Sorts(rs, ss) && forall r :: r in rs ==> r.length > 0
    ensures |ss| >= 1
    ensures (exists counts: seq<nat>, k: nat :: HandsOut(Merge(ss), KernelStart(ss), counts, k, p)) <==>
      Returned(Merge(ss), KernelStart(ss), p)
    ensures Returned(Merge(ss), KernelStart(ss), p) <==>
      0x100000 <= p && Aligned(p) && !Lost(Merge(ss), KernelStart(ss).index, FIRST_FRAME, p)
      && forall a :: p <= a < p + PAGE_SIZE ==> !InSome(rs, a)
  {
    hide Returned, Lost, HandsOut;
    SortedLength(rs, ss);
    forall i | 0 <= i < |ss| ensures ss[i].length > 0 {
      assert ss[i] in multiset(rs);
    }
    RegionsEnumerateTheRest(ss, p);
    KernelStartIsReady(ss);
    RunsHandOutReturned(Merge(ss), KernelStart(ss), p);
    forall a ensures InSome(ss, a) <==> InSome(rs, a) { SortCovers(rs, ss, a); }
  }

  lemma {:induction false} KernelStartIsReady(ss: seq<Region>)
    requires |ss| >= 1 && SortedByStart(ss) && forall i :: 0 <= i < |ss| ==> ss[i].length > 0
    ensures Ready(Merge(ss), KernelStart(ss))
  {
    MergeIsUnion(ss);
    MergeKeepsNonEmpty(ss);
    InitialIndexIsExact(Merge(ss), FIRST_FRAME);
  }

  /** A boot in which that happens: one conventional descriptor of 1024 pages, the
      first half of which the bootloader takes for page tables, its own and the
      kernel's first, the descriptor table and the kernel stack, and one of boot
      services data with a kernel image of one page, a bootstrap image of three and
      the kernel argument. The page at 0x502000 belongs to the bootstrap image, and
      is handed out however the list is sorted. */
  function TailFacts(): BootFacts {
    BootFacts([Descriptor(0x100000, 0x400, Conventional), Descriptor(0x500000, 0x20, BootServicesData)], None,
              Region(0x500000, 0x1000), Region(0x501000, 0x3000), 0xfee00000, [], 0x110000, 0x101000)
  }

  function TailList(): seq<Region> {
    Recorded(TailFacts(), Region(0x100000, 0x200000)) + [Region(0x510000, 0x4000), Region(0x100000, 0x204000)]
  }

  lemma {:induction false} BootstrapTailIsHandedOut(ss: seq<Region>)
    requires Sorts(TailList(), ss)
    ensures TailFacts().bootstrap.Holds(0x502000)
    ensures |ss| >= 1 && Returned(Merge(ss), KernelStart(ss), 0x502000)
  {
    var rs := TailList();
    TailListMisses();
    hide Merge, InitialIndex, Returned, TailList;
    SortedLength(rs, ss);
    forall i | 0 <= i < |ss| ensures ss[i].length > 0 && Aligned(ss[i].End()) {
      assert ss[i] in multiset(rs);
    }
    AlignedRegionsEnumerateAll(ss, 0x502000);
    forall a | 0x502000 <= a < 0x503000 ensures !InSome(ss, a) {
      SortCovers(rs, ss, a);
    }
  }

  lemma {:induction false} TailListMisses()
    ensures |TailList()| == 8
    ensures forall r :: r in TailList() ==>
      r.length > 0 && Aligned(r.End()) && (r.End() <= 0x502000 || 0x503000 <= r.start)
  {
    TailListIs();
    hide TailList;
  }

  lemma {:induction false} TailListIs()
    ensures TailList() ==
      [Region(0x100000, 0x200000), Region(0x500000, 0x1000), Region(0x501000, 0x1000), Region(0xfee00000, 0x1000),
       Region(0x110000, 0x1000), Region(0x101000, 0x1000), Region(0x510000, 0x4000), Region(0x100000, 0x204000)]
  {
    var ds := TailFacts().memoryMap;
    assert [] + [ds[0]] == [ds[0]] && [ds[0]] + [ds[1]] == ds;
    UsableAddsNothing([], ds[0]);
    UsableAddsNothing([ds[0]], ds[1]);
    hide ReservedRegions;
  }

  lemma {:induction false} UsableAddsNothing(ds: seq<Descriptor>, d: Descriptor)
    requires d.UsableAfterExit()
    ensures ReservedRegions(ds + [d]) == ReservedRegions(ds) && ReservedRegions([]) == []
  {
    assert (ds + [d])[..|ds|] == ds;
  }
}
