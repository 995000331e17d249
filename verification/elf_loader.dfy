/** The two ELF loaders. Both end in the same image: the file's bytes, zeroed
    tails, and the relocated words. */
module ElfLoader {
  import opened Regions
  import opened CopyOnWrite
  import opened ElfImage

  // ------------------------------------------------- growing an address space

  /** From `m` to `n` exactly the pages lo..hi were added, with these flags up to
      the copy mark; nothing changed elsewhere. */
  ghost predicate Grown(m: Mem, n: Mem, lo: nat, hi: nat, flags: Flags) {
    && (forall p :: p in n.table <==> p in m.table || lo <= p < hi)
    && (forall p :: p in m.table ==> !(lo <= p < hi) && n.table[p] == m.table[p])
    && (forall p :: lo <= p < hi ==> n.table[p].flags.(copied := false) == flags)
    && (forall a: nat :: !(lo <= PageOf(a) < hi) ==> View(n, a) == View(m, a))
  }

  /** One more page on top. */
  lemma {:induction false} GrownByOne(m: Mem, n: Mem, o: Mem, lo: nat, p: nat, e: Entry, content: seq<Byte>,
                                      flags: Flags)
    requires lo <= p && Grown(m, n, lo, p, flags) && p !in n.table && |content| == PAGE_SIZE
    requires o.table == n.table[p := e] && e.flags == flags && !flags.copied
    requires Extended(n, o, p, content)
    ensures Grown(m, o, lo, p + 1, flags)
  {
    forall a: nat | !(lo <= PageOf(a) < p + 1) ensures View(o, a) == View(m, a) {
      assert View(o, a) == View(n, a);
    }
  }

  /** A store into the added pages. */
  lemma {:induction false} GrownThenStored(m: Mem, n: Mem, o: Mem, lo: nat, hi: nat, flags: Flags, addr: nat,
                                           bytes: seq<Byte>)
    requires Grown(m, n, lo, hi, flags) && lo <= PageOf(addr) < hi && addr % PAGE_SIZE + |bytes| <= PAGE_SIZE
    requires Overwritten(n, o, addr, bytes) && o.table.Keys == n.table.Keys
    requires forall p :: p in n.table ==> o.table[p].flags.(copied := false) == n.table[p].flags.(copied := false)
    requires forall p :: p in n.table && p != PageOf(addr) ==> o.table[p] == n.table[p]
    ensures Grown(m, o, lo, hi, flags)
  {
    forall a: nat | !(lo <= PageOf(a) < hi) ensures View(o, a) == View(m, a) {
      assert addr <= a < addr + |bytes| ==> PageOf(a) == PageOf(addr);
      assert View(o, a) == View(n, a);
    }
  }

  lemma {:induction false} CopyAndStoreKeepsFlags(m: Mem, addr: nat, bytes: seq<Byte>)
    requires Backed(m) && addr % PAGE_SIZE + |bytes| <= PAGE_SIZE && CopyAndStore(m, addr, bytes).Some?
    ensures var n := CopyAndStore(m, addr, bytes).value;
      && n.table.Keys == m.table.Keys
      && (forall p :: p in m.table ==> n.table[p].flags.(copied := false) == m.table[p].flags.(copied := false))
      && (forall p :: p in m.table && p != PageOf(addr) ==> n.table[p] == m.table[p])
  {
  }

  lemma {:induction false} WriteSpanKeepsFlags(m: Mem, addr: nat, buf: seq<Byte>)
    requires Backed(m) && WriteSpan(m, addr, buf).Some?
    ensures var n := WriteSpan(m, addr, buf).value;
      && n.table.Keys == m.table.Keys
      && (forall p :: p in m.table ==> n.table[p].flags.(copied := false) == m.table[p].flags.(copied := false))
    decreases |buf|
  {
    hide CopyAndStore;
    if buf != [] {
      var k := InPage(addr, |buf|);
      CopyAndStoreKeepsFlags(m, addr, buf[..k]);
      WriteSpanKeepsFlags(CopyAndStore(m, addr, buf[..k]).value, addr + k, buf[k..]);
    }
  }

  // ------------------------------------------------------ what a segment shows

  function SegmentFlags(pl: Placement, h: Header): Flags {
    Flags(h.writable, !h.executable, pl.mode.Kernel?, false)
  }

  /** The addresses from `from` up to `to` of a segment show what the file promises. */
  ghost predicate Shows(m: Mem, elf: Elf, pl: Placement, h: Header, from: nat, to: nat)
    requires Loadable(elf, pl, h)
  {
    forall a: nat :: InSegment(pl, h, a) && from <= a < to ==> View(m, a) == Some(SegmentByte(elf, pl, h, a))
  }

  function Zeros(n: nat): (z: seq<Byte>)
    ensures |z| == n && forall i :: 0 <= i < n ==> z[i] == 0
  {
    seq(n, i => 0)
  }

  /** The file frame behind page `p` of a segment. */
  function SourceFrame(pl: Placement, h: Header, p: nat): int
    requires Placeable(pl, h.vaddr)
  {
    pl.firstFrame + h.offset / PAGE_SIZE + p - FirstPage(pl, h)
  }

  /** The last page the file part of a segment is mapped to, end exclusive. */
  function FilePagesEnd(pl: Placement, h: Header): int
    requires Placeable(pl, h.vaddr)
  {
    FirstPage(pl, h) + (pl.firstFrame * PAGE_SIZE + h.offset + h.fileSize - 1) / PAGE_SIZE
      - (pl.firstFrame * PAGE_SIZE + h.offset) / PAGE_SIZE + 1
  }

  /** Either the file part ends its last page, or its end lies in that page. */
  lemma {:induction false} FilePagesAreExact(elf: Elf, pl: Placement, h: Header)
    requires Loadable(elf, pl, h)
    ensures FilePagesEnd(pl, h) == (FileEnd(pl, h) + PAGE_SIZE - 1) / PAGE_SIZE
    ensures FirstPage(pl, h) <= FilePagesEnd(pl, h) <= EndPage(pl, h)
    ensures FileEnd(pl, h) % PAGE_SIZE != 0 ==> PageOf(FileEnd(pl, h)) == FilePagesEnd(pl, h) - 1
  {
  }

  /** Some byte of the file lies in the frame of each page of the file part. */
  lemma {:induction false} SourcePageResident(elf: Elf, pl: Placement, h: Header, src: map<nat, seq<Byte>>, p: nat)
    requires Loadable(elf, pl, h) && Resident(elf, pl, src)
    requires FirstPage(pl, h) <= p < FilePagesEnd(pl, h)
    ensures SourceFrame(pl, h, p) >= 0 && SourceFrame(pl, h, p) in src && |src[SourceFrame(pl, h, p)]| == PAGE_SIZE
  {
    FilePagesAreExact(elf, pl, h);
    var s := Start(pl, h);
    var b := if p > FirstPage(pl, h) then p * PAGE_SIZE else if h.fileSize > 0 then s else s - 1;
    SourceIndex(elf, pl, h, p, b);
  }

  lemma {:induction false} SourcePageShows(elf: Elf, pl: Placement, h: Header, src: map<nat, seq<Byte>>, p: nat, a: nat)
    requires Loadable(elf, pl, h) && Resident(elf, pl, src)
    requires PageOf(a) == p && Start(pl, h) <= a < FileEnd(pl, h)
    ensures SourceFrame(pl, h, p) in src && |src[SourceFrame(pl, h, p)]| == PAGE_SIZE
    ensures src[SourceFrame(pl, h, p)][a % PAGE_SIZE] == elf.bytes[h.offset + a - Start(pl, h)]
  {
    SourceIndex(elf, pl, h, p, a);
  }

  lemma {:induction false} SourceIndex(elf: Elf, pl: Placement, h: Header, p: nat, a: nat)
    requires Loadable(elf, pl, h) && PageOf(a) == p
    requires h.offset + a >= Start(pl, h)
    ensures var i := h.offset + a - Start(pl, h);
      pl.firstFrame + i / PAGE_SIZE == SourceFrame(pl, h, p) && i % PAGE_SIZE == a % PAGE_SIZE
  {
    var s := Start(pl, h);
    assert s == PageOf(s) * PAGE_SIZE + s % PAGE_SIZE && a == p * PAGE_SIZE + a % PAGE_SIZE;
    assert h.offset == h.offset / PAGE_SIZE * PAGE_SIZE + s % PAGE_SIZE;
    var i := h.offset + a - s;
    assert i == (h.offset / PAGE_SIZE + p - PageOf(s)) * PAGE_SIZE + a % PAGE_SIZE;
  }

  /** Mapping the file's page makes the bytes up to its end show. */
  lemma {:induction false} FilePageShows(m: Mem, n: Mem, elf: Elf, pl: Placement, h: Header, src: map<nat, seq<Byte>>,
                                         p: nat)
    requires Loadable(elf, pl, h) && Resident(elf, pl, src)
    requires FirstPage(pl, h) <= p < FilePagesEnd(pl, h)
    requires Shows(m, elf, pl, h, 0, Min(p * PAGE_SIZE, FileEnd(pl, h)))
    requires SourceFrame(pl, h, p) in src && |src[SourceFrame(pl, h, p)]| == PAGE_SIZE
    requires Extended(m, n, p, src[SourceFrame(pl, h, p)])
    ensures Shows(n, elf, pl, h, 0, Min((p + 1) * PAGE_SIZE, FileEnd(pl, h)))
  {
    hide Resident, FilePagesEnd;
    forall a: nat | InSegment(pl, h, a) && a < Min((p + 1) * PAGE_SIZE, FileEnd(pl, h))
      ensures View(n, a) == Some(SegmentByte(elf, pl, h, a))
    {
      if PageOf(a) == p {
        SourcePageShows(elf, pl, h, src, p, a);
      } else {
        assert View(n, a) == View(m, a);
      }
    }
  }

  /** Clearing from the file end to the page end. */
  lemma {:induction false} TailShows(m: Mem, n: Mem, elf: Elf, pl: Placement, h: Header)
    requires Loadable(elf, pl, h) && Shows(m, elf, pl, h, 0, FileEnd(pl, h))
    requires Overwritten(m, n, FileEnd(pl, h), Zeros(PAGE_SIZE - FileEnd(pl, h) % PAGE_SIZE))
    ensures Shows(n, elf, pl, h, 0, (PageOf(FileEnd(pl, h)) + 1) * PAGE_SIZE)
  {
    var e, z := FileEnd(pl, h), Zeros(PAGE_SIZE - FileEnd(pl, h) % PAGE_SIZE);
    forall a: nat | InSegment(pl, h, a) && a < (PageOf(e) + 1) * PAGE_SIZE
      ensures View(n, a) == Some(SegmentByte(elf, pl, h, a))
    {
      assert (PageOf(e) + 1) * PAGE_SIZE == e + |z|;
      assert View(n, a) == if e <= a < e + |z| then Some(z[a - e]) else View(m, a);
    }
  }

  /** A page of zeros behind the file part. */
  lemma {:induction false} ZeroPageShows(m: Mem, n: Mem, elf: Elf, pl: Placement, h: Header, p: nat)
    requires Loadable(elf, pl, h) && FileEnd(pl, h) <= p * PAGE_SIZE
    requires Shows(m, elf, pl, h, 0, p * PAGE_SIZE) && Extended(m, n, p, Zeros(PAGE_SIZE))
    ensures Shows(n, elf, pl, h, 0, (p + 1) * PAGE_SIZE)
  {
    forall a: nat | InSegment(pl, h, a) && a < (p + 1) * PAGE_SIZE
      ensures View(n, a) == Some(SegmentByte(elf, pl, h, a))
    {
      if PageOf(a) != p { assert View(n, a) == View(m, a); }
    }
  }

  // ------------------------------------------------------------- the loaders

  class Loader {
    const elf: Elf
    const pl: Placement
    const space: AddressSpace

    ghost predicate Valid()
      reads this, space
    {
      space.Valid() && Resident(elf, pl, space.source) && (pl.mode.Bootloader? ==> space.direct)
    }

    constructor (elf: Elf, pl: Placement, space: AddressSpace)
      requires space.Valid() && Resident(elf, pl, space.source) && (pl.mode.Bootloader? ==> space.direct)
      ensures Valid() && this.elf == elf && this.pl == pl && this.space == space
    {
      this.elf, this.pl, this.space := elf, pl, space;
    }

    /** Make `page` show one frame of the file: mapped in place by the
        bootloader, copied into a fresh frame by the kernel. */
    method MapFilePage(page: nat, frame: nat, flags: Flags) returns (ok: bool)
      requires Valid() && frame in space.source && !flags.copied
      modifies space
      ensures |space.source[frame]| == PAGE_SIZE
      ensures ok ==> Valid() && page !in old(space.table) && page in space.table && space.table[page].flags == flags
      ensures ok ==> space.table == old(space.table)[page := space.table[page]]
      ensures ok ==> Extended(old(space.State()), space.State(), page, space.source[frame])
      ensures ok && pl.mode.Bootloader? ==> space.table[page].frame == frame && space.pool == old(space.pool)
      ensures ok ==> |space.pool| + 1 >= |old(space.pool)|
      ensures page !in old(space.table) && |old(space.pool)| >= 1 ==> ok
    {
      MapSourceIsPage(space.State(), space.source, frame);
      match pl.mode {
        case Bootloader =>
          ghost var before := space.State();
          ok := space.MapTo(page, frame, flags);
          if ok { MapSourceExtends(before, space.source, page, frame, flags); }
        case Kernel =>
          ghost var before := space.State();
          ok := space.MapNewFrame(page, space.phys[frame], flags);
          if ok { MapFreshExtends(before, space.source, page, before.phys[frame], flags); }
      }
    }

    /** One page of the file part, on top of what is there. */
    method MapNextFilePage(h: Header, page: nat, frame: nat, ghost m0: Mem) returns (ok: bool)
      requires Valid() && Loadable(elf, pl, h) && FirstPage(pl, h) <= page < FilePagesEnd(pl, h)
      requires frame == SourceFrame(pl, h, page)
      requires Grown(m0, space.State(), FirstPage(pl, h), page, SegmentFlags(pl, h))
      requires Shows(space.State(), elf, pl, h, 0, Min(page * PAGE_SIZE, FileEnd(pl, h)))
      modifies space
      ensures ok ==> Valid() && |space.pool| + 1 >= |old(space.pool)|
      ensures ok ==> Grown(m0, space.State(), FirstPage(pl, h), page + 1, SegmentFlags(pl, h))
      ensures ok ==> Shows(space.State(), elf, pl, h, 0, Min((page + 1) * PAGE_SIZE, FileEnd(pl, h)))
      ensures ok && pl.mode.Bootloader? ==> space.pool == old(space.pool)
      ensures page !in m0.table && |old(space.pool)| >= 1 ==> ok
    {
      hide Inv, Resident, Extended, Shows;
      SourcePageResident(elf, pl, h, space.source, page);
      ghost var n := space.State();
      ok := MapFilePage(page, frame, SegmentFlags(pl, h));
      if ok {
        GrownByOne(m0, n, space.State(), FirstPage(pl, h), page,
                   space.table[page], space.source[frame], SegmentFlags(pl, h));
        FilePageShows(n, space.State(), elf, pl, h, space.source, page);
      }
    }

    /** Map the pages that hold file bytes; the bootloader needs no frames for it. */
    method MapFilePart(h: Header) returns (ok: bool)
      requires Valid() && Loadable(elf, pl, h)
      modifies space
      ensures ok ==> Valid() && |space.pool| + FilePagesEnd(pl, h) - FirstPage(pl, h) >= |old(space.pool)|
      ensures ok ==> Grown(old(space.State()), space.State(),
                           FirstPage(pl, h), FilePagesEnd(pl, h), SegmentFlags(pl, h))
      ensures ok ==> Shows(space.State(), elf, pl, h, 0, FileEnd(pl, h))
      ensures ok && pl.mode.Bootloader? ==> space.pool == old(space.pool)
      ensures Unmapped(old(space.State()), FirstPage(pl, h), FilePagesEnd(pl, h)) ==>
        |old(space.pool)| >= FilePagesEnd(pl, h) - FirstPage(pl, h) ==> ok
    {
      hide Valid, Grown, Shows, FilePagesEnd, FirstPage, FileEnd;
      ghost var m0 := space.State();
      FilePartEnds(elf, pl, h, m0);
      GrownRefl(m0, FirstPage(pl, h), SegmentFlags(pl, h));
      var firstFrame := (pl.firstFrame * PAGE_SIZE + h.offset) / PAGE_SIZE;
      var lastFrame := (pl.firstFrame * PAGE_SIZE + h.offset + h.fileSize - 1) / PAGE_SIZE;
      var frame, page := firstFrame, FirstPage(pl, h);
      while frame <= lastFrame
        invariant FirstPage(pl, h) <= page <= FilePagesEnd(pl, h) && frame == SourceFrame(pl, h, page)
        invariant Valid() && Grown(m0, space.State(), FirstPage(pl, h), page, SegmentFlags(pl, h))
        invariant Shows(space.State(), elf, pl, h, 0, Min(page * PAGE_SIZE, FileEnd(pl, h)))
        invariant |space.pool| + page - FirstPage(pl, h) >= |m0.pool|
        invariant pl.mode.Bootloader? ==> space.pool == m0.pool
        decreases lastFrame - frame
      {
        ok := MapNextFilePage(h, page, frame, m0);
        if !ok { return; }
        frame, page := frame + 1, page + 1;
      }
      ok := true;
    }

    /** Zero the rest of the page the file part ends in, in a private copy. */
    method ClearTail(h: Header, ghost m0: Mem) returns (ok: bool)
      requires Valid() && Loadable(elf, pl, h)
      requires Grown(m0, space.State(), FirstPage(pl, h), FilePagesEnd(pl, h), SegmentFlags(pl, h))
      requires Shows(space.State(), elf, pl, h, 0, FileEnd(pl, h))
      modifies space
      ensures ok ==> Valid() && |space.pool| + 1 >= |old(space.pool)|
      ensures ok ==> Grown(m0, space.State(), FirstPage(pl, h), FilePagesEnd(pl, h), SegmentFlags(pl, h))
      ensures ok ==> Shows(space.State(), elf, pl, h, 0, FilePagesEnd(pl, h) * PAGE_SIZE)
      ensures |old(space.pool)| >= 1 ==> ok
    {
      hide Inv, Resident, Shows, FilePagesEnd, CopyAndStore;
      TailPage(elf, pl, h);
      InvIsBacked(space.State(), space.source);
      var off := FileEnd(pl, h) % PAGE_SIZE;
      if off == 0 { return true; }
      var lastPage := PageOf(FileEnd(pl, h) - 1);
      ghost var m := space.State();
      ok := space.CopyAndStorePage(lastPage, off, Zeros(PAGE_SIZE - off));
      CopyAndStoreSucceeds(m, FileEnd(pl, h), Zeros(PAGE_SIZE - off));
      if ok { TailCleared(m0, m, space.State(), space.source, elf, pl, h); }
    }

    method MapZeroPage(h: Header, page: nat, ghost m0: Mem) returns (ok: bool)
      requires Valid() && Loadable(elf, pl, h) && FirstPage(pl, h) <= page && FileEnd(pl, h) <= page * PAGE_SIZE
      requires Grown(m0, space.State(), FirstPage(pl, h), page, SegmentFlags(pl, h))
      requires Shows(space.State(), elf, pl, h, 0, page * PAGE_SIZE)
      modifies space
      ensures ok ==> Valid() && |space.pool| + 1 >= |old(space.pool)|
      ensures ok ==> Grown(m0, space.State(), FirstPage(pl, h), page + 1, SegmentFlags(pl, h))
      ensures ok ==> Shows(space.State(), elf, pl, h, 0, (page + 1) * PAGE_SIZE)
      ensures page !in m0.table && |old(space.pool)| >= 1 ==> ok
    {
      hide Inv, Resident, Extended, Shows;
      ghost var n, flags := space.State(), SegmentFlags(pl, h);
      ok := space.MapNewFrame(page, Zeros(PAGE_SIZE), SegmentFlags(pl, h));
      if ok {
        MapFreshExtends(n, space.source, page, Zeros(PAGE_SIZE), flags);
        GrownByOne(m0, n, space.State(), FirstPage(pl, h), page, space.table[page], Zeros(PAGE_SIZE), flags);
        ZeroPageShows(n, space.State(), elf, pl, h, page);
      }
    }

    /** Map the pages behind the file part to fresh zeroed frames. */
    method MapBss(h: Header, ghost m0: Mem) returns (ok: bool)
      requires Valid() && Loadable(elf, pl, h)
      requires Grown(m0, space.State(), FirstPage(pl, h), FilePagesEnd(pl, h), SegmentFlags(pl, h))
      requires Shows(space.State(), elf, pl, h, 0, FilePagesEnd(pl, h) * PAGE_SIZE)
      modifies space
      ensures ok ==> Valid() && |space.pool| + EndPage(pl, h) - FilePagesEnd(pl, h) >= |old(space.pool)|
      ensures ok ==> Grown(m0, space.State(), FirstPage(pl, h), EndPage(pl, h), SegmentFlags(pl, h))
      ensures ok ==> Shows(space.State(), elf, pl, h, 0, EndPage(pl, h) * PAGE_SIZE)
      ensures Unmapped(m0, FirstPage(pl, h), EndPage(pl, h)) ==>
        |old(space.pool)| >= EndPage(pl, h) - FilePagesEnd(pl, h) ==> ok
    {
      hide Valid, Grown, Shows, FilePagesEnd, FirstPage, EndPage;
      BssEnds(elf, pl, h);
      ghost var pool0 := |space.pool|;
      var page := PageOf((FileEnd(pl, h) + PAGE_SIZE - 1) / PAGE_SIZE * PAGE_SIZE);
      var last := PageOf(MemEnd(pl, h) - 1);
      while page <= last
        invariant FilePagesEnd(pl, h) <= page <= last + 1
        invariant Valid() && Grown(m0, space.State(), FirstPage(pl, h), page, SegmentFlags(pl, h))
        invariant Shows(space.State(), elf, pl, h, 0, page * PAGE_SIZE)
        invariant |space.pool| + page - FilePagesEnd(pl, h) >= pool0
      {
        ok := MapZeroPage(h, page, m0);
        if !ok { return; }
        page := page + 1;
      }
      ok := true;
    }

    /** Map one loadable segment: afterwards its pages are there with its flags,
        every address of it shows the file's byte or zero, and nothing else in
        the address space has changed. */
    method LoadSegment(h: Header) returns (ok: bool)
      requires Valid() && Loadable(elf, pl, h)
      modifies space
      ensures ok ==> Valid() && |space.pool| + SegmentFrames(pl, h) >= |old(space.pool)|
      ensures ok ==> Grown(old(space.State()), space.State(), FirstPage(pl, h), EndPage(pl, h), SegmentFlags(pl, h))
      ensures ok ==> Shows(space.State(), elf, pl, h, 0, MemEnd(pl, h))
      ensures Unmapped(old(space.State()), FirstPage(pl, h), EndPage(pl, h)) ==>
        |old(space.pool)| >= SegmentFrames(pl, h) ==> ok
    {
      hide Valid, Grown, FilePagesEnd, FirstPage, EndPage;
      BssEnds(elf, pl, h);
      ghost var m0 := space.State();
      ok := MapFilePart(h);
      if !ok || h.memSize <= h.fileSize { return; }
      ok := ClearTail(h, m0);
      if !ok { return; }
      ok := MapBss(h, m0);
    }
  }

  /** Frames enough for a segment: one a page, and one for the cleared tail. */
  function SegmentFrames(pl: Placement, h: Header): nat
    requires Placeable(pl, h.vaddr) && h.memSize > 0
  {
    EndPage(pl, h) - FirstPage(pl, h) + 1
  }

  /** The page the tail is cleared in. */
  lemma {:induction false} TailPage(elf: Elf, pl: Placement, h: Header)
    requires Loadable(elf, pl, h)
    ensures FileEnd(pl, h) % PAGE_SIZE == 0 ==> FilePagesEnd(pl, h) * PAGE_SIZE == FileEnd(pl, h)
    ensures FileEnd(pl, h) % PAGE_SIZE != 0 ==>
      FileEnd(pl, h) > 0 && PageOf(FileEnd(pl, h) - 1) == PageOf(FileEnd(pl, h)) == FilePagesEnd(pl, h) - 1
    ensures FileEnd(pl, h) % PAGE_SIZE != 0 ==> FirstPage(pl, h) <= PageOf(FileEnd(pl, h))
  {
    FilePagesAreExact(elf, pl, h);
  }

  lemma {:induction false} TailCleared(m0: Mem, m: Mem, n: Mem, src: map<nat, seq<Byte>>, elf: Elf, pl: Placement,
                                       h: Header)
    requires Inv(m, src) && Loadable(elf, pl, h) && FileEnd(pl, h) % PAGE_SIZE != 0
    requires Grown(m0, m, FirstPage(pl, h), FilePagesEnd(pl, h), SegmentFlags(pl, h))
    requires Shows(m, elf, pl, h, 0, FileEnd(pl, h))
    requires CopyAndStore(m, FileEnd(pl, h), Zeros(PAGE_SIZE - FileEnd(pl, h) % PAGE_SIZE)) == Some(n)
    ensures Grown(m0, n, FirstPage(pl, h), FilePagesEnd(pl, h), SegmentFlags(pl, h))
    ensures Shows(n, elf, pl, h, 0, FilePagesEnd(pl, h) * PAGE_SIZE)
  {
    hide Inv, Grown, Shows, Overwritten, FilePagesEnd;
    var e, z := FileEnd(pl, h), Zeros(PAGE_SIZE - FileEnd(pl, h) % PAGE_SIZE);
    TailPage(elf, pl, h);
    InvIsBacked(m, src);
    CopyAndStoreOverwrites(m, src, e, z);
    CopyAndStoreKeepsFlags(m, e, z);
    hide CopyAndStore;
    GrownThenStored(m0, m, n, FirstPage(pl, h), FilePagesEnd(pl, h), SegmentFlags(pl, h), e, z);
    TailShows(m, n, elf, pl, h);
  }

  lemma {:induction false} InvIsBacked(m: Mem, src: map<nat, seq<Byte>>)
    requires Inv(m, src)
    ensures Backed(m)
  {
  }

  lemma {:induction false} CopyAndStoreSucceeds(m: Mem, addr: nat, bytes: seq<Byte>)
    requires Backed(m) && addr % PAGE_SIZE + |bytes| <= PAGE_SIZE
    ensures PageOf(addr) in m.table && |m.pool| >= 1 ==> CopyAndStore(m, addr, bytes).Some?
    ensures CopyAndStore(m, addr, bytes).Some? ==> |CopyAndStore(m, addr, bytes).value.pool| + 1 >= |m.pool|
  {
  }

  /** Where the loop over the remaining pages begins and ends. */
  lemma {:induction false} BssEnds(elf: Elf, pl: Placement, h: Header)
    requires Loadable(elf, pl, h)
    ensures PageOf((FileEnd(pl, h) + PAGE_SIZE - 1) / PAGE_SIZE * PAGE_SIZE) == FilePagesEnd(pl, h)
    ensures PageOf(MemEnd(pl, h) - 1) + 1 == EndPage(pl, h)
    ensures FirstPage(pl, h) <= FilePagesEnd(pl, h) <= EndPage(pl, h)
    ensures FileEnd(pl, h) <= FilePagesEnd(pl, h) * PAGE_SIZE
    ensures MemEnd(pl, h) <= EndPage(pl, h) * PAGE_SIZE
    ensures h.memSize == h.fileSize ==> FilePagesEnd(pl, h) == EndPage(pl, h)
  {
    FilePagesAreExact(elf, pl, h);
  }

  /** Where the loop over the frames of the file part begins and ends. */
  lemma {:induction false} FilePartEnds(elf: Elf, pl: Placement, h: Header, m: Mem)
    requires Loadable(elf, pl, h)
    ensures (pl.firstFrame * PAGE_SIZE + h.offset) / PAGE_SIZE == SourceFrame(pl, h, FirstPage(pl, h))
    ensures (pl.firstFrame * PAGE_SIZE + h.offset + h.fileSize - 1) / PAGE_SIZE ==
      pl.firstFrame + h.offset / PAGE_SIZE + FilePagesEnd(pl, h) - FirstPage(pl, h) - 1
    ensures FirstPage(pl, h) <= FilePagesEnd(pl, h) && FilePagesEnd(pl, h) * PAGE_SIZE >= FileEnd(pl, h)
    ensures Shows(m, elf, pl, h, 0, Min(FirstPage(pl, h) * PAGE_SIZE, FileEnd(pl, h)))
  {
    FilePagesAreExact(elf, pl, h);
  }

  ghost predicate Unmapped(m: Mem, lo: int, hi: int) {
    forall p :: lo <= p < hi ==> p !in m.table
  }

  lemma {:induction false} GrownRefl(m: Mem, lo: nat, flags: Flags)
    ensures Grown(m, m, lo, lo, flags)
  {
  }

  lemma {:induction false} MapSourceIsPage(m: Mem, src: map<nat, seq<Byte>>, frame: nat)
    requires Inv(m, src) && frame in src
    ensures |src[frame]| == PAGE_SIZE && frame in m.phys && m.phys[frame] == src[frame]
  {
  }
}
