/** Loading a whole ELF file: the loop over the program headers and the final
    pass over the flags, with the theorem about the finished image. */
module ElfLoad {
  import opened Regions
  import opened CopyOnWrite
  import opened ElfImage
  import opened ElfTables
  import opened ElfLoader
  import opened ElfRelocate

  /** Every header that is looked at can be placed, and what is to be loaded is
      loadable. */
  ghost predicate Sane(elf: Elf, pl: Placement) {
    forall i :: 0 <= i < |elf.headers| && elf.headers[i].memSize > 0 ==>
      Placeable(pl, elf.headers[i].vaddr) && (elf.headers[i].kind.Load? ==> Loadable(elf, pl, elf.headers[i]))
  }

  predicate IsLoad(elf: Elf, i: int) {
    0 <= i < |elf.headers| && elf.headers[i].kind.Load? && elf.headers[i].memSize > 0
  }

  predicate IsRelro(elf: Elf, i: int) {
    0 <= i < |elf.headers| && elf.headers[i].kind.Relro? && elf.headers[i].memSize > 0
  }

  /** Page `p` belongs to header `i`. */
  ghost predicate OnPage(elf: Elf, pl: Placement, i: int, p: int)
    requires Sane(elf, pl) && 0 <= i < |elf.headers| && elf.headers[i].memSize > 0
  {
    FirstPage(pl, elf.headers[i]) <= p < EndPage(pl, elf.headers[i])
  }

  /** Page `p` belongs to a loadable segment among the first `k` headers. */
  ghost predicate InLoads(elf: Elf, pl: Placement, k: nat, p: int)
    requires Sane(elf, pl)
  {
    exists i :: 0 <= i < k && IsLoad(elf, i) && OnPage(elf, pl, i, p)
  }

  /** Page `p` belongs to a read-only-after-relocation segment among the first `k`. */
  ghost predicate InRelros(elf: Elf, pl: Placement, k: nat, p: int)
    requires Sane(elf, pl)
  {
    exists i :: 0 <= i < k && IsRelro(elf, i) && OnPage(elf, pl, i, p)
  }

  // --------------------------------------------------- what the loop maintains

  /** Exactly the pages of the segments so far have been added. */
  ghost predicate PagesAdded(m0: Mem, m: Mem, elf: Elf, pl: Placement, k: nat)
    requires Sane(elf, pl)
  {
    forall p :: p in m.table <==> p in m0.table || InLoads(elf, pl, k, p)
  }

  /** Every address of every segment so far shows the last relocation that covers
      it, or else the file's byte or zero. */
  ghost predicate SegmentsShown(m: Mem, elf: Elf, pl: Placement, k: nat, ws: seq<Write>)
    requires Sane(elf, pl)
  {
    forall i, a: nat :: 0 <= i < k && IsLoad(elf, i) && InSegment(pl, elf.headers[i], a) ==>
      View(m, a) == Patched(ws, a, Some(SegmentByte(elf, pl, elf.headers[i], a)))
  }

  /** What was mapped before changes by relocations only. */
  ghost predicate RestShown(m0: Mem, m: Mem, ws: seq<Write>) {
    forall a: nat :: PageOf(a) in m0.table ==> View(m, a) == Patched(ws, a, View(m0, a))
  }

  /** The pages of the segments so far have the flags of their header; those of
      a relro segment are not writable. */
  ghost predicate FlagsSet(m: Mem, elf: Elf, pl: Placement, k: nat)
    requires Sane(elf, pl)
  {
    forall i, p :: 0 <= i < k && IsLoad(elf, i) && OnPage(elf, pl, i, p) ==>
      p in m.table && m.table[p].flags.(copied := false) == FlagsWith(elf, pl, elf.headers[i], k, p)
  }

  ghost function FlagsWith(elf: Elf, pl: Placement, h: Header, k: nat, p: nat): Flags
    requires Sane(elf, pl)
  {
    Flags(h.writable && !InRelros(elf, pl, k, p), !h.executable, pl.mode.Kernel?, false)
  }

  ghost predicate RelrosMapped(m: Mem, elf: Elf, pl: Placement, k: nat)
    requires Sane(elf, pl)
  {
    forall p :: InRelros(elf, pl, k, p) ==> p in m.table
  }

  ghost predicate Progress(m0: Mem, m: Mem, elf: Elf, pl: Placement, k: nat, ws: seq<Write>)
    requires Sane(elf, pl)
  {
    && PagesAdded(m0, m, elf, pl, k)
    && SegmentsShown(m, elf, pl, k, ws)
    && RestShown(m0, m, ws)
    && FlagsSet(m, elf, pl, k)
    && RelrosMapped(m, elf, pl, k)
    && WritesMapped(m, ws)
  }

  // --------------------------------------------------------- a segment is added

  lemma {:induction false} InLoadsStep(elf: Elf, pl: Placement, k: nat, p: int)
    requires Sane(elf, pl) && k < |elf.headers|
    ensures InLoads(elf, pl, k + 1, p) <==> InLoads(elf, pl, k, p) || (IsLoad(elf, k) && OnPage(elf, pl, k, p))
  {
  }

  lemma {:induction false} InRelrosStep(elf: Elf, pl: Placement, k: nat, p: int)
    requires Sane(elf, pl) && k < |elf.headers|
    ensures InRelros(elf, pl, k + 1, p) <==> InRelros(elf, pl, k, p) || (IsRelro(elf, k) && OnPage(elf, pl, k, p))
  {
  }

  lemma {:induction false} InSegmentOnPage(elf: Elf, pl: Placement, i: nat, a: nat)
    requires Sane(elf, pl) && IsLoad(elf, i) && InSegment(pl, elf.headers[i], a)
    ensures OnPage(elf, pl, i, PageOf(a))
  {
  }

  /** A write on pages mapped already cannot cover an address of a new page. */
  lemma {:induction false} NewPageIsUnwritten(m: Mem, ws: seq<Write>, a: nat, before: Option<Byte>)
    requires WritesMapped(m, ws) && PageOf(a) !in m.table
    ensures Patched(ws, a, before) == before
  {
    forall i | 0 <= i < |ws| ensures !(ws[i].addr <= a < ws[i].addr + |ws[i].bytes|) {
      assert SpanMapped(m, ws[i].addr, |ws[i].bytes|);
    }
    UntouchedKeepsByte(ws, a, before);
  }

  lemma {:induction false} LoadShows(m0: Mem, m: Mem, n: Mem, elf: Elf, pl: Placement, k: nat, ws: seq<Write>)
    requires Sane(elf, pl) && k < |elf.headers| && IsLoad(elf, k) && Progress(m0, m, elf, pl, k, ws)
    requires Grown(m, n, FirstPage(pl, elf.headers[k]), EndPage(pl, elf.headers[k]), SegmentFlags(pl, elf.headers[k]))
    requires Shows(n, elf, pl, elf.headers[k], 0, MemEnd(pl, elf.headers[k]))
    ensures SegmentsShown(n, elf, pl, k + 1, ws)
  {
    hide Patched, FlagsSet, RelrosMapped, RestShown, PagesAdded, FirstPage;
    hide EndPage, SegmentByte, View, SpanMapped, WritesMapped;
    forall i, a: nat | 0 <= i < k + 1 && IsLoad(elf, i) && InSegment(pl, elf.headers[i], a)
      ensures View(n, a) == Patched(ws, a, Some(SegmentByte(elf, pl, elf.headers[i], a)))
    {
      InSegmentOnPage(elf, pl, i, a);
      if i == k {
        NewPageIsUnwritten(m, ws, a, Some(SegmentByte(elf, pl, elf.headers[k], a)));
      } else {
        LoadedIsMapped(m0, m, elf, pl, k, i, PageOf(a));
      }
    }
  }

  lemma {:induction false} LoadedIsMapped(m0: Mem, m: Mem, elf: Elf, pl: Placement, k: nat, i: nat, p: nat)
    requires Sane(elf, pl) && PagesAdded(m0, m, elf, pl, k) && i < k && IsLoad(elf, i) && OnPage(elf, pl, i, p)
    ensures p in m.table
  {
    assert InLoads(elf, pl, k, p);
  }

  lemma {:induction false} LoadKeepsRest(m0: Mem, m: Mem, n: Mem, elf: Elf, pl: Placement, k: nat, ws: seq<Write>)
    requires Sane(elf, pl) && k < |elf.headers| && IsLoad(elf, k) && Progress(m0, m, elf, pl, k, ws)
    requires Grown(m, n, FirstPage(pl, elf.headers[k]), EndPage(pl, elf.headers[k]), SegmentFlags(pl, elf.headers[k]))
    ensures PagesAdded(m0, n, elf, pl, k + 1) && RestShown(m0, n, ws)
    ensures RelrosMapped(n, elf, pl, k + 1) && WritesMapped(n, ws)
  {
    hide Patched, FlagsSet, SegmentsShown, FirstPage, EndPage, View, InLoads, InRelros;
    forall p ensures p in n.table <==> p in m0.table || InLoads(elf, pl, k + 1, p) {
      InLoadsStep(elf, pl, k, p);
    }
    forall p | InRelros(elf, pl, k + 1, p) ensures p in n.table {
      InRelrosStep(elf, pl, k, p);
    }
    forall i | 0 <= i < |ws| ensures SpanMapped(n, ws[i].addr, |ws[i].bytes|) {
      assert SpanMapped(m, ws[i].addr, |ws[i].bytes|);
    }
  }

  lemma {:induction false} LoadSetsFlags(m0: Mem, m: Mem, n: Mem, elf: Elf, pl: Placement, k: nat, ws: seq<Write>)
    requires Sane(elf, pl) && k < |elf.headers| && IsLoad(elf, k) && Progress(m0, m, elf, pl, k, ws)
    requires Grown(m, n, FirstPage(pl, elf.headers[k]), EndPage(pl, elf.headers[k]), SegmentFlags(pl, elf.headers[k]))
    ensures FlagsSet(n, elf, pl, k + 1)
  {
    hide SegmentsShown, RestShown, PagesAdded, FirstPage, EndPage, View, InRelros, WritesMapped;
    forall i, p | 0 <= i < k + 1 && IsLoad(elf, i) && OnPage(elf, pl, i, p)
      ensures p in n.table && n.table[p].flags.(copied := false) == FlagsWith(elf, pl, elf.headers[i], k + 1, p)
    {
      InRelrosStep(elf, pl, k, p);
      if i < k {
        assert p in m.table && m.table[p].flags.(copied := false) == FlagsWith(elf, pl, elf.headers[i], k, p);
      } else {
        assert p !in m.table;
      }
    }
  }

  /** Loading a segment takes the loop one header further. */
  lemma {:induction false} LoadProgresses(m0: Mem, m: Mem, n: Mem, elf: Elf, pl: Placement, k: nat, ws: seq<Write>)
    requires Sane(elf, pl) && k < |elf.headers| && IsLoad(elf, k) && Progress(m0, m, elf, pl, k, ws)
    requires Grown(m, n, FirstPage(pl, elf.headers[k]), EndPage(pl, elf.headers[k]), SegmentFlags(pl, elf.headers[k]))
    requires Shows(n, elf, pl, elf.headers[k], 0, MemEnd(pl, elf.headers[k]))
    ensures Progress(m0, n, elf, pl, k + 1, ws)
  {
    hide PagesAdded, SegmentsShown, RestShown, FlagsSet, RelrosMapped, WritesMapped, Grown, Shows;
    LoadShows(m0, m, n, elf, pl, k, ws);
    LoadKeepsRest(m0, m, n, elf, pl, k, ws);
    LoadSetsFlags(m0, m, n, elf, pl, k, ws);
  }

  // ------------------------------------------------- relocations are applied

  lemma {:induction false} RelocateShows(m0: Mem, m: Mem, n: Mem, elf: Elf, pl: Placement, k: nat, ws: seq<Write>,
                                         vs: seq<Write>)
    requires Sane(elf, pl) && k < |elf.headers| && !IsLoad(elf, k)
    requires SegmentsShown(m, elf, pl, k, ws) && RestShown(m0, m, ws) && Rewritten(m, n, vs)
    ensures SegmentsShown(n, elf, pl, k + 1, ws + vs) && RestShown(m0, n, ws + vs)
  {
    hide Patched, View, SpanMapped, SegmentByte, WritesMapped;
    forall i, a: nat | 0 <= i < k + 1 && IsLoad(elf, i) && InSegment(pl, elf.headers[i], a)
      ensures View(n, a) == Patched(ws + vs, a, Some(SegmentByte(elf, pl, elf.headers[i], a)))
    {
      PatchedConcat(ws, vs, a, Some(SegmentByte(elf, pl, elf.headers[i], a)));
    }
    forall a: nat | PageOf(a) in m0.table ensures View(n, a) == Patched(ws + vs, a, View(m0, a)) {
      PatchedConcat(ws, vs, a, View(m0, a));
    }
  }

  lemma {:induction false} RelocateKeepsRest(m0: Mem, m: Mem, n: Mem, elf: Elf, pl: Placement, k: nat, ws: seq<Write>,
                                             vs: seq<Write>)
    requires Sane(elf, pl) && k < |elf.headers| && !IsLoad(elf, k) && !IsRelro(elf, k)
    requires PagesAdded(m0, m, elf, pl, k) && FlagsSet(m, elf, pl, k)
    requires RelrosMapped(m, elf, pl, k) && WritesMapped(m, ws)
    requires SameFlags(m, n) && WritesMapped(n, vs)
    ensures PagesAdded(m0, n, elf, pl, k + 1) && FlagsSet(n, elf, pl, k + 1) && RelrosMapped(n, elf, pl, k + 1)
    ensures WritesMapped(n, ws + vs)
  {
    hide View, InLoads, InRelros, OnPage;
    forall p ensures p in n.table <==> p in m0.table || InLoads(elf, pl, k + 1, p) {
      InLoadsStep(elf, pl, k, p);
    }
    forall p ensures InRelros(elf, pl, k + 1, p) <==> InRelros(elf, pl, k, p) { InRelrosStep(elf, pl, k, p); }
    forall i | 0 <= i < |ws + vs| ensures SpanMapped(n, (ws + vs)[i].addr, |(ws + vs)[i].bytes|) {
      assert i < |ws| ==> SpanMapped(m, ws[i].addr, |ws[i].bytes|);
    }
  }

  /** Applying relocations, or skipping a header, takes the loop one further. */
  lemma {:induction false} RelocateProgresses(m0: Mem, m: Mem, n: Mem, elf: Elf, pl: Placement, k: nat, ws: seq<Write>,
                                              vs: seq<Write>)
    requires Sane(elf, pl) && k < |elf.headers| && !IsLoad(elf, k) && !IsRelro(elf, k)
    requires Progress(m0, m, elf, pl, k, ws) && Rewritten(m, n, vs)
    ensures Progress(m0, n, elf, pl, k + 1, ws + vs)
  {
    hide PagesAdded, SegmentsShown, RestShown, FlagsSet, RelrosMapped, WritesMapped, SameFlags;
    RelocateShows(m0, m, n, elf, pl, k, ws, vs);
    RelocateKeepsRest(m0, m, n, elf, pl, k, ws, vs);
  }

  // ------------------------------------------------------ flags are narrowed

  /** Take away the write permission, the copy mark, or both. */
  function Narrow(f: Flags, writable: bool, copied: bool): Flags {
    f.(writable := f.writable && !writable, copied := f.copied && !copied)
  }

  /** The pages lo..hi have narrowed flags; nothing else has changed. */
  ghost predicate Narrowed(m: Mem, n: Mem, lo: nat, hi: nat, writable: bool, copied: bool) {
    && n.table.Keys == m.table.Keys
    && (forall p :: p in m.table ==>
          n.table[p].flags == if lo <= p < hi then Narrow(m.table[p].flags, writable, copied) else m.table[p].flags)
    && SameView(m, n)
    && n.pool == m.pool
  }

  lemma {:induction false} RelroProgresses(m0: Mem, m: Mem, n: Mem, elf: Elf, pl: Placement, k: nat, ws: seq<Write>)
    requires Sane(elf, pl) && k < |elf.headers| && IsRelro(elf, k) && Progress(m0, m, elf, pl, k, ws)
    requires Narrowed(m, n, FirstPage(pl, elf.headers[k]), EndPage(pl, elf.headers[k]), true, false)
    requires forall p :: OnPage(elf, pl, k, p) ==> p in m.table
    ensures Progress(m0, n, elf, pl, k + 1, ws)
  {
    hide View, Patched, SegmentByte, InLoads, InRelros, FirstPage, EndPage;
    forall p ensures InLoads(elf, pl, k + 1, p) <==> InLoads(elf, pl, k, p) { InLoadsStep(elf, pl, k, p); }
    forall p ensures InRelros(elf, pl, k + 1, p) <==> InRelros(elf, pl, k, p) || OnPage(elf, pl, k, p) {
      InRelrosStep(elf, pl, k, p);
    }
    assert PagesAdded(m0, n, elf, pl, k + 1);
    assert RelrosMapped(n, elf, pl, k + 1);
    assert RestShown(m0, n, ws);
    assert SegmentsShown(n, elf, pl, k + 1, ws);
    forall i | 0 <= i < |ws| ensures SpanMapped(n, ws[i].addr, |ws[i].bytes|) {
      assert SpanMapped(m, ws[i].addr, |ws[i].bytes|);
    }
    RelroSetsFlags(m, n, elf, pl, k);
  }

  lemma {:induction false} RelroSetsFlags(m: Mem, n: Mem, elf: Elf, pl: Placement, k: nat)
    requires Sane(elf, pl) && k < |elf.headers| && IsRelro(elf, k) && FlagsSet(m, elf, pl, k)
    requires Narrowed(m, n, FirstPage(pl, elf.headers[k]), EndPage(pl, elf.headers[k]), true, false)
    ensures FlagsSet(n, elf, pl, k + 1)
  {
    hide View, InRelros, SameView, FirstPage, EndPage;
    forall i, p | 0 <= i < k + 1 && IsLoad(elf, i) && OnPage(elf, pl, i, p)
      ensures p in n.table && n.table[p].flags.(copied := false) == FlagsWith(elf, pl, elf.headers[i], k + 1, p)
    {
      InRelrosStep(elf, pl, k, p);
      assert m.table[p].flags.(copied := false) == FlagsWith(elf, pl, elf.headers[i], k, p);
    }
  }

  // ------------------------------------------------------------- when it works

  /** Header `k` finds its pages free, or its targets mapped. */
  ghost predicate StepFits(m0: Mem, elf: Elf, pl: Placement, k: nat)
    requires Sane(elf, pl) && k < |elf.headers|
  {
    var h := elf.headers[k];
    && (IsLoad(elf, k) ==> forall p :: OnPage(elf, pl, k, p) ==> p !in m0.table && !InLoads(elf, pl, k, p))
    && (IsRelro(elf, k) ==> forall p :: OnPage(elf, pl, k, p) ==> p in m0.table || InLoads(elf, pl, k, p))
    && (IsDynamic(h) ==>
          exists rs :: Asked(elf, pl, h, rs) && Applicable(pl, h, rs) && TargetsMapped(m0, elf, pl, k, rs))
  }

  /** Every byte to be relocated is on a page mapped before, or by a segment so far. */
  ghost predicate TargetsMapped(m0: Mem, elf: Elf, pl: Placement, k: nat, rs: seq<Rel>)
    requires Sane(elf, pl)
  {
    forall i, a: nat :: 0 <= i < |rs| && Covers(pl, rs[i], a) ==>
      PageOf(a) in m0.table || InLoads(elf, pl, k, PageOf(a))
  }

  /** Address `a` is one of the eight the entry is to change. */
  predicate Covers(pl: Placement, r: Rel, a: nat) {
    pl.base + r.offset - pl.least <= a < pl.base + r.offset - pl.least + 8
  }

  ghost predicate TargetsFit(m0: Mem, elf: Elf, pl: Placement, k: nat, ws: seq<Write>)
    requires Sane(elf, pl)
  {
    forall i, a: nat :: 0 <= i < |ws| && ws[i].addr <= a < ws[i].addr + |ws[i].bytes| ==>
      PageOf(a) in m0.table || InLoads(elf, pl, k, PageOf(a))
  }

  /** Segments on separate free pages, relocations and relro on pages loaded
      before them. */
  ghost predicate WellFormed(m0: Mem, elf: Elf, pl: Placement) {
    Sane(elf, pl) && forall k :: 0 <= k < |elf.headers| ==> StepFits(m0, elf, pl, k)
  }

  /** Frames enough for one header. */
  function HeaderFrames(elf: Elf, pl: Placement, h: Header): nat {
    if h.memSize == 0 || !Placeable(pl, h.vaddr) then 0
    else match h.kind
      case Load => SegmentFrames(pl, h)
      case Dynamic => if DynamicWrites(elf, pl, h).Some? then 2 * |DynamicWrites(elf, pl, h).value| else 0
      case _ => 0
  }

  function Frames(elf: Elf, pl: Placement, k: nat): nat
    requires k <= |elf.headers|
  {
    if k == 0 then 0 else Frames(elf, pl, k - 1) + HeaderFrames(elf, pl, elf.headers[k - 1])
  }

  lemma {:induction false} FramesGrow(elf: Elf, pl: Placement, j: nat, k: nat)
    requires j <= k <= |elf.headers|
    ensures Frames(elf, pl, j) <= Frames(elf, pl, k)
  {
    if j < k { FramesGrow(elf, pl, j, k - 1); }
  }

  lemma {:induction false} FitsSegment(m0: Mem, m: Mem, elf: Elf, pl: Placement, k: nat)
    requires Sane(elf, pl) && k < |elf.headers| && IsLoad(elf, k) && PagesAdded(m0, m, elf, pl, k)
    ensures StepFits(m0, elf, pl, k) ==> Unmapped(m, FirstPage(pl, elf.headers[k]), EndPage(pl, elf.headers[k]))
  {
    hide InLoads, FirstPage, EndPage;
    if StepFits(m0, elf, pl, k) {
      forall p | FirstPage(pl, elf.headers[k]) <= p < EndPage(pl, elf.headers[k]) ensures p !in m.table {
        assert OnPage(elf, pl, k, p);
      }
    }
  }

  lemma {:induction false} FitsRelro(m0: Mem, m: Mem, elf: Elf, pl: Placement, k: nat)
    requires Sane(elf, pl) && k < |elf.headers| && IsRelro(elf, k) && PagesAdded(m0, m, elf, pl, k)
    ensures StepFits(m0, elf, pl, k) ==> forall p :: OnPage(elf, pl, k, p) ==> p in m.table
  {
    hide InLoads, OnPage;
  }

  lemma {:induction false} FitsTargets(m0: Mem, m: Mem, elf: Elf, pl: Placement, k: nat, ws: seq<Write>)
    requires Sane(elf, pl) && PagesAdded(m0, m, elf, pl, k) && TargetsFit(m0, elf, pl, k, ws)
    ensures WritesMapped(m, ws)
  {
    hide InLoads;
  }

  lemma {:induction false} FitsTables(m0: Mem, elf: Elf, pl: Placement, k: nat)
    requires Sane(elf, pl) && k < |elf.headers| && StepFits(m0, elf, pl, k) && IsDynamic(elf.headers[k])
    ensures DynamicWrites(elf, pl, elf.headers[k]).Some?
    ensures TargetsFit(m0, elf, pl, k, DynamicWrites(elf, pl, elf.headers[k]).value)
  {
    hide Asked, Applicable, InLoads, DynamicWrites;
    var h := elf.headers[k];
    var rs :| Asked(elf, pl, h, rs) && Applicable(pl, h, rs) && TargetsMapped(m0, elf, pl, k, rs);
    DynamicSucceeds(elf, pl, h, rs);
    DynamicStores(elf, pl, h, rs);
    var ws := DynamicWrites(elf, pl, h).value;
    forall i, a: nat | 0 <= i < |ws| && ws[i].addr <= a < ws[i].addr + |ws[i].bytes|
      ensures PageOf(a) in m0.table || InLoads(elf, pl, k, PageOf(a))
    {
      assert StoreFor(pl, rs[i], ws[i]);
      assert Covers(pl, rs[i], a);
    }
  }

  lemma {:induction false} NarrowedRefl(m: Mem, lo: nat, writable: bool, copied: bool)
    ensures Narrowed(m, m, lo, lo, writable, copied)
  {
  }

  lemma {:induction false} NarrowedKeepsPages(m: Mem, n: Mem, lo: nat, hi: nat, writable: bool, copied: bool)
    requires Narrowed(m, n, lo, hi, writable, copied)
    ensures n.table.Keys == m.table.Keys && n.pool == m.pool
  {
  }

  lemma {:induction false} NarrowedByOne(m: Mem, n: Mem, o: Mem, lo: nat, p: nat, writable: bool, copied: bool)
    requires Narrowed(m, n, lo, p, writable, copied) && lo <= p && p in n.table && SameView(n, o)
    requires o == n.(table := n.table[p := n.table[p].(flags := Narrow(n.table[p].flags, writable, copied))])
    ensures Narrowed(m, o, lo, p + 1, writable, copied)
  {
    hide View;
  }

  // ---------------------------------------------------------------- the loader

  class ImageLoader {
    const elf: Elf
    const pl: Placement
    const space: AddressSpace
    const loader: Loader
    const relocator: Relocator

    ghost predicate Valid()
      reads this, space
    {
      && Sane(elf, pl) && space.Valid() && Resident(elf, pl, space.source) && (pl.mode.Bootloader? ==> space.direct)
      && loader.elf == elf && loader.pl == pl && loader.space == space
      && relocator.elf == elf && relocator.pl == pl && relocator.space == space
    }

    constructor (elf: Elf, pl: Placement, space: AddressSpace)
      requires Sane(elf, pl) && space.Valid() && Resident(elf, pl, space.source)
      requires pl.mode.Bootloader? ==> space.direct
      ensures Valid() && this.elf == elf && this.pl == pl && this.space == space
    {
      this.elf, this.pl, this.space := elf, pl, space;
      loader := new Loader(elf, pl, space);
      relocator := new Relocator(elf, pl, space);
    }

    /** Narrow the flags of the pages lo..hi; an unmapped page stops the loader. */
    method UpdatePageFlags(lo: nat, hi: nat, writable: bool, copied: bool) returns (ok: bool)
      requires space.Valid() && lo <= hi
      modifies space
      ensures ok ==> space.Valid() && Narrowed(old(space.State()), space.State(), lo, hi, writable, copied)
      ensures ok <==> forall p :: lo <= p < hi ==> p in old(space.table)
    {
      hide Inv, Narrowed;
      ghost var m := space.State();
      NarrowedRefl(m, lo, writable, copied);
      var page := lo;
      while page < hi
        invariant lo <= page <= hi && space.Valid()
        invariant Narrowed(m, space.State(), lo, page, writable, copied)
        invariant forall p :: lo <= p < page ==> p in m.table
      {
        ghost var n := space.State();
        NarrowedKeepsPages(m, n, lo, page, writable, copied);
        if page !in space.table { return false; }
        space.UpdateFlags(page, Narrow(space.table[page].flags, writable, copied));
        NarrowedByOne(m, n, space.State(), lo, page, writable, copied);
        page := page + 1;
      }
      ok := true;
    }

    /** One turn of the loop over the program headers. */
    method ProcessHeader(k: nat, ghost m0: Mem, ghost ws: seq<Write>) returns (ok: bool)
      requires Valid() && k < |elf.headers| && Progress(m0, space.State(), elf, pl, k, ws)
      requires AllWrites(elf, pl, k) == Some(ws)
      modifies space
      ensures ok ==> Valid() && AllWrites(elf, pl, k + 1).Some?
      ensures ok ==> |space.pool| + HeaderFrames(elf, pl, elf.headers[k]) >= |old(space.pool)|
      ensures ok ==> Progress(m0, space.State(), elf, pl, k + 1, AllWrites(elf, pl, k + 1).value)
      ensures StepFits(m0, elf, pl, k) && |old(space.pool)| >= HeaderFrames(elf, pl, elf.headers[k]) ==> ok
    {
      hide Progress, Inv, Resident, InLoads, OnPage, TargetsFit, DynamicWrites, Rewritten;
      var h := elf.headers[k];
      ghost var m := space.State();
      RewrittenRefl(m);
      assert ws + [] == ws;
      if h.memSize == 0 {
        RelocateProgresses(m0, m, m, elf, pl, k, ws, []);
        return true;
      }
      match h.kind {
        case Load => ok := ProcessLoad(k, m0, ws);
        case Dynamic => ok := ProcessDynamic(k, m0, ws);
        case Relro => ok := ProcessRelro(k, m0, ws);
        case Ignored =>
          RelocateProgresses(m0, m, m, elf, pl, k, ws, []);
          ok := true;
      }
    }

    method ProcessLoad(k: nat, ghost m0: Mem, ghost ws: seq<Write>) returns (ok: bool)
      requires Valid() && IsLoad(elf, k) && Progress(m0, space.State(), elf, pl, k, ws)
      modifies space
      ensures ok ==> Valid() && |space.pool| + SegmentFrames(pl, elf.headers[k]) >= |old(space.pool)|
      ensures ok ==> Progress(m0, space.State(), elf, pl, k + 1, ws)
      ensures StepFits(m0, elf, pl, k) && |old(space.pool)| >= SegmentFrames(pl, elf.headers[k]) ==> ok
    {
      ghost var m := space.State();
      FitsSegment(m0, m, elf, pl, k);
      hide Progress, Grown, Shows, StepFits, Unmapped, SegmentFrames, FirstPage, EndPage, MemEnd;
      ok := loader.LoadSegment(elf.headers[k]);
      if ok { LoadProgresses(m0, m, space.State(), elf, pl, k, ws); }
    }

    method ProcessDynamic(k: nat, ghost m0: Mem, ghost ws: seq<Write>) returns (ok: bool)
      requires Valid() && k < |elf.headers| && elf.headers[k].kind.Dynamic? && elf.headers[k].memSize > 0
      requires Progress(m0, space.State(), elf, pl, k, ws)
      modifies space
      ensures ok ==> Valid() && DynamicWrites(elf, pl, elf.headers[k]).Some?
      ensures ok ==> |space.pool| + 2 * |DynamicWrites(elf, pl, elf.headers[k]).value| >= |old(space.pool)|
      ensures ok ==> Progress(m0, space.State(), elf, pl, k + 1, ws + DynamicWrites(elf, pl, elf.headers[k]).value)
      ensures StepFits(m0, elf, pl, k) && |old(space.pool)| >= HeaderFrames(elf, pl, elf.headers[k]) ==> ok
    {
      ghost var m := space.State();
      hide Inv, Resident, DynamicWrites, PagesAdded, SegmentsShown, RestShown;
      hide FlagsSet, RelrosMapped, WritesMapped, TargetsFit, Rewritten;
      if StepFits(m0, elf, pl, k) {
        FitsTables(m0, elf, pl, k);
        FitsTargets(m0, m, elf, pl, k, DynamicWrites(elf, pl, elf.headers[k]).value);
      }
      hide Progress;
      ok := relocator.ApplyDynamic(elf.headers[k]);
      if ok { RelocateProgresses(m0, m, space.State(), elf, pl, k, ws, DynamicWrites(elf, pl, elf.headers[k]).value); }
    }

    method ProcessRelro(k: nat, ghost m0: Mem, ghost ws: seq<Write>) returns (ok: bool)
      requires Valid() && IsRelro(elf, k) && Progress(m0, space.State(), elf, pl, k, ws)
      modifies space
      ensures ok ==> Valid() && |space.pool| >= |old(space.pool)|
      ensures ok ==> Progress(m0, space.State(), elf, pl, k + 1, ws)
      ensures StepFits(m0, elf, pl, k) ==> ok
    {
      hide SegmentsShown, RestShown, FlagsSet, RelrosMapped, WritesMapped, PagesAdded, InLoads;
      ghost var m := space.State();
      FitsRelro(m0, m, elf, pl, k);
      hide Inv, Resident, Progress, StepFits, Narrowed;
      var h := elf.headers[k];
      ok := UpdatePageFlags(FirstPage(pl, h), EndPage(pl, h), true, false);
      if ok {
        RelroProgresses(m0, m, space.State(), elf, pl, k, ws);
        NarrowedKeepsPages(m, space.State(), FirstPage(pl, h), EndPage(pl, h), true, false);
      }
    }

    /** The loop over the program headers. */
    method ProcessHeaders() returns (ok: bool)
      requires Valid()
      modifies space
      ensures ok ==> Valid() && AllWrites(elf, pl, |elf.headers|).Some?
      ensures ok ==> Progress(old(space.State()), space.State(),
                              elf, pl, |elf.headers|, AllWrites(elf, pl, |elf.headers|).value)
      ensures WellFormed(old(space.State()), elf, pl) && |old(space.pool)| >= Frames(elf, pl, |elf.headers|) ==> ok
    {
      hide Inv, Resident, HeaderFrames, StepFits;
      ghost var m0 := space.State();
      ghost var ws: seq<Write> := [];
      ProgressStarts(m0, elf, pl);
      hide Progress;
      var k := 0;
      while k < |elf.headers|
        invariant 0 <= k <= |elf.headers| && Valid()
        invariant AllWrites(elf, pl, k) == Some(ws) && Progress(m0, space.State(), elf, pl, k, ws)
        invariant |space.pool| + Frames(elf, pl, k) >= |m0.pool|
      {
        FramesGrow(elf, pl, k + 1, |elf.headers|);
        ok := ProcessHeader(k, m0, ws);
        if !ok { return; }
        ws := AllWrites(elf, pl, k + 1).value;
        k := k + 1;
      }
      ok := true;
    }

    /** The final pass: no page of a segment keeps the copy mark. */
    method ClearMarks(ghost m0: Mem, ghost ws: seq<Write>) returns (ok: bool)
      requires Valid() && Progress(m0, space.State(), elf, pl, |elf.headers|, ws)
      modifies space
      ensures ok && Valid() && Progress(m0, space.State(), elf, pl, |elf.headers|, ws)
      ensures MarksCleared(space.State(), elf, pl, |elf.headers|)
    {
      hide Inv, Resident, Narrowed, Progress, MarksCleared;
      ghost var n := |elf.headers|;
      MarksStart(space.State(), elf, pl);
      var k := 0;
      while k < |elf.headers|
        invariant 0 <= k <= |elf.headers| && Valid()
        invariant Progress(m0, space.State(), elf, pl, n, ws) && MarksCleared(space.State(), elf, pl, k)
      {
        var h := elf.headers[k];
        if h.memSize > 0 && h.kind.Load? {
          ghost var m := space.State();
          SegmentIsMapped(m0, m, elf, pl, k, ws);
          ok := UpdatePageFlags(FirstPage(pl, h), EndPage(pl, h), false, true);
          MarksKeepProgress(m0, m, space.State(), elf, pl, k, ws);
          MarksStep(m, space.State(), elf, pl, k);
        } else {
          MarksSkip(space.State(), elf, pl, k);
        }
        k := k + 1;
      }
      ok := true;
    }

    /** Load the file. Whenever the loader finishes, every address of every
        loadable segment shows the last relocation that covers it, or else the
        file's byte, or zero behind the file part; every segment page has exactly
        the flags of its header, without write permission under a relro segment
        and without the copy mark; what was mapped before is changed by
        relocations alone; and the file's frames hold what they held. The file's
        relocation tables, read as bytes, then hold relative relocations only, and
        if no two of these overlap, each has its word relocated. On a well-formed
        file with frames enough the loader does finish. The kernel's loader maps no
        page to the file's own frames. */
    method Load() returns (ok: bool)
      requires Valid()
      modifies space
      ensures ok ==> Valid() && SourceIntact(space.State(), space.source)
      ensures ok && !space.direct ==> NothingShared(space.State(), space.source)
      ensures ok ==> AllWrites(elf, pl, |elf.headers|).Some?
      ensures ok ==> FinalImage(old(space.State()), space.State(), elf, pl, AllWrites(elf, pl, |elf.headers|).value)
      ensures ok ==> exists rs :: AllAsked(elf, pl, |elf.headers|, rs)
      ensures ok ==> forall rs :: AllAsked(elf, pl, |elf.headers|, rs) ==> Relocated(space.State(), elf, pl, rs)
      ensures WellFormed(old(space.State()), elf, pl) && |old(space.pool)| >= Frames(elf, pl, |elf.headers|) ==> ok
    {
      ghost var m0 := space.State();
      hide Backed, CopiesArePrivate, PoolIsFresh, SourceIntact, Resident, WellFormed, Frames, AllWrites;
      ok := ProcessHeaders();
      if ok {
        ghost var ws := AllWrites(elf, pl, |elf.headers|).value;
        ok := ClearMarks(m0, ws);
        Finishes(m0, space.State(), elf, pl, ws);
        hide FinalImage, Relocated, AllAsked;
        ghost var _ := TablesAreThere(elf, pl, |elf.headers|);
        forall rs | AllAsked(elf, pl, |elf.headers|, rs) ensures Relocated(space.State(), elf, pl, rs) {
          RelocatedWords(m0, space.State(), elf, pl, rs);
        }
      }
    }
  }

  /** The finished image. */
  ghost predicate FinalImage(m0: Mem, m: Mem, elf: Elf, pl: Placement, ws: seq<Write>)
    requires Sane(elf, pl)
  {
    && PagesAdded(m0, m, elf, pl, |elf.headers|)
    && SegmentsShown(m, elf, pl, |elf.headers|, ws)
    && RestShown(m0, m, ws)
    && (forall i, p :: IsLoad(elf, i) && OnPage(elf, pl, i, p) ==>
          p in m.table && m.table[p].flags == FlagsWith(elf, pl, elf.headers[i], |elf.headers|, p))
  }

  ghost predicate MarksCleared(m: Mem, elf: Elf, pl: Placement, k: nat)
    requires Sane(elf, pl)
  {
    forall i, p :: 0 <= i < k && IsLoad(elf, i) && OnPage(elf, pl, i, p) ==> p in m.table && !m.table[p].flags.copied
  }

  lemma {:induction false} Finishes(m0: Mem, m: Mem, elf: Elf, pl: Placement, ws: seq<Write>)
    requires Sane(elf, pl) && Progress(m0, m, elf, pl, |elf.headers|, ws) && MarksCleared(m, elf, pl, |elf.headers|)
    ensures FinalImage(m0, m, elf, pl, ws)
  {
    hide PagesAdded, SegmentsShown, RestShown, RelrosMapped, WritesMapped, OnPage, InRelros;
    forall i, p | IsLoad(elf, i) && OnPage(elf, pl, i, p)
      ensures p in m.table && m.table[p].flags == FlagsWith(elf, pl, elf.headers[i], |elf.headers|, p)
    {
      assert m.table[p].flags.(copied := false) == FlagsWith(elf, pl, elf.headers[i], |elf.headers|, p);
    }
  }

  lemma {:induction false} ProgressStarts(m: Mem, elf: Elf, pl: Placement)
    requires Sane(elf, pl)
    ensures Progress(m, m, elf, pl, 0, [])
  {
  }

  lemma {:induction false} MarksStart(m: Mem, elf: Elf, pl: Placement)
    requires Sane(elf, pl)
    ensures MarksCleared(m, elf, pl, 0)
  {
  }

  lemma {:induction false} MarksSkip(m: Mem, elf: Elf, pl: Placement, k: nat)
    requires Sane(elf, pl) && k < |elf.headers| && !IsLoad(elf, k) && MarksCleared(m, elf, pl, k)
    ensures MarksCleared(m, elf, pl, k + 1)
  {
  }

  lemma {:induction false} MarksStep(m: Mem, n: Mem, elf: Elf, pl: Placement, k: nat)
    requires Sane(elf, pl) && IsLoad(elf, k) && MarksCleared(m, elf, pl, k)
    requires forall p :: OnPage(elf, pl, k, p) ==> p in m.table
    requires Narrowed(m, n, FirstPage(pl, elf.headers[k]), EndPage(pl, elf.headers[k]), false, true)
    ensures MarksCleared(n, elf, pl, k + 1)
  {
    hide View, FirstPage, EndPage, SameView;
  }

  lemma {:induction false} SegmentIsMapped(m0: Mem, m: Mem, elf: Elf, pl: Placement, k: nat, ws: seq<Write>)
    requires Sane(elf, pl) && IsLoad(elf, k) && Progress(m0, m, elf, pl, |elf.headers|, ws)
    ensures forall p :: OnPage(elf, pl, k, p) ==> p in m.table
    ensures FirstPage(pl, elf.headers[k]) <= EndPage(pl, elf.headers[k])
    ensures forall p :: FirstPage(pl, elf.headers[k]) <= p < EndPage(pl, elf.headers[k]) ==> p in m.table
  {
    hide PagesAdded, SegmentsShown, RestShown, RelrosMapped, WritesMapped;
    forall p | OnPage(elf, pl, k, p) ensures p in m.table {
    }
    forall p | FirstPage(pl, elf.headers[k]) <= p < EndPage(pl, elf.headers[k]) ensures p in m.table {
      assert OnPage(elf, pl, k, p);
    }
  }

  lemma {:induction false} MarksKeepProgress(m0: Mem, m: Mem, n: Mem, elf: Elf, pl: Placement, k: nat, ws: seq<Write>)
    requires Sane(elf, pl) && IsLoad(elf, k) && Progress(m0, m, elf, pl, |elf.headers|, ws)
    requires Narrowed(m, n, FirstPage(pl, elf.headers[k]), EndPage(pl, elf.headers[k]), false, true)
    ensures Progress(m0, n, elf, pl, |elf.headers|, ws)
  {
    hide View, Patched, SegmentByte, InLoads, InRelros, FirstPage, EndPage, OnPage;
    assert PagesAdded(m0, n, elf, pl, |elf.headers|);
    assert RelrosMapped(n, elf, pl, |elf.headers|);
    assert SegmentsShown(n, elf, pl, |elf.headers|, ws);
    assert RestShown(m0, n, ws);
    forall i | 0 <= i < |ws| ensures SpanMapped(n, ws[i].addr, |ws[i].bytes|) {
      assert SpanMapped(m, ws[i].addr, |ws[i].bytes|);
    }
    forall i, p | 0 <= i < |elf.headers| && IsLoad(elf, i) && OnPage(elf, pl, i, p)
      ensures p in n.table && n.table[p].flags.(copied := false) == FlagsWith(elf, pl, elf.headers[i], |elf.headers|, p)
    {
      assert m.table[p].flags.(copied := false) == FlagsWith(elf, pl, elf.headers[i], |elf.headers|, p);
    }
  }

  /** No two relocations overlap. */
  ghost predicate Apart(rs: seq<Rel>) {
    forall i, j :: 0 <= i < j < |rs| ==> rs[i].offset + 8 <= rs[j].offset || rs[j].offset + 8 <= rs[i].offset
  }

  /** What relocating leaves in the segments. */
  ghost predicate Relocated(m: Mem, elf: Elf, pl: Placement, rs: seq<Rel>)
    requires Sane(elf, pl)
  {
    forall s, a: nat :: IsLoad(elf, s) && InSegment(pl, elf.headers[s], a) ==> RelocatedByte(m, elf, pl, rs, s, a)
  }

  /** A byte that no entry covers is the file's. If no two entries overlap, one that
      an entry covers is that of its word: base plus addend, less the least address
      of the file, in eight bytes. */
  ghost predicate RelocatedByte(m: Mem, elf: Elf, pl: Placement, rs: seq<Rel>, s: int, a: nat)
    requires Sane(elf, pl) && IsLoad(elf, s) && InSegment(pl, elf.headers[s], a)
  {
    && ((forall i :: 0 <= i < |rs| ==> !Covers(pl, rs[i], a)) ==>
          View(m, a) == Some(SegmentByte(elf, pl, elf.headers[s], a)))
    && (Apart(rs) ==> forall i :: 0 <= i < |rs| && Covers(pl, rs[i], a) ==>
          View(m, a) == Some(LittleEndian(Value(pl, rs[i]), 8)[a - (pl.base + rs[i].offset - pl.least)]))
  }

  function Value(pl: Placement, r: Rel): nat {
    if pl.base + r.addend >= pl.least then pl.base + r.addend - pl.least else 0
  }

  /** The relocated words of a finished image, from the bytes of its tables. */
  lemma {:induction false} RelocatedWords(m0: Mem, m: Mem, elf: Elf, pl: Placement, rs: seq<Rel>)
    requires Sane(elf, pl) && AllAsked(elf, pl, |elf.headers|, rs) && AllWrites(elf, pl, |elf.headers|).Some?
    requires FinalImage(m0, m, elf, pl, AllWrites(elf, pl, |elf.headers|).value)
    ensures Relocated(m, elf, pl, rs)
  {
    var ws := AllWrites(elf, pl, |elf.headers|).value;
    StoresAreAsked(elf, pl, |elf.headers|, rs);
    hide AllAsked, AllWrites, PagesAdded, RestShown, FlagsWith, OnPage, View, SegmentByte, Patched, LittleEndian;
    hide RelocatedByte, StoresFor;
    forall s, a: nat | IsLoad(elf, s) && InSegment(pl, elf.headers[s], a) ensures RelocatedByte(m, elf, pl, rs, s, a) {
      assert View(m, a) == Patched(ws, a, Some(SegmentByte(elf, pl, elf.headers[s], a)));
      RelocatedAt(m, elf, pl, rs, ws, s, a);
    }
  }

  lemma {:induction false} RelocatedAt(
      m: Mem, elf: Elf, pl: Placement, rs: seq<Rel>, ws: seq<Write>, s: int, a: nat)
    requires Sane(elf, pl) && IsLoad(elf, s) && InSegment(pl, elf.headers[s], a) && StoresFor(pl, rs, ws)
    requires View(m, a) == Patched(ws, a, Some(SegmentByte(elf, pl, elf.headers[s], a)))
    ensures RelocatedByte(m, elf, pl, rs, s, a)
  {
    hide View, SegmentByte, Patched, LittleEndian, StoresFor, Apart;
    WordOrByte(pl, rs, ws, a, Some(SegmentByte(elf, pl, elf.headers[s], a)));
  }

  lemma {:induction false} WordOrByte(pl: Placement, rs: seq<Rel>, ws: seq<Write>, a: nat, before: Option<Byte>)
    requires StoresFor(pl, rs, ws)
    ensures (forall i :: 0 <= i < |rs| ==> !Covers(pl, rs[i], a)) ==> Patched(ws, a, before) == before
    ensures Apart(rs) ==> forall i :: 0 <= i < |rs| && Covers(pl, rs[i], a) ==>
      Patched(ws, a, before) ==
        Some(LittleEndian(Value(pl, rs[i]), 8)[a - (pl.base + rs[i].offset - pl.least)])
  {
    hide LittleEndian, Patched;
    assert forall i :: 0 <= i < |rs| ==> StoreFor(pl, rs[i], ws[i]) && |ws[i].bytes| == 8;
    if forall i :: 0 <= i < |rs| ==> !Covers(pl, rs[i], a) { UntouchedKeepsByte(ws, a, before); }
    if Apart(rs) {
      forall i | 0 <= i < |rs| && Covers(pl, rs[i], a)
        ensures Patched(ws, a, before) ==
          Some(LittleEndian(Value(pl, rs[i]), 8)[a - (pl.base + rs[i].offset - pl.least)])
      {
        DisjointTargetsKeepTheirs(ws, i, a, before);
      }
    }
  }
}
