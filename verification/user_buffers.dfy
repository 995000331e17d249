/** Where buffers lie: allocation never fails on a page already mapped, large
    buffers have their pages to themselves, and every buffer resolves to exactly
    its own bytes. */
module UserBuffers {
  import opened Regions
  import opened UserSpace
  import opened UserFrames

  predicate Large(b: Buffer) { b.len > MEDIUM }

  function FirstPage(b: Buffer): nat { b.addr / PAGE_SIZE }

  /** The pages a buffer lies in; short ones never leave their page. */
  function Pages(b: Buffer): nat { if Large(b) then PageCount(b.len) else 1 }

  predicate Tracks(s: Space, ts: seq<Tracked>) {
    |ts| >= 1 && forall i :: 0 <= i < |ts| ==>
      ts[i].index < s.consumed && s.base + ts[i].index in s.pages && s.pages[s.base + ts[i].index] == ts[i].frame
  }

  /** Exactly the consumed pages may be mapped; tracked ones are. */
  ghost predicate Placed(s: Space) {
    Tracks(s, s.small) && Tracks(s, s.medium) && forall p :: p in s.pages ==> s.base <= p < s.base + s.consumed
  }

  ghost predicate IsTracked(s: Space, page: nat) {
    (exists i :: 0 <= i < |s.small| && page == s.base + s.small[i].index)
    || (exists i :: 0 <= i < |s.medium| && page == s.base + s.medium[i].index)
  }

  /** The buffer lies in mapped pages: a short one in a tracked page, a large one
      in pages that are not tracked. */
  ghost predicate Held(s: Space, b: Buffer) {
    && b.addr % PAGE_SIZE == 0 && s.base <= FirstPage(b) && FirstPage(b) + Pages(b) <= s.base + s.consumed
    && (forall p :: FirstPage(b) <= p < FirstPage(b) + Pages(b) ==> p in s.pages)
    && (Large(b) ==> forall p :: FirstPage(b) <= p < FirstPage(b) + Pages(b) ==> !IsTracked(s, p))
    && (!Large(b) ==> IsTracked(s, FirstPage(b)))
  }

  ghost predicate Apart(b: Buffer, c: Buffer) {
    FirstPage(b) + Pages(b) <= FirstPage(c) || FirstPage(c) + Pages(c) <= FirstPage(b)
  }

  ghost predicate BuffersOk(s: Space, bs: seq<Buffer>) {
    && Placed(s) && (forall i :: 0 <= i < |bs| ==> Held(s, bs[i]))
    && (forall i, j :: 0 <= i < |bs| && 0 <= j < |bs| && i != j && Large(bs[i]) ==> Apart(bs[i], bs[j]))
  }

  // --------------------------------------------------------------- allocation

  lemma {:induction false} NextIsConsumed(s: Space)
    requires Placed(s)
    ensures NextUnused(s, s.consumed) == s.consumed
  {
    assert s.base + s.consumed !in s.pages;
  }

  lemma {:induction false} NewPageIs(s: Space, supply: nat -> nat)
    requires Placed(s)
    ensures var r := NewPage(s, supply);
      && r.Some? && r.value.1 == Tracked(supply(s.taken), s.consumed)
      && var t := r.value.0;
      && t == s.(pages := t.pages, tables := t.tables,
                 pteFrames := t.pteFrames, taken := t.taken, consumed := s.consumed + 1)
      && t.pages == s.pages[s.base + s.consumed := supply(s.taken)] && s.base + s.consumed !in s.pages
  {
    hide MapTo, NextUnused;
    NextIsConsumed(s);
    var u := Take(s);
    assert s.base + s.consumed !in u.pages && u.(consumed := s.consumed) == u;
    MapToMaps(u, supply, s.base + s.consumed, supply(s.taken));
    MapToKeeps(u, supply, s.base + s.consumed, supply(s.taken));
  }

  lemma {:induction false} MapToMaps(s: Space, supply: nat -> nat, page: nat, frame: nat)
    requires page !in s.pages
    ensures MapTo(s, supply, page, frame).Some?
  {
    hide EnsureTable;
  }

  /** The page range of a large buffer, mapped frame by frame. */
  lemma {:induction false} MapRangeMaps(s: Space, supply: nat -> nat, page: nat, n: nat)
    requires forall p :: page <= p < page + n ==> p !in s.pages
    ensures var r := MapRange(s, supply, page, n);
      && r.Some?
      && (forall p :: p in r.value.pages <==> p in s.pages || page <= p < page + n)
      && (forall p :: p in s.pages ==> r.value.pages[p] == s.pages[p])
    decreases n
  {
    hide MapTo;
    if n > 0 {
      var frame := supply(s.taken);
      MapToMaps(Take(s), supply, page, frame);
      MapToKeeps(Take(s), supply, page, frame);
      var t := MapTo(Take(s), supply, page, frame).value;
      MapRangeMaps(t.(large := s.large + [frame]), supply, page + 1, n - 1);
    }
  }

  /** Growing the space keeps every buffer held. */
  lemma {:induction false} GrowthHolds(s: Space, t: Space, b: Buffer)
    requires Held(s, b) && t.base == s.base && t.consumed >= s.consumed && s.pages.Keys <= t.pages.Keys
    requires forall p :: IsTracked(s, p) ==> IsTracked(t, p)
    requires forall p: nat :: p < s.base + s.consumed && IsTracked(t, p) ==> IsTracked(s, p)
    ensures Held(t, b)
  {
    hide IsTracked, Pages, FirstPage;
  }

  lemma {:induction false} TrackedGrows(s: Space, t: Space)
    requires t.base == s.base
    requires (t.medium == s.medium && |t.small| == |s.small| + 1
      && t.small[..|s.small|] == s.small && t.small[|s.small|].index == s.consumed)
      || (t.small == s.small && |t.medium| == |s.medium| + 1
        && t.medium[..|s.medium|] == s.medium && t.medium[|s.medium|].index == s.consumed)
    ensures forall p: nat :: IsTracked(t, p) <==> IsTracked(s, p) || p == s.base + s.consumed
  {
    forall p: nat ensures IsTracked(t, p) <==> IsTracked(s, p) || p == s.base + s.consumed {
      if i :| 0 <= i < |s.small| && p == s.base + s.small[i].index { assert t.small[i] == t.small[..|s.small|][i]; }
      if i :| 0 <= i < |s.medium| && p == s.base + s.medium[i].index {
        assert t.medium[i] == t.medium[..|s.medium|][i];
      }
      if i :| 0 <= i < |t.small| && p == t.base + t.small[i].index && i < |s.small| {
        assert s.small[i] == t.small[..|s.small|][i];
      }
      if i :| 0 <= i < |t.medium| && p == t.base + t.medium[i].index && i < |s.medium| {
        assert s.medium[i] == t.medium[..|s.medium|][i];
      }
      if p == s.base + s.consumed && |t.small| > |s.small| { assert p == t.base + t.small[|s.small|].index; }
      if p == s.base + s.consumed && |t.medium| > |s.medium| { assert p == t.base + t.medium[|s.medium|].index; }
    }
  }

  lemma {:induction false} PageAddress(page: nat, size: nat)
    ensures var b := Buffer(page * PAGE_SIZE, size); FirstPage(b) == page && b.addr % PAGE_SIZE == 0
  {
  }

  /** A buffer added apart from all large ones. */
  lemma {:induction false} BufferAdded(t: Space, bs: seq<Buffer>, b: Buffer)
    requires BuffersOk(t, bs) && Held(t, b)
    requires forall i :: 0 <= i < |bs| && (Large(bs[i]) || Large(b)) ==> Apart(bs[i], b)
    ensures BuffersOk(t, bs + [b])
  {
    hide Held, Placed, Large, FirstPage, Pages;
  }

  /** A short buffer in a page that was tracked before. */
  lemma {:induction false} ShortAgain(s: Space, bs: seq<Buffer>, page: nat, size: nat)
    requires BuffersOk(s, bs) && IsTracked(s, page) && size <= MEDIUM
    ensures BuffersOk(s, bs + [Buffer(page * PAGE_SIZE, size)])
  {
    var b := Buffer(page * PAGE_SIZE, size);
    PageAddress(page, size);
    assert Held(s, b);
    forall i | 0 <= i < |bs| && Large(bs[i]) ensures Apart(bs[i], b) {
      assert Held(s, bs[i]);
      assert FirstPage(bs[i]) <= page < FirstPage(bs[i]) + Pages(bs[i]) ==> !IsTracked(s, page);
    }
    hide Held, FirstPage, Pages;
    BufferAdded(s, bs, b);
  }

  /** One more tracked page. */
  lemma {:induction false} PageAdded(s: Space, t: Space, bs: seq<Buffer>, frame: nat)
    requires BuffersOk(s, bs) && t.base == s.base && t.consumed == s.consumed + 1
    requires t.pages == s.pages[s.base + s.consumed := frame]
    requires
      || (t.medium == s.medium && t.small == s.small + [Tracked(frame, s.consumed)])
      || (t.small == s.small && t.medium == s.medium + [Tracked(frame, s.consumed)])
    ensures BuffersOk(t, bs) && IsTracked(t, s.base + s.consumed)
  {
    TrackedGrows(s, t);
    hide IsTracked;
    forall i | 0 <= i < |bs| ensures Held(t, bs[i]) { GrowthHolds(s, t, bs[i]); }
    hide Held, Apart, Large;
  }

  lemma {:induction false} SmallKeeps(s: Space, supply: nat -> nat, size: nat, bs: seq<Buffer>)
    requires BuffersOk(s, bs) && size <= SMALL
    ensures var r := AllocSmall(s, supply, size);
      r.Some? && BuffersOk(r.value.0, bs + [r.value.1]) && r.value.0.base == s.base
  {
    hide NewPage, BuffersOk, IsTracked;
    Unpack(s, bs);
    if size + s.smallFill > PAGE_SIZE {
      NewPageIs(s, supply);
      var t := AllocSmall(s, supply, size).value.0;
      PageAdded(s, t, bs, supply(s.taken));
      ShortAgain(t, bs, s.base + s.consumed, size);
    } else {
      var t := s.(smallFill := s.smallFill + size);
      FillsDoNotMatter(s, t, bs);
      LastIsTracked(s);
      ShortAgain(t, bs, s.base + s.small[|s.small| - 1].index, size);
    }
  }

  lemma {:induction false} MediumKeeps(s: Space, supply: nat -> nat, size: nat, bs: seq<Buffer>)
    requires BuffersOk(s, bs) && size <= MEDIUM
    ensures var r := AllocMedium(s, supply, size);
      r.Some? && BuffersOk(r.value.0, bs + [r.value.1]) && r.value.0.base == s.base
  {
    hide NewPage, BuffersOk, IsTracked;
    Unpack(s, bs);
    if size + s.mediumFill > PAGE_SIZE {
      NewPageIs(s, supply);
      var t := AllocMedium(s, supply, size).value.0;
      PageAdded(s, t, bs, supply(s.taken));
      ShortAgain(t, bs, s.base + s.consumed, size);
    } else {
      var t := s.(mediumFill := s.mediumFill + size);
      FillsDoNotMatter(s, t, bs);
      LastIsTracked(s);
      ShortAgain(t, bs, s.base + s.medium[|s.medium| - 1].index, size);
    }
  }

  lemma {:induction false} Unpack(s: Space, bs: seq<Buffer>)
    requires BuffersOk(s, bs)
    ensures Placed(s) && |s.small| >= 1 && |s.medium| >= 1
  {
  }

  lemma {:induction false} LastIsTracked(s: Space)
    requires |s.small| >= 1 && |s.medium| >= 1
    ensures IsTracked(s, s.base + s.small[|s.small| - 1].index) && IsTracked(s, s.base + s.medium[|s.medium| - 1].index)
  {
  }

  lemma {:induction false} FillsDoNotMatter(s: Space, t: Space, bs: seq<Buffer>)
    requires BuffersOk(s, bs) && t == s.(smallFill := t.smallFill, mediumFill := t.mediumFill)
    ensures BuffersOk(t, bs) && forall p: nat :: IsTracked(s, p) ==> IsTracked(t, p)
  {
    assert forall p: nat :: IsTracked(s, p) <==> IsTracked(t, p);
    hide IsTracked;
    forall i | 0 <= i < |bs| ensures Held(t, bs[i]) { GrowthHolds(s, t, bs[i]); }
    hide Held, Apart;
  }

  lemma {:induction false} LargeKeeps(s: Space, supply: nat -> nat, size: nat, bs: seq<Buffer>)
    requires BuffersOk(s, bs) && size > MEDIUM
    ensures var r := AllocLarge(s, supply, size);
      r.Some? && BuffersOk(r.value.0, bs + [r.value.1]) && r.value.0.base == s.base
  {
    hide MapRange, NextUnused, Held;
    NextIsConsumed(s);
    var n := PageCount(size);
    var u := s.(consumed := s.consumed);
    assert u == s;
    MapRangeMaps(s, supply, s.base + s.consumed, n);
    MapRangeKeeps(s, supply, s.base + s.consumed, n);
    var m := MapRange(s, supply, s.base + s.consumed, n).value;
    hide PageCount, BuffersOk;
    RangeAdded(s, m.(consumed := m.consumed + n), bs, size);
  }

  lemma {:induction false} RangeAdded(s: Space, t: Space, bs: seq<Buffer>, size: nat)
    requires BuffersOk(s, bs) && size > MEDIUM && t.base == s.base && t.consumed == s.consumed + PageCount(size)
    requires t.small == s.small && t.medium == s.medium
    requires forall p :: p in t.pages <==>
      p in s.pages || s.base + s.consumed <= p < s.base + s.consumed + PageCount(size)
    requires forall p :: p in s.pages ==> t.pages[p] == s.pages[p]
    ensures BuffersOk(t, bs + [Buffer((s.base + s.consumed) * PAGE_SIZE, size)])
  {
    var b := Buffer((s.base + s.consumed) * PAGE_SIZE, size);
    PageAddress(s.base + s.consumed, size);
    assert forall p: nat :: IsTracked(s, p) <==> IsTracked(t, p);
    assert forall p: nat :: IsTracked(s, p) ==> p < s.base + s.consumed;
    hide IsTracked, PageCount;
    forall i | 0 <= i < |bs| ensures Held(t, bs[i]) && Apart(bs[i], b) {
      assert Held(s, bs[i]);
      GrowthHolds(s, t, bs[i]);
    }
    assert Held(t, b);
    hide Held, Apart, FirstPage;
    assert Placed(t);
    assert BuffersOk(t, bs);
    BufferAdded(t, bs, b);
  }

  /** Allocation never hits a mapped page, and keeps everything said. */
  lemma {:induction false} AllocKeepsBuffers(s: Space, supply: nat -> nat, size: nat, bs: seq<Buffer>)
    requires BuffersOk(s, bs)
    ensures |s.small| >= 1 && |s.medium| >= 1
    ensures var r := Alloc(s, supply, size);
      r.Some? && BuffersOk(r.value.0, bs + [r.value.1]) && r.value.1.len == size
  {
    Unpack(s, bs);
    hide AllocSmall, AllocMedium, AllocLarge, BuffersOk;
    if size <= SMALL { SmallKeeps(s, supply, size, bs); }
    else if size <= MEDIUM { MediumKeeps(s, supply, size, bs); }
    else { LargeKeeps(s, supply, size, bs); }
    AllocLength(s, supply, size);
  }

  lemma {:induction false} AllocLength(s: Space, supply: nat -> nat, size: nat)
    requires |s.small| >= 1 && |s.medium| >= 1
    ensures Alloc(s, supply, size).Some? ==> Alloc(s, supply, size).value.1.len == size
  {
    hide NewPage, MapRange, NextUnused;
  }

  // --------------------------------------------------------------- resolution

  lemma {:induction false} PageWithin(addr: nat, len: nat, a: nat)
    requires addr % PAGE_SIZE == 0 && addr <= a < addr + len
    ensures addr / PAGE_SIZE <= a / PAGE_SIZE < addr / PAGE_SIZE + PageCount(len)
  {
  }

  /** A buffer that is held resolves to its own bytes, in pieces inside frames. */
  lemma {:induction false} HeldResolves(s: Space, b: Buffer)
    requires Held(s, b)
    ensures var r := Resolve(s.pages, b);
      r.Some? && IsTranslation(s.pages, b.addr, b.len, r.value) && WithinFrames(r.value)
  {
    hide IsTracked;
    if Large(b) {
      forall a: nat | b.addr <= a < b.addr + b.len ensures Translate(s.pages, a).Some? { PageWithin(b.addr, b.len, a); }
      PiecesAreExact(s.pages, b.addr, b.len);
    } else {
      TranslatedOffset(s.pages, b.addr);
      if b.len == 0 {
        var ps := Resolve(s.pages, b).value;
        assert ps[1..] == [] && Total(ps) == 0;
      } else {
        ShortPieceIsRightIff(s.pages, b);
      }
    }
  }

  // --------------------------------------------------------------------- runs

  lemma {:induction false} CreatedIsPlaced(supply: nat -> nat, base: nat)
    ensures Created(supply, base).Some? && BuffersOk(Created(supply, base).value, [])
  {
    CreatedIs(supply, base);
    hide MapTo, Created;
    var s := Initial(supply, base);
    MapToKeeps(s, supply, base, supply(1));
    MapToKeeps(MapTo(s, supply, base, supply(1)).value, supply, base + 1, supply(2));
  }

  lemma {:induction false} RunKeepsBuffers(s: Space, supply: nat -> nat, sizes: seq<nat>)
    requires BuffersOk(s, []) && |s.small| >= 1 && |s.medium| >= 1
    ensures var r := AllocAll(s, supply, sizes);
      && r.Some? && BuffersOk(r.value.0, r.value.1) && |r.value.1| == |sizes|
      && forall i :: 0 <= i < |sizes| ==> r.value.1[i].len == sizes[i]
    decreases |sizes|
  {
    hide BuffersOk, Alloc;
    if sizes != [] {
      var front := sizes[..|sizes| - 1];
      RunKeepsBuffers(s, supply, front);
      var (t, bs) := AllocAll(s, supply, front).value;
      AllocKeepsBuffers(t, supply, sizes[|sizes| - 1], bs);
    }
  }

  /** After any allocations in a new address space: none has failed, every buffer
      resolves to exactly its own bytes, and a large buffer shares no page with any
      other buffer. */
  lemma {:induction false} BuffersResolve(supply: nat -> nat, base: nat, sizes: seq<nat>, i: nat)
    requires i < |sizes|
    ensures var c := Created(supply, base);
      && c.Some? && |c.value.small| >= 1 && |c.value.medium| >= 1
      && var r := AllocAll(c.value, supply, sizes);
      && r.Some? && |r.value.1| == |sizes|
      && var (t, bs) := r.value;
      && bs[i].len == sizes[i]
      && var pieces := Resolve(t.pages, bs[i]);
      && pieces.Some? && IsTranslation(t.pages, bs[i].addr, bs[i].len, pieces.value) && WithinFrames(pieces.value)
      && (Large(bs[i]) ==> forall j :: 0 <= j < |bs| && j != i ==> Apart(bs[i], bs[j]))
  {
    hide Created, AllocAll, Resolve, Held, Placed, Large;
    CreatedIsPlaced(supply, base);
    var s := Created(supply, base).value;
    Unpack(s, []);
    RunKeepsBuffers(s, supply, sizes);
    var (t, bs) := AllocAll(s, supply, sizes).value;
    HeldResolves(t, bs[i]);
  }

  /** Dropping an address space after any allocations releases exactly the frames
      it obtained, page tables included, and each of them once. */
  lemma {:induction false} DropReleasesEachOnce(supply: nat -> nat, base: nat, sizes: seq<nat>)
    requires forall j: nat, k: nat :: j < k ==> supply(j) != supply(k)
    ensures var c := Created(supply, base);
      && c.Some? && |c.value.small| >= 1 && |c.value.medium| >= 1
      && var r := AllocAll(c.value, supply, sizes);
      && r.Some?
      && var t := r.value.0;
      && multiset(Released(t)) == multiset(Obtained(supply, t.taken))
      && forall i: nat :: i < t.taken ==> multiset(Released(t))[supply(i)] == 1
  {
    hide Created, AllocAll, Released, BuffersOk;
    CreatedIsPlaced(supply, base);
    var s := Created(supply, base).value;
    Unpack(s, []);
    RunKeepsBuffers(s, supply, sizes);
    CreatedAccounts(supply, base);
    RunAccounts(s, supply, sizes);
    var t := AllocAll(s, supply, sizes).value.0;
    forall i: nat | i < t.taken ensures multiset(Released(t))[supply(i)] == 1 {
      ObtainedOnce(supply, t.taken, i);
    }
  }

  // ------------------------------------------------------------ short buffers

  predicate SharesByte(b: Buffer, c: Buffer) { b.addr < c.addr + c.len && c.addr < b.addr + b.len }

  /** Short buffers start at the start of their page whatever has been filled of it:
      two nonempty ones overlap exactly if they are in the same page. */
  lemma {:induction false} SamePageIff(s: Space, b: Buffer, c: Buffer)
    requires Held(s, b) && Held(s, c) && 0 < b.len <= MEDIUM && 0 < c.len <= MEDIUM
    ensures SharesByte(b, c) <==> FirstPage(b) == FirstPage(c)
  {
    hide IsTracked;
    assert b.addr == FirstPage(b) * PAGE_SIZE && c.addr == FirstPage(c) * PAGE_SIZE;
  }

  /** As the second small buffer of every address space does with the first. */
  lemma {:induction false} SecondSmallBufferOverlaps(supply: nat -> nat, base: nat, m: nat, n: nat)
    requires 0 < m <= SMALL && 0 < n <= SMALL
    ensures var c := Created(supply, base);
      && c.Some? && |c.value.small| >= 1 && |c.value.medium| >= 1
      && var r := AllocAll(c.value, supply, [m, n]);
      && r.Some? && r.value.1 == [Buffer(base * PAGE_SIZE, m), Buffer(base * PAGE_SIZE, n)]
      && SharesByte(r.value.1[0], r.value.1[1])
  {
    hide Created, Alloc, AllocAll;
    CreatedLists(supply, base);
    var s := Created(supply, base).value;
    var t, first, second := s.(smallFill := m), Buffer(base * PAGE_SIZE, m), Buffer(base * PAGE_SIZE, n);
    SmallInPlace(s, supply, m);
    SmallInPlace(t, supply, n);
    AllocNone(s, supply);
    AllocOneMore(s, supply, [], m);
    assert [] + [m] == [m] && [] + [first] == [first];
    AllocOneMore(s, supply, [m], n);
    assert [m] + [n] == [m, n] && [first] + [second] == [first, second];
  }

  lemma {:induction false} AllocNone(s: Space, supply: nat -> nat)
    requires |s.small| >= 1 && |s.medium| >= 1
    ensures AllocAll(s, supply, []) == Some((s, []))
  {
  }

  lemma {:induction false} SmallInPlace(s: Space, supply: nat -> nat, size: nat)
    requires |s.small| >= 1 && |s.medium| >= 1 && size <= SMALL && size + s.smallFill <= PAGE_SIZE
    ensures Alloc(s, supply, size) ==
      Some((s.(smallFill := s.smallFill + size), Buffer((s.base + s.small[|s.small| - 1].index) * PAGE_SIZE, size)))
  {
    hide NewPage, NextUnused, MapRange;
  }

  lemma {:induction false} AllocOneMore(s: Space, supply: nat -> nat, sizes: seq<nat>, size: nat)
    requires |s.small| >= 1 && |s.medium| >= 1 && AllocAll(s, supply, sizes).Some?
    requires Alloc(AllocAll(s, supply, sizes).value.0, supply, size).Some?
    ensures var (t, bs) := AllocAll(s, supply, sizes).value;
      var (u, b) := Alloc(t, supply, size).value;
      AllocAll(s, supply, sizes + [size]) == Some((u, bs + [b]))
  {
    hide Alloc;
    assert (sizes + [size])[..|sizes|] == sizes;
  }

  lemma {:induction false} CreatedLists(supply: nat -> nat, base: nat)
    ensures var c := Created(supply, base);
      c.Some? && |c.value.small| == 1 && c.value.small[0].index == 0
        && c.value.smallFill == 0 && c.value.base == base && |c.value.medium| == 1
  {
    CreatedIs(supply, base);
    hide MapTo, Created;
    var s := Initial(supply, base);
    MapToKeeps(s, supply, base, supply(1));
    MapToKeeps(MapTo(s, supply, base, supply(1)).value, supply, base + 1, supply(2));
  }
}
