/** Single-frame requests: exactly when the kernel's iterator hands out every
    free page, and the counterexamples when it does not. */
module PageEnumeration {
  import opened Regions
  import opened KernelFrames

  predicate Aligned(v: int) { v % PAGE_SIZE == 0 }

  function AlignUp(v: nat): (w: nat)
    ensures Aligned(w) && v <= w < v + PAGE_SIZE
  {
    (v + PAGE_SIZE - 1) / PAGE_SIZE * PAGE_SIZE
  }

  ghost predicate NonEmpty(ms: seq<Range>) {
    forall i :: 0 <= i < |ms| ==> ms[i].start < ms[i].end
  }

  /** No byte of the page at `p` belongs to a range. */
  predicate FreePage(ms: seq<Range>, p: nat) {
    forall i :: 0 <= i < |ms| ==> ms[i].end <= p || p + PAGE_SIZE <= ms[i].start
  }

  lemma {:induction false} FreePageIsClear(ms: seq<Range>, p: nat)
    requires NonEmpty(ms)
    ensures FreePage(ms, p) <==> Clear(ms, p, p + PAGE_SIZE)
  {
    if Clear(ms, p, p + PAGE_SIZE) {
      forall i | 0 <= i < |ms| ensures ms[i].end <= p || p + PAGE_SIZE <= ms[i].start {
        assert !Covered(ms, Max(p, ms[i].start)) || Max(p, ms[i].start) >= p + PAGE_SIZE;
        if ms[i].end > p && ms[i].start < p + PAGE_SIZE {
          assert ms[i].Contains(Max(p, ms[i].start));
        }
      }
    }
  }

  /** Walk the ranges from `i` with the page `s` next in line. A range that is
      already behind `s` costs the page at `s`; that is harmless only when the
      page was not free anyway. */
  predicate NoPageLost(ms: seq<Range>, i: nat, s: nat)
    requires i <= |ms|
    decreases |ms| - i
  {
    i == |ms| ||
    if s < ms[i].end then NoPageLost(ms, i + 1, AlignUp(ms[i].end))
    else !FreePage(ms, s) && NoPageLost(ms, i + 1, s + PAGE_SIZE)
  }

  /** Where iteration resumes once range `r` has been met from `s`. */
  function Land(r: Range, s: nat): nat {
    if s < r.end then AlignUp(r.end) else s + PAGE_SIZE
  }

  lemma {:induction false} ClimbLandsAligned(r: Range, v: nat)
    requires Aligned(v) && r.start <= v <= AlignUp(r.end)
    ensures Climb(r, v, PAGE_SIZE) == AlignUp(r.end)
    decreases r.end - v
  {
    if r.Contains(v) { ClimbLandsAligned(r, v + PAGE_SIZE); }
  }

  lemma {:induction false} ClimbIsLand(r: Range, s: nat)
    requires Aligned(s) && r.start < r.end && r.start < s + PAGE_SIZE
    ensures Climb(r, s + PAGE_SIZE, PAGE_SIZE) == Land(r, s)
  {
    if s < r.end { ClimbLandsAligned(r, s + PAGE_SIZE); }
  }

  function SingleNext(ms: seq<Range>, c: Cursor): Step
    requires c.index <= |ms|
  {
    Next(ms, c, PAGE_SIZE)
  }

  predicate InGap(ms: seq<Range>, c: Cursor)
    requires c.index <= |ms|
  {
    c.index == |ms| || c.value + PAGE_SIZE <= ms[c.index].start
  }

  /** A cursor that meets its range behaves as the cursor after that range. */
  lemma {:induction false} MeetingIsLanding(ms: seq<Range>, c: Cursor)
    requires Separated(ms) && NonEmpty(ms) && c.index <= |ms| && Aligned(c.value) && !InGap(ms, c)
    ensures SingleNext(ms, c) == SingleNext(ms, Cursor(c.index + 1, Land(ms[c.index], c.value)))
  {
    var r, w := ms[c.index], Land(ms[c.index], c.value);
    ClimbIsLand(r, c.value);
    var d := Cursor(c.index + 1, w);
    if c.index + 1 < |ms| && ms[c.index + 1].Contains(w) {
      assert Climb(ms[c.index + 1], w, PAGE_SIZE) == Climb(ms[c.index + 1], w + PAGE_SIZE, PAGE_SIZE);
      assert Skip(ms, c.index + 1, w, PAGE_SIZE) == Skip(ms, c.index + 1, w + PAGE_SIZE, PAGE_SIZE);
      assert !InGap(ms, d);
    }
  }

  /** The alignment and position a run of single-frame requests keeps. */
  ghost predicate Ready(ms: seq<Range>, c: Cursor) {
    Separated(ms) && NonEmpty(ms) && Passed(ms, c) && Aligned(c.value)
  }

  lemma {:induction false} LandIsReady(ms: seq<Range>, c: Cursor)
    requires Ready(ms, c) && c.index < |ms|
    ensures Ready(ms, Cursor(c.index + 1, Land(ms[c.index], c.value)))
  {
  }

  /** Every page the cursor passes over was not free. */
  lemma {:induction false} NextIsLeastFree(ms: seq<Range>, c: Cursor, p: nat)
    requires Ready(ms, c) && NoPageLost(ms, c.index, c.value) && Aligned(p)
    requires c.value <= p < SingleNext(ms, c).block
    ensures !FreePage(ms, p)
    decreases |ms| - c.index
  {
    if !InGap(ms, c) {
      MeetingIsLanding(ms, c);
      LandIsReady(ms, c);
      var d := Cursor(c.index + 1, Land(ms[c.index], c.value));
      if d.value <= p { NextIsLeastFree(ms, d, p); }
    }
  }

  lemma {:induction false} GapPageIsFree(ms: seq<Range>, c: Cursor)
    requires Ready(ms, c) && InGap(ms, c)
    ensures FreePage(ms, c.value)
  {
    forall i | 0 <= i < |ms| ensures ms[i].end <= c.value || c.value + PAGE_SIZE <= ms[i].start {
      if i < c.index - 1 { assert ms[i].end < ms[c.index - 1].start; }
      if i > c.index { assert ms[c.index].end < ms[i].start; }
    }
  }

  lemma {:induction false} NextStaysReady(ms: seq<Range>, c: Cursor)
    requires Ready(ms, c)
    ensures var s := SingleNext(ms, c);
      && Ready(ms, s.next) && c.value <= s.block && s.next.value == s.block + PAGE_SIZE
      && FreePage(ms, s.block)
      && (NoPageLost(ms, c.index, c.value) ==> NoPageLost(ms, s.next.index, s.next.value))
    decreases |ms| - c.index
  {
    hide Separated, FreePage, Skip;
    if InGap(ms, c) {
      GapPageIsFree(ms, c);
      assert c.index < |ms| ==> ms[c.index].start < ms[c.index].end;
    } else {
      MeetingIsLanding(ms, c);
      LandIsReady(ms, c);
      NextStaysReady(ms, Cursor(c.index + 1, Land(ms[c.index], c.value)));
    }
  }

  /** The pages the first `n` requests return. */
  function Pages(ms: seq<Range>, c: Cursor, n: nat): seq<nat>
    requires c.index <= |ms|
    decreases n
  {
    if n == 0 then [] else
      var s := SingleNext(ms, c);
      NextInRange(ms, c, PAGE_SIZE);
      [s.block] + Pages(ms, s.next, n - 1)
  }

  ghost predicate Returned(ms: seq<Range>, c: Cursor, p: nat)
    requires c.index <= |ms|
  {
    exists n: nat :: p in Pages(ms, c, n)
  }

  lemma {:induction false} PagesAreReady(ms: seq<Range>, c: Cursor, n: nat)
    requires Ready(ms, c)
    ensures forall p :: p in Pages(ms, c, n) ==> c.value <= p && Aligned(p) && FreePage(ms, p)
    decreases n
  {
    if n > 0 {
      NextStaysReady(ms, c);
      PagesAreReady(ms, SingleNext(ms, c).next, n - 1);
    }
  }

  lemma {:induction false} FreeIsReturned(ms: seq<Range>, c: Cursor, p: nat) returns (n: nat)
    requires Ready(ms, c) && NoPageLost(ms, c.index, c.value)
    requires c.value <= p && Aligned(p) && FreePage(ms, p)
    ensures p in Pages(ms, c, n)
    decreases p - c.value
  {
    hide Separated, FreePage, Skip, NoPageLost, Next;
    NextStaysReady(ms, c);
    var s := SingleNext(ms, c);
    if p < s.block { NextIsLeastFree(ms, c, p); }
    if p == s.block {
      n := 1;
    } else {
      var m := FreeIsReturned(ms, s.next, p);
      n := m + 1;
    }
  }

  /** What is returned past range `c.index` is what the landing cursor returns. */
  lemma {:induction false} BeyondIsLanding(ms: seq<Range>, c: Cursor, n: nat, p: nat) returns (m: nat)
    requires Ready(ms, c) && c.index < |ms| && ms[c.index].end <= p && p in Pages(ms, c, n)
    ensures p in Pages(ms, Cursor(c.index + 1, Land(ms[c.index], c.value)), m)
    decreases n
  {
    hide Separated, FreePage, Skip;
    if InGap(ms, c) {
      m := BeyondIsLanding(ms, SingleNext(ms, c).next, n - 1, p);
    } else {
      MeetingIsLanding(ms, c);
      m := n;
    }
  }

  lemma {:induction false} SomePageLost(ms: seq<Range>, c: Cursor) returns (p: nat)
    requires Ready(ms, c) && !NoPageLost(ms, c.index, c.value)
    ensures c.value <= p && Aligned(p) && FreePage(ms, p) && !Returned(ms, c, p)
    decreases |ms| - c.index
  {
    var d := Cursor(c.index + 1, Land(ms[c.index], c.value));
    LandIsReady(ms, c);
    if c.value < ms[c.index].end || !FreePage(ms, c.value) {
      p := SomePageLost(ms, d);
    } else {
      p := c.value;
    }
    if Returned(ms, c, p) {
      var n: nat :| p in Pages(ms, c, n);
      var m := BeyondIsLanding(ms, c, n, p);
      PagesAreReady(ms, d, m);
      assert Returned(ms, d, p);
      assert false;
    }
  }

  /** Requests for one frame at a time return only free pages, and return every
      free page from the cursor on if and only if no page is lost. */
  lemma {:induction false} EnumerationIsExact(ms: seq<Range>, c: Cursor)
    requires Ready(ms, c)
    ensures forall p: nat :: Returned(ms, c, p) ==> c.value <= p && Aligned(p) && FreePage(ms, p)
    ensures NoPageLost(ms, c.index, c.value) <==>
      forall p: nat :: c.value <= p && Aligned(p) && FreePage(ms, p) ==> Returned(ms, c, p)
  {
    forall p: nat | Returned(ms, c, p) ensures c.value <= p && Aligned(p) && FreePage(ms, p) {
      var n: nat :| p in Pages(ms, c, n);
      PagesAreReady(ms, c, n);
    }
    if NoPageLost(ms, c.index, c.value) {
      forall p: nat | c.value <= p && Aligned(p) && FreePage(ms, p) ensures Returned(ms, c, p) {
        var n := FreeIsReturned(ms, c, p);
      }
    } else {
      var p := SomePageLost(ms, c);
    }
  }

  // ----------------------------------------------------- exactly which pages

  /** The page at `p` is passed over by the walk that `NoPageLost` describes. */
  predicate Lost(ms: seq<Range>, i: nat, s: nat, p: nat)
    requires i <= |ms|
    decreases |ms| - i
  {
    i < |ms| &&
    if s < ms[i].end then Lost(ms, i + 1, AlignUp(ms[i].end), p)
    else p == s || Lost(ms, i + 1, s + PAGE_SIZE, p)
  }

  lemma {:induction false} LostIsAhead(ms: seq<Range>, i: nat, s: nat, p: nat)
    requires Separated(ms) && i <= |ms| && Aligned(s) && Lost(ms, i, s, p)
    ensures s <= p && Aligned(p) && ms[i].end <= p
    decreases |ms| - i
  {
    if s < ms[i].end {
      LostIsAhead(ms, i + 1, AlignUp(ms[i].end), p);
    } else if p != s {
      LostIsAhead(ms, i + 1, s + PAGE_SIZE, p);
    }
  }

  /** A free page passed over on the way to the next block is a lost one. */
  lemma {:induction false} PassedIsLost(ms: seq<Range>, c: Cursor, p: nat)
    requires Ready(ms, c) && Aligned(p) && FreePage(ms, p) && c.value <= p < SingleNext(ms, c).block
    ensures Lost(ms, c.index, c.value, p)
    decreases |ms| - c.index
  {
    hide Skip;
    if !InGap(ms, c) {
      MeetingIsLanding(ms, c);
      LandIsReady(ms, c);
      var d := Cursor(c.index + 1, Land(ms[c.index], c.value));
      if d.value <= p { PassedIsLost(ms, d, p); }
    }
  }

  lemma {:induction false} LostStaysLost(ms: seq<Range>, c: Cursor, p: nat)
    requires Ready(ms, c) && SingleNext(ms, c).next.index <= |ms|
    requires Lost(ms, SingleNext(ms, c).next.index, SingleNext(ms, c).next.value, p)
    ensures Lost(ms, c.index, c.value, p)
    decreases |ms| - c.index
  {
    if InGap(ms, c) {
      assert c.index < |ms| ==> ms[c.index].start < ms[c.index].end;
    } else {
      MeetingIsLanding(ms, c);
      LandIsReady(ms, c);
      LostStaysLost(ms, Cursor(c.index + 1, Land(ms[c.index], c.value)), p);
    }
  }

  lemma {:induction false} KeptIsReturned(ms: seq<Range>, c: Cursor, p: nat)
    requires Ready(ms, c) && c.value <= p && Aligned(p) && FreePage(ms, p) && !Lost(ms, c.index, c.value, p)
    ensures Returned(ms, c, p)
    decreases p - c.value
  {
    hide Separated, FreePage, Skip, Lost, Next, Returned;
    NextStaysReady(ms, c);
    var s := SingleNext(ms, c);
    if p < s.block { PassedIsLost(ms, c, p); }
    if p == s.block {
      FirstIsReturned(ms, c);
    } else {
      if Lost(ms, s.next.index, s.next.value, p) { LostStaysLost(ms, c, p); }
      KeptIsReturned(ms, s.next, p);
      LaterIsReturned(ms, c, p);
    }
  }

  lemma {:induction false} FirstIsReturned(ms: seq<Range>, c: Cursor)
    requires c.index <= |ms|
    ensures Returned(ms, c, SingleNext(ms, c).block)
  {
    assert SingleNext(ms, c).block in Pages(ms, c, 1);
  }

  lemma {:induction false} LaterIsReturned(ms: seq<Range>, c: Cursor, p: nat)
    requires c.index <= |ms| && SingleNext(ms, c).next.index <= |ms| && Returned(ms, SingleNext(ms, c).next, p)
    ensures Returned(ms, c, p)
  {
    var n: nat :| p in Pages(ms, SingleNext(ms, c).next, n);
    assert p in Pages(ms, c, n + 1);
  }

  lemma {:induction false} LostIsNotReturned(ms: seq<Range>, c: Cursor, p: nat)
    requires Ready(ms, c) && Lost(ms, c.index, c.value, p)
    ensures !Returned(ms, c, p)
    decreases |ms| - c.index
  {
    LandIsReady(ms, c);
    LostIsAhead(ms, c.index, c.value, p);
    var d := Cursor(c.index + 1, Land(ms[c.index], c.value));
    if Returned(ms, c, p) {
      var n: nat :| p in Pages(ms, c, n);
      var m := BeyondIsLanding(ms, c, n, p);
      PagesAreReady(ms, d, m);
      assert Returned(ms, d, p);
      LostIsNotReturned(ms, d, p);
      assert false;
    }
  }

  /** The pages single-frame requests return are exactly the free pages from the
      cursor on that are not lost. */
  lemma {:induction false} ReturnedIff(ms: seq<Range>, c: Cursor, p: nat)
    requires Ready(ms, c)
    ensures Returned(ms, c, p) <==> c.value <= p && Aligned(p) && FreePage(ms, p) && !Lost(ms, c.index, c.value, p)
  {
    if Returned(ms, c, p) {
      var n: nat :| p in Pages(ms, c, n);
      PagesAreReady(ms, c, n);
      if Lost(ms, c.index, c.value, p) { LostIsNotReturned(ms, c, p); }
    } else if c.value <= p && Aligned(p) && FreePage(ms, p) && !Lost(ms, c.index, c.value, p) {
      KeptIsReturned(ms, c, p);
    }
  }

  /** Page-aligned non-empty ranges lose nothing. */
  lemma {:induction false} AlignedLosesNothing(ms: seq<Range>, i: nat, s: nat)
    requires Separated(ms) && NonEmpty(ms) && i <= |ms|
    requires forall k :: 0 <= k < |ms| ==> Aligned(ms[k].end)
    requires i < |ms| ==> s < ms[i].end
    ensures NoPageLost(ms, i, s)
    decreases |ms| - i
  {
    if i < |ms| {
      assert AlignUp(ms[i].end) == ms[i].end;
      AlignedLosesNothing(ms, i + 1, AlignUp(ms[i].end));
    }
  }

  lemma {:induction false} MergeKeepsNonEmpty(rs: seq<Region>)
    requires |rs| >= 1 && SortedByStart(rs) && forall i :: 0 <= i < |rs| ==> rs[i].length > 0
    ensures NonEmpty(Merge(rs))
  {
    if |rs| > 1 {
      MergeKeepsNonEmpty(rs[..|rs| - 1]);
    }
  }

  lemma {:induction false} MergeKeepsPages(rs: seq<Region>)
    requires |rs| >= 1 && SortedByStart(rs)
    requires forall i :: 0 <= i < |rs| ==> rs[i].length > 0 && Aligned(rs[i].End())
    ensures forall k :: 0 <= k < |Merge(rs)| ==> Merge(rs)[k].start < Merge(rs)[k].end && Aligned(Merge(rs)[k].end)
  {
    if |rs| > 1 {
      MergeKeepsPages(rs[..|rs| - 1]);
    }
  }

  const FIRST_FRAME: nat := 0x100000

  /** For page-aligned non-empty regions the kernel's single-frame allocations
      are exactly the pages from 0x100000 on with no byte in any region. */
  lemma {:induction false} AlignedRegionsEnumerateAll(rs: seq<Region>, p: nat)
    requires |rs| >= 1 && SortedByStart(rs)
    requires forall i :: 0 <= i < |rs| ==> rs[i].length > 0 && Aligned(rs[i].End())
    ensures var ms := Merge(rs);
      Returned(ms, Cursor(InitialIndex(ms, FIRST_FRAME), FIRST_FRAME), p) <==>
      FIRST_FRAME <= p && Aligned(p) && forall a :: p <= a < p + PAGE_SIZE ==> !InSome(rs, a)
  {
    var ms := Merge(rs);
    var c := Cursor(InitialIndex(ms, FIRST_FRAME), FIRST_FRAME);
    MergeIsUnion(rs);
    MergeKeepsPages(rs);
    InitialIndexIsExact(ms, FIRST_FRAME);
    AlignedLosesNothing(ms, c.index, c.value);
    EnumerationIsExact(ms, c);
    FreePageIsClear(ms, p);
  }

  /** For non-empty regions of any alignment they are those of these pages that are
      not lost. */
  lemma {:induction false} RegionsEnumerateTheRest(rs: seq<Region>, p: nat)
    requires |rs| >= 1 && SortedByStart(rs) && forall i :: 0 <= i < |rs| ==> rs[i].length > 0
    ensures var ms := Merge(rs);
      var i := InitialIndex(ms, FIRST_FRAME);
      && i <= |ms|
      && (Returned(ms, Cursor(i, FIRST_FRAME), p) <==>
          FIRST_FRAME <= p && Aligned(p) && !Lost(ms, i, FIRST_FRAME, p)
          && forall a :: p <= a < p + PAGE_SIZE ==> !InSome(rs, a))
  {
    hide Returned, Lost;
    var ms := Merge(rs);
    MergeIsUnion(rs);
    MergeKeepsNonEmpty(rs);
    InitialIndexIsExact(ms, FIRST_FRAME);
    ReturnedIff(ms, Cursor(InitialIndex(ms, FIRST_FRAME), FIRST_FRAME), p);
    FreePageIsClear(ms, p);
  }

  /** A range hidden in the rest of the page its predecessor ends in costs a page:
      after [0x100000, 0x101800) and [0x101900, 0x101a00) the free page at
      0x102000 is never returned. */
  lemma {:induction false} UnalignedRangesLoseAPage()
    ensures var ms := [Range(0x100000, 0x101800), Range(0x101900, 0x101a00)];
      && Ready(ms, Cursor(0, 0x100000)) && FreePage(ms, 0x102000)
      && !Returned(ms, Cursor(0, 0x100000), 0x102000)
  {
    var ms := [Range(0x100000, 0x101800), Range(0x101900, 0x101a00)];
    var c, d := Cursor(0, 0x100000), Cursor(2, 0x103000);
    MeetingIsLanding(ms, c);
    MeetingIsLanding(ms, Cursor(1, 0x102000));
    forall n: nat ensures 0x102000 !in Pages(ms, c, n) {
      PagesAreReady(ms, d, n);
      assert Pages(ms, c, n) == Pages(ms, d, n);
    }
  }
}
