/** The allocator's limit: it compares a block's end, counted from the start of
    memory, with an end of memory counted from address zero. Exactly when that
    lets a block outside memory through. */
module MemoryLimit {
  import opened Regions
  import opened KernelFrames
  import opened PageEnumeration

  // ------------------------------------------ where blocks of any size can end

  /** Where single-frame requests stand once ranges `i` to `j` have been met. */
  function Walk(ms: seq<Range>, i: nat, s: nat, j: nat): nat
    requires i <= j <= |ms|
    decreases j - i
  {
    if i == j then s else Walk(ms, i + 1, Land(ms[i], s), j)
  }

  lemma {:induction false} WalkStep(ms: seq<Range>, i: nat, s: nat, j: nat)
    requires i <= j < |ms|
    ensures Walk(ms, i, s, j + 1) == Land(ms[j], Walk(ms, i, s, j))
    decreases j - i
  {
    if i < j { WalkStep(ms, i + 1, Land(ms[i], s), j); }
  }

  lemma {:induction false} WalkGrows(ms: seq<Range>, i: nat, s: nat, j: nat)
    requires i <= j <= |ms|
    ensures s <= Walk(ms, i, s, j)
    decreases j - i
  {
    if i < j { WalkGrows(ms, i + 1, Land(ms[i], s), j); }
  }

  /** A cursor reached from `c` by requests of any sizes is never ahead of the
      ranges it has passed by less than single-frame requests would be. */
  ghost predicate Behind(ms: seq<Range>, c: Cursor, d: Cursor) {
    && Ready(ms, c) && Ready(ms, d) && c.index <= d.index && c.value <= d.value
    && Walk(ms, c.index, c.value, d.index) <= d.value
  }

  /** A page lost to single-frame requests lies before every such cursor. */
  lemma {:induction false} LostIsWalkedOver(ms: seq<Range>, i: nat, s: nat, j: nat, q: nat)
    requires Separated(ms) && i <= j <= |ms| && Aligned(s) && Lost(ms, i, s, q)
    requires j < |ms| ==> q < ms[j].start
    ensures q + PAGE_SIZE <= Walk(ms, i, s, j)
    decreases j - i
  {
    LostIsAhead(ms, i, s, q);
    if s < ms[i].end {
      LostIsWalkedOver(ms, i + 1, AlignUp(ms[i].end), j, q);
    } else if q == s {
      WalkGrows(ms, i + 1, s + PAGE_SIZE, j);
    } else {
      LostIsWalkedOver(ms, i + 1, s + PAGE_SIZE, j, q);
    }
  }

  lemma {:induction false} AlignedAbove(x: nat, v: nat)
    requires Aligned(x) && v <= x
    ensures AlignUp(v) <= x
  {
  }

  /** Leaving a range with a larger stride lands no earlier. */
  lemma {:induction false} ClimbLandsBehind(r: Range, s: nat, x: nat, w: nat)
    requires Aligned(w) && x <= w && r.end <= w && (s + PAGE_SIZE <= x || (r.Contains(x) && s <= x))
    ensures Land(r, s) <= w
  {
    AlignedAbove(w, r.end);
  }

  lemma {:induction false} StrideKeepsAligned(x: nat, y: nat)
    requires Congruent(x, y, PAGE_SIZE) && Aligned(y)
    ensures Aligned(x)
  {
  }

  lemma {:induction false} SkipStaysBehind(ms: seq<Range>, c: Cursor, i: nat, x: nat, count: nat)
    requires Ready(ms, c) && c.index <= i < |ms| && count >= 1 && Aligned(x) && c.value <= x && ms[i].start <= x
    requires var s := Walk(ms, c.index, c.value, i); s + PAGE_SIZE <= x || (ms[i].Contains(x) && s <= x)
    ensures PAGE_SIZE * count > 0 && Behind(ms, c, Skip(ms, i, x, PAGE_SIZE * count))
    decreases |ms| - i
  {
    SizePositive(PAGE_SIZE, count);
    var w := Climb(ms[i], x, PAGE_SIZE * count);
    ClimbCongruent(ms[i], x, PAGE_SIZE, count);
    StrideKeepsAligned(w, x);
    var s := Walk(ms, c.index, c.value, i);
    ClimbLandsBehind(ms[i], s, x, w);
    WalkStep(ms, c.index, c.value, i);
    if i + 1 < |ms| && ms[i + 1].Contains(w) { SkipStaysBehind(ms, c, i + 1, w, count); }
  }

  /** A request of any size, taken where the block is found. */
  lemma {:induction false} NextStaysBehind(ms: seq<Range>, c: Cursor, d: Cursor, count: nat)
    requires Behind(ms, c, d) && count >= 1
    ensures PAGE_SIZE * count > 0
    ensures var step := Next(ms, d, PAGE_SIZE * count);
      && Behind(ms, c, step.next) && Behind(ms, c, Cursor(step.next.index, step.block))
      && step.next.value == step.block + PAGE_SIZE * count
      && (step.next.index < |ms| ==> step.next.value <= ms[step.next.index].start)
    decreases |ms| - d.index
  {
    hide Skip, Walk, Separated, NonEmpty;
    SizePositive(PAGE_SIZE, count);
    var size := PAGE_SIZE * count;
    Multiples(d.value, count);
    if d.index < |ms| && d.value + size > ms[d.index].start {
      SkipStaysBehind(ms, c, d.index, d.value + size, count);
      hide Behind;
      NextStaysBehind(ms, c, Skip(ms, d.index, d.value + size, size), count);
    }
  }

  lemma {:induction false} Multiples(v: nat, count: nat)
    requires Aligned(v) && count >= 1
    ensures Aligned(v + PAGE_SIZE * count) && v + PAGE_SIZE <= v + PAGE_SIZE * count
  {
  }

  /** A page between such a cursor and the next range is not lost. */
  lemma {:induction false} GapPageIsKept(ms: seq<Range>, c: Cursor, d: Cursor, q: nat)
    requires Behind(ms, c, d) && d.value <= q && (d.index < |ms| ==> q < ms[d.index].start)
    ensures !Lost(ms, c.index, c.value, q)
  {
    hide Lost, Walk;
    if Lost(ms, c.index, c.value, q) {
      LostIsWalkedOver(ms, c.index, c.value, d.index, q);
      assert false;
    }
  }

  lemma {:induction false} ClearPageIsFree(ms: seq<Range>, lo: nat, hi: nat, q: nat)
    requires NonEmpty(ms) && lo <= q && q + PAGE_SIZE <= hi && Clear(ms, lo, hi)
    ensures FreePage(ms, q)
  {
    FreePageIsClear(ms, q);
  }

  lemma {:induction false} ReadyParts(ms: seq<Range>, c: Cursor, d: Cursor)
    requires Behind(ms, c, d)
    ensures Ready(ms, c) && c.value <= d.value && Aligned(d.value)
    ensures Separated(ms) && NonEmpty(ms) && Passed(ms, d)
  {
  }

  /** `q` is a page of the block. */
  predicate PageOf(r: Range, q: nat) { Aligned(q) && r.start <= q && q + PAGE_SIZE <= r.end }

  /** Every page of any block is one that single-frame requests return. */
  lemma {:induction false} BlockPageIsReturned(ms: seq<Range>, c: Cursor, d: Cursor, count: nat, q: nat)
    requires Behind(ms, c, d) && count >= 1
    requires PAGE_SIZE * count > 0 && d.index <= |ms|
    requires var step := Next(ms, d, PAGE_SIZE * count); PageOf(Range(step.block, step.next.value), q)
    ensures c.index <= |ms| && Returned(ms, c, q)
  {
    hide Next, Returned, Behind, Lost, FreePage, Clear, Separated, NonEmpty, Ready, Passed;
    BehindFits(ms, c, d);
    SizePositive(PAGE_SIZE, count);
    NextStaysBehind(ms, c, d, count);
    ReadyParts(ms, c, d);
    NextIsClear(ms, d, PAGE_SIZE * count);
    var step := Next(ms, d, PAGE_SIZE * count);
    ReadyParts(ms, c, Cursor(step.next.index, step.block));
    ClearPageIsFree(ms, step.block, step.next.value, q);
    GapPageIsKept(ms, c, Cursor(step.next.index, step.block), q);
    ReturnedIff(ms, c, q);
  }

  lemma {:induction false} BehindFits(ms: seq<Range>, c: Cursor, d: Cursor)
    requires Behind(ms, c, d)
    ensures c.index <= |ms| && d.index <= |ms|
  {
  }

  /** Every page of every block of every run is, so blocks of several frames use up
      no page that single frames could not. */
  lemma {:induction false} RunPagesAreReturned(ms: seq<Range>, c: Cursor, d: Cursor, counts: seq<nat>, k: nat, q: nat)
    requires Behind(ms, c, d) && d.index <= |ms| && k < |counts|
    requires forall i :: 0 <= i < |counts| ==> counts[i] >= 1
    requires PageOf(Run(ms, d, PAGE_SIZE, counts)[k], q)
    ensures c.index <= |ms| && Returned(ms, c, q)
    decreases |counts|
  {
    hide Next, Returned, Behind;
    BehindFits(ms, c, d);
    SizePositive(PAGE_SIZE, counts[0]);
    NextStaysBehind(ms, c, d, counts[0]);
    var s := Next(ms, d, PAGE_SIZE * counts[0]);
    BehindFits(ms, c, s.next);
    if k == 0 {
      BlockPageIsReturned(ms, c, d, counts[0], q);
    } else {
      RunPagesAreReturned(ms, c, s.next, counts[1..], k - 1, q);
    }
  }

  // ------------------------------------------------------------------ the limit

  /** Block `k` of a run of requests of any sizes has page `p`. */
  ghost predicate HandsOut(ms: seq<Range>, c: Cursor, counts: seq<nat>, k: nat, p: nat)
    requires c.index <= |ms|
  {
    && k < |counts| && (forall i :: 0 <= i < |counts| ==> counts[i] >= 1)
    && PageOf(Run(ms, c, PAGE_SIZE, counts)[k], p)
  }

  /** The pages that runs of any requests can get are those that single frames
      can. */
  lemma {:induction false} RunsHandOutReturned(ms: seq<Range>, c: Cursor, p: nat)
    requires Ready(ms, c)
    ensures (exists counts: seq<nat>, k: nat :: HandsOut(ms, c, counts, k, p)) <==> Returned(ms, c, p)
  {
    hide Returned, Pages, Run;
    if counts: seq<nat>, k: nat :| HandsOut(ms, c, counts, k, p) {
      RunPagesAreReturned(ms, c, c, counts, k, p);
    }
    if Returned(ms, c, p) {
      ReturnedIff(ms, c, p);
      ReturnedIsRun(ms, c, p);
      var n: nat, k: nat :| k < n && Run(ms, c, PAGE_SIZE, Ones(n))[k] == Range(p, p + PAGE_SIZE);
      assert HandsOut(ms, c, Ones(n), k, p);
    }
  }

  /** The end of a run's block is a whole number of pages from zero. */
  lemma {:induction false} RunIsWholePages(ms: seq<Range>, c: Cursor, d: Cursor, counts: seq<nat>, k: nat)
    requires Behind(ms, c, d) && d.index <= |ms| && k < |counts|
    requires forall i :: 0 <= i < |counts| ==> counts[i] >= 1
    ensures var b := Run(ms, d, PAGE_SIZE, counts)[k];
      Aligned(b.start) && Aligned(b.end) && b.start + PAGE_SIZE <= b.end
    decreases |counts|
  {
    hide Next, Behind;
    SizePositive(PAGE_SIZE, counts[0]);
    NextStaysBehind(ms, c, d, counts[0]);
    var s := Next(ms, d, PAGE_SIZE * counts[0]);
    BehindFits(ms, c, s.next);
    if k == 0 {
      ReadyParts(ms, c, Cursor(s.next.index, s.block));
      Multiples(s.block, counts[0]);
    } else {
      RunIsWholePages(ms, c, s.next, counts[1..], k - 1);
    }
  }

  /** Block `k` of the run passes the comparison, but the frames returned for it,
      which start at a page boundary, end beyond the `size` bytes of memory that
      start at `base`. */
  ghost predicate AcceptedOutside(ms: seq<Range>, c: Cursor, base: nat, size: nat, counts: seq<nat>, k: nat)
    requires c.index <= |ms|
  {
    && k < |counts| && (forall i :: 0 <= i < |counts| ==> counts[i] >= 1)
    && var b := Run(ms, c, PAGE_SIZE, counts)[k];
    b.end <= base + size && PageDown(base + b.start) + b.end - b.start > base + size
  }

  /** A page the allocator can reach that ends between the two limits. */
  predicate PageBetween(ms: seq<Range>, c: Cursor, base: nat, size: nat, p: nat)
    requires c.index <= |ms|
  {
    && c.value <= p && Aligned(p) && size + base % PAGE_SIZE < p + PAGE_SIZE <= base + size
    && FreePage(ms, p) && !Lost(ms, c.index, c.value, p)
  }

  /** Some run of requests, of whatever sizes, gets a block outside memory if and
      only if some free page that is not lost ends beyond the size of memory, by
      more than the base reaches into its page but not by more than the base. */
  lemma {:induction false} LimitFailsIff(ms: seq<Range>, c: Cursor, base: nat, size: nat)
    requires Ready(ms, c)
    ensures (exists counts: seq<nat>, k: nat :: AcceptedOutside(ms, c, base, size, counts, k)) <==>
      exists p: nat :: PageBetween(ms, c, base, size, p)
  {
    hide AcceptedOutside, PageBetween;
    if counts: seq<nat>, k: nat :| AcceptedOutside(ms, c, base, size, counts, k) {
      var p := OutsideHasPage(ms, c, base, size, counts, k);
    }
    if p: nat :| PageBetween(ms, c, base, size, p) {
      PageGoesOutside(ms, c, base, size, p);
    }
  }

  lemma {:induction false} OutsideHasPage(
      ms: seq<Range>, c: Cursor, base: nat, size: nat, counts: seq<nat>, k: nat) returns (p: nat)
    requires Ready(ms, c) && AcceptedOutside(ms, c, base, size, counts, k)
    ensures PageBetween(ms, c, base, size, p)
  {
    hide Lost, FreePage, Returned, Pages, Run, Separated, NonEmpty;
    var b := Run(ms, c, PAGE_SIZE, counts)[k];
    BehindSelf(ms, c);
    RunIsWholePages(ms, c, c, counts, k);
    p := b.end - PAGE_SIZE;
    RunPagesAreReturned(ms, c, c, counts, k, p);
    RoundedBase(base, b.start);
    ReturnedIff(ms, c, p);
  }

  lemma {:induction false} BehindSelf(ms: seq<Range>, c: Cursor)
    requires Ready(ms, c)
    ensures Behind(ms, c, c)
  {
  }

  lemma {:induction false} PageGoesOutside(ms: seq<Range>, c: Cursor, base: nat, size: nat, p: nat)
    requires Ready(ms, c) && PageBetween(ms, c, base, size, p)
    ensures exists counts: seq<nat>, k: nat :: AcceptedOutside(ms, c, base, size, counts, k)
  {
    hide Lost, FreePage, Returned, Pages, Run, Separated, NonEmpty;
    ReturnedIff(ms, c, p);
    ReturnedIsRun(ms, c, p);
    var n: nat, k: nat :| k < n && Run(ms, c, PAGE_SIZE, Ones(n))[k] == Range(p, p + PAGE_SIZE);
    RoundedBase(base, p);
    assert AcceptedOutside(ms, c, base, size, Ones(n), k);
  }

  lemma {:induction false} RoundedBase(base: nat, block: nat)
    requires Aligned(block)
    ensures PageDown(base + block) == base - base % PAGE_SIZE + block
  {
  }

  function Ones(n: nat): (ns: seq<nat>)
    ensures |ns| == n && forall i :: 0 <= i < n ==> ns[i] == 1
  {
    seq(n, _ => 1)
  }

  lemma {:induction false} PagesAreRun(ms: seq<Range>, c: Cursor, n: nat)
    requires Ready(ms, c)
    ensures |Pages(ms, c, n)| == n
    ensures forall k :: 0 <= k < n ==>
      Run(ms, c, PAGE_SIZE, Ones(n))[k] == Range(Pages(ms, c, n)[k], Pages(ms, c, n)[k] + PAGE_SIZE)
    decreases n
  {
    if n > 0 {
      NextStaysReady(ms, c);
      PagesAreRun(ms, SingleNext(ms, c).next, n - 1);
      assert Ones(n)[1..] == Ones(n - 1);
    }
  }

  lemma {:induction false} ReturnedIsRun(ms: seq<Range>, c: Cursor, p: nat)
    requires Ready(ms, c) && Returned(ms, c, p)
    ensures exists n: nat, k: nat :: k < n && Run(ms, c, PAGE_SIZE, Ones(n))[k] == Range(p, p + PAGE_SIZE)
  {
    var n: nat :| p in Pages(ms, c, n);
    PagesAreRun(ms, c, n);
    var k :| 0 <= k < n && Pages(ms, c, n)[k] == p;
    assert Run(ms, c, PAGE_SIZE, Ones(n))[k] == Range(p, p + PAGE_SIZE);
  }

  /** At a base below one page it is right. */
  lemma {:induction false} LimitHoldsNearZero(ms: seq<Range>, c: Cursor, base: nat, size: nat, counts: seq<nat>, k: nat)
    requires Ready(ms, c) && base < PAGE_SIZE
    ensures !AcceptedOutside(ms, c, base, size, counts, k)
  {
    hide Lost, FreePage, AcceptedOutside;
    LimitFailsIff(ms, c, base, size);
    forall p: nat ensures !PageBetween(ms, c, base, size, p) { }
  }

  /** An allocator at which it is wrong: memory of 0x101000 bytes at 0x2000, its
      page at 0x100000 unavailable. The first frame is at 0x103000, which is where
      memory ends. */
  lemma {:induction false} FrameOutsideMemory()
    ensures var rs := [Region(0x100000, 0x1000)];
      var c := Cursor(InitialIndex(Merge(rs), FIRST_FRAME), FIRST_FRAME);
      && Next(Merge(rs), c, PAGE_SIZE).block == 0x101000
      && AcceptedOutside(Merge(rs), c, 0x2000, 0x101000, [1], 0)
  {
    var rs := [Region(0x100000, 0x1000)];
    var ms := Merge(rs);
    assert ms == [Range(0x100000, 0x101000)];
    var c := Cursor(InitialIndex(ms, FIRST_FRAME), FIRST_FRAME);
    assert c == Cursor(0, 0x100000);
    ClimbIsLand(ms[0], 0x100000);
    assert Skip(ms, 0, 0x101000, PAGE_SIZE) == Cursor(1, 0x101000);
    assert Next(ms, c, PAGE_SIZE) == Step(0x101000, Cursor(1, 0x102000));
    assert PAGE_SIZE * 1 == PAGE_SIZE;
  }
}
