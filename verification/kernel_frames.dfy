/** The kernel's frame allocator: the merge of the unavailable regions and the
    iterator that steps over the merged ranges. */
module KernelFrames {
  import opened Regions

  // ---------------------------------------------------------------- merging

  /** One step of the merge: `r` either opens a new range or extends the last. */
  function Push(ms: seq<Range>, r: Region): seq<Range>
    requires |ms| >= 1
  {
    var top := ms[|ms| - 1];
    if top.end < r.start then ms + [Range(r.start, r.End())]
    else if top.end < r.End() then ms[|ms| - 1 := Range(top.start, r.End())]
    else ms
  }

  function Merge(rs: seq<Region>): seq<Range>
    requires |rs| >= 1
    ensures |Merge(rs)| >= 1
  {
    if |rs| == 1 then [Range(rs[0].start, rs[0].End())]
    else Push(Merge(rs[..|rs| - 1]), rs[|rs| - 1])
  }

  lemma {:induction false} PushCovers(ms: seq<Range>, r: Region, a: int)
    requires |ms| >= 1 && Separated(ms) && ms[|ms| - 1].start <= r.start
    ensures Covered(Push(ms, r), a) <==> Covered(ms, a) || r.Holds(a)
  {
    var ps, n := Push(ms, r), |ms|;
    if Covered(ms, a) {
      var i :| 0 <= i < n && ms[i].Contains(a);
      assert ps[i].Contains(a);
    }
    if r.Holds(a) {
      assert ps[|ps| - 1].Contains(a) || ms[n - 1].Contains(a);
      assert ps[|ps| - 1].Contains(a) || ps[n - 1].Contains(a);
    }
    if Covered(ps, a) {
      var i :| 0 <= i < |ps| && ps[i].Contains(a);
      assert i < n - 1 ==> ms[i] == ps[i];
      if i == n - 1 && !r.Holds(a) {
        assert ms[n - 1].Contains(a);
      }
    }
  }

  lemma {:induction false} MergeSeparates(rs: seq<Region>)
    requires |rs| >= 1 && SortedByStart(rs)
    ensures Separated(Merge(rs))
    ensures Merge(rs)[|Merge(rs)| - 1].start <= rs[|rs| - 1].start
  {
    if |rs| > 1 {
      MergeSeparates(rs[..|rs| - 1]);
    }
  }

  lemma {:induction false} InSomeSnoc(rs: seq<Region>, r: Region, a: int)
    ensures InSome(rs + [r], a) <==> InSome(rs, a) || r.Holds(a)
  {
    var all := rs + [r];
    if InSome(rs, a) {
      var i :| 0 <= i < |rs| && rs[i].Holds(a);
      assert all[i].Holds(a);
    }
    assert all[|rs|] == r;
  }

  lemma {:induction false} MergeCovers(rs: seq<Region>, a: int)
    requires |rs| >= 1 && SortedByStart(rs)
    ensures Covered(Merge(rs), a) <==> InSome(rs, a)
  {
    if |rs| == 1 {
      assert Merge(rs)[0].Contains(a) <==> rs[0].Holds(a);
    } else {
      var init, r := rs[..|rs| - 1], rs[|rs| - 1];
      MergeSeparates(init);
      MergeCovers(init, a);
      PushCovers(Merge(init), r, a);
      assert init + [r] == rs;
      InSomeSnoc(init, r, a);
    }
  }

  /** The merged ranges cover exactly the union of the regions and are sorted
      and strictly separated. */
  lemma {:induction false} MergeIsUnion(rs: seq<Region>)
    requires |rs| >= 1 && SortedByStart(rs)
    ensures Separated(Merge(rs))
    ensures forall a :: Covered(Merge(rs), a) <==> InSome(rs, a)
  {
    MergeSeparates(rs);
    forall a ensures Covered(Merge(rs), a) <==> InSome(rs, a) {
      MergeCovers(rs, a);
    }
  }

  /** The number of ranges that end at or below `start`: where iteration begins. */
  function InitialIndex(ms: seq<Range>, start: nat): (k: nat)
    ensures k <= |ms|
  {
    if ms == [] then 0
    else if ms[|ms| - 1].end <= start then |ms|
    else InitialIndex(ms[..|ms| - 1], start)
  }

  /** The ranges before the initial index are exactly those ending by `start`. */
  lemma {:induction false} InitialIndexIsExact(ms: seq<Range>, start: nat)
    requires Separated(ms)
    ensures forall i :: 0 <= i < |ms| ==> (i < InitialIndex(ms, start) <==> ms[i].end <= start)
  {
    if ms != [] && ms[|ms| - 1].end > start {
      var init := ms[..|ms| - 1];
      assert forall i, j :: 0 <= i < j < |init| ==> init[i].end < init[j].start;
      InitialIndexIsExact(init, start);
      assert forall i :: 0 <= i < |init| ==> init[i] == ms[i];
    }
  }

  // -------------------------------------------------------------- iterating

  /** Where the iterator stands: the next range and the next candidate value. */
  datatype Cursor = Cursor(index: nat, value: nat)

  datatype Step = Step(block: nat, next: Cursor)

  /** Climb by whole blocks until the value has left the range. */
  function Climb(r: Range, v: nat, size: nat): (w: nat)
    requires size > 0
    ensures v <= w && !r.Contains(w) && w <= Max(v, r.end + size - 1)
    ensures r.start <= v ==> r.end <= w
    ensures !r.Contains(v) ==> w == v
    decreases r.end - v
  {
    if r.Contains(v) then Climb(r, v + size, size) else v
  }

  /** Climb out of range `i`, and out of each next range the value lands in. */
  function Skip(ms: seq<Range>, i: nat, v: nat, size: nat): (c: Cursor)
    requires size > 0 && i < |ms|
    ensures i < c.index <= |ms| && v <= c.value
    decreases |ms| - i
  {
    var w := Climb(ms[i], v, size);
    if i + 1 < |ms| && ms[i + 1].Contains(w) then Skip(ms, i + 1, w, size)
    else Cursor(i + 1, w)
  }

  lemma {:induction false} SkipUnfolds(ms: seq<Range>, i: nat, v: nat, size: nat)
    requires size > 0 && i < |ms|
    ensures var w := Climb(ms[i], v, size);
      Skip(ms, i, v, size) ==
        if i + 1 < |ms| && ms[i + 1].Contains(w) then Skip(ms, i + 1, w, size) else Cursor(i + 1, w)
  {
  }

  /** The block the iterator returns for a request of `size` bytes. */
  function Next(ms: seq<Range>, c: Cursor, size: nat): Step
    requires size > 0 && c.index <= |ms|
    decreases |ms| - c.index
  {
    if c.index == |ms| || c.value + size <= ms[c.index].start
    then Step(c.value, Cursor(c.index, c.value + size))
    else Next(ms, Skip(ms, c.index, c.value + size, size), size)
  }

  /** Everything behind the cursor has been left behind. */
  ghost predicate Passed(ms: seq<Range>, c: Cursor) {
    c.index <= |ms| && (c.index > 0 ==> ms[c.index - 1].end <= c.value)
  }

  lemma {:induction false} SkipPasses(ms: seq<Range>, i: nat, v: nat, size: nat)
    requires Separated(ms) && size > 0 && i < |ms| && ms[i].start <= v
    ensures Passed(ms, Skip(ms, i, v, size))
    ensures Skip(ms, i, v, size).value <= Max(v, ms[|ms| - 1].end + size - 1)
    decreases |ms| - i
  {
    var w := Climb(ms[i], v, size);
    assert i < |ms| - 1 ==> ms[i].end < ms[|ms| - 1].start;
    if i + 1 < |ms| && ms[i + 1].Contains(w) {
      SkipPasses(ms, i + 1, w, size);
    }
  }

  ghost predicate Congruent(x: int, y: int, m: nat)
    requires m > 0
  {
    exists k: int :: x == y + k * m
  }

  lemma {:induction false} CongruentTrans(x: int, y: int, z: int, m: nat)
    requires m > 0 && Congruent(x, y, m) && Congruent(y, z, m)
    ensures Congruent(x, z, m)
  {
    var j :| x == y + j * m;
    var k :| y == z + k * m;
    assert x == z + (j + k) * m;
  }

  lemma {:induction false} CongruentStep(x: int, count: nat, m: nat)
    requires m > 0
    ensures Congruent(x + m * count, x, m)
  {
    assert x + m * count == x + count * m;
  }

  lemma {:induction false} CongruentRefl(x: int, m: nat)
    requires m > 0
    ensures Congruent(x, x, m)
  {
    assert x == x + 0 * m;
  }

  lemma {:induction false} ClimbCongruent(r: Range, v: nat, window: nat, count: nat)
    requires window > 0 && window * count > 0
    ensures Congruent(Climb(r, v, window * count), v, window)
    decreases r.end - v
  {
    var size := window * count;
    if r.Contains(v) {
      ClimbCongruent(r, v + size, window, count);
      CongruentStep(v, count, window);
      CongruentTrans(Climb(r, v, size), v + size, v, window);
    } else {
      CongruentRefl(v, window);
    }
  }

  lemma {:induction false} SkipCongruent(ms: seq<Range>, i: nat, v: nat, window: nat, count: nat)
    requires window > 0 && window * count > 0 && i < |ms|
    ensures Congruent(Skip(ms, i, v, window * count).value, v, window)
    decreases |ms| - i
  {
    var size := window * count;
    var w := Climb(ms[i], v, size);
    ClimbCongruent(ms[i], v, window, count);
    if i + 1 < |ms| && ms[i + 1].Contains(w) {
      SkipCongruent(ms, i + 1, w, window, count);
      CongruentTrans(Skip(ms, i, v, size).value, w, v, window);
    }
  }

  /** Between the range before the cursor and the next one nothing is covered. */
  lemma {:induction false} GapIsClear(ms: seq<Range>, c: Cursor, hi: nat)
    requires Separated(ms) && Passed(ms, c)
    requires c.index < |ms| ==> hi <= ms[c.index].start
    ensures Clear(ms, c.value, hi)
  {
    forall a | c.value <= a < hi ensures !Covered(ms, a) {
      forall i | 0 <= i < |ms| ensures !ms[i].Contains(a) {
        if i < c.index - 1 { assert ms[i].end < ms[c.index - 1].start; }
        if i > c.index { assert ms[c.index].end < ms[i].start; }
      }
    }
  }

  lemma {:induction false} NextCongruent(ms: seq<Range>, c: Cursor, window: nat, count: nat)
    requires window > 0 && window * count > 0 && c.index <= |ms|
    ensures Congruent(Next(ms, c, window * count).block, c.value, window)
    decreases |ms| - c.index
  {
    var size := window * count;
    if c.index == |ms| || c.value + size <= ms[c.index].start {
      CongruentRefl(c.value, window);
    } else {
      SkipCongruent(ms, c.index, c.value + size, window, count);
      var d := Skip(ms, c.index, c.value + size, size);
      NextCongruent(ms, d, window, count);
      CongruentStep(c.value, count, window);
      CongruentTrans(d.value, c.value + size, c.value, window);
      CongruentTrans(Next(ms, d, size).block, d.value, c.value, window);
    }
  }

  /** One request: the block lies at or after the cursor, is clear of every
      range, and leaves the cursor at its end with nothing left behind. */
  lemma {:induction false} NextIsClear(ms: seq<Range>, c: Cursor, size: nat)
    requires Separated(ms) && Passed(ms, c) && size > 0
    ensures var s := Next(ms, c, size);
      && c.value <= s.block && s.next.value == s.block + size
      && Passed(ms, s.next) && Clear(ms, s.block, s.block + size)
    decreases |ms| - c.index
  {
    hide Separated, Clear, Skip;
    if c.index == |ms| || c.value + size <= ms[c.index].start {
      GapIsClear(ms, c, c.value + size);
    } else {
      SkipPasses(ms, c.index, c.value + size, size);
      NextIsClear(ms, Skip(ms, c.index, c.value + size, size), size);
    }
  }

  /** The blocks returned for a whole sequence of requests. */
  function Run(ms: seq<Range>, c: Cursor, window: nat, counts: seq<nat>): (bs: seq<Range>)
    requires window > 0 && c.index <= |ms|
    requires forall i :: 0 <= i < |counts| ==> counts[i] >= 1
    ensures |bs| == |counts|
    decreases |counts|
  {
    if counts == [] then [] else
      var size := window * counts[0];
      SizePositive(window, counts[0]);
      var s := Next(ms, c, size);
      NextInRange(ms, c, size);
      [Range(s.block, s.block + size)] + Run(ms, s.next, window, counts[1..])
  }

  lemma {:induction false} SizePositive(window: nat, count: nat)
    requires window > 0 && count >= 1
    ensures window * count >= window
  {
    assert window * count == window + window * (count - 1);
  }

  lemma {:induction false} NextInRange(ms: seq<Range>, c: Cursor, size: nat)
    requires size > 0 && c.index <= |ms|
    ensures Next(ms, c, size).next.index <= |ms|
    decreases |ms| - c.index
  {
    if !(c.index == |ms| || c.value + size <= ms[c.index].start) {
      NextInRange(ms, Skip(ms, c.index, c.value + size, size), size);
    }
  }

  lemma {:induction false} NextAdvances(ms: seq<Range>, c: Cursor, size: nat)
    requires size > 0 && c.index <= |ms|
    ensures Next(ms, c, size).next.value == Next(ms, c, size).block + size
    decreases |ms| - c.index
  {
    if !(c.index == |ms| || c.value + size <= ms[c.index].start) {
      NextAdvances(ms, Skip(ms, c.index, c.value + size, size), size);
    }
  }

  /** Over every sequence of requests the blocks are window-aligned, strictly
      increasing, pairwise disjoint and clear of every unavailable address. */
  lemma {:induction false} RunIsSafe(ms: seq<Range>, c: Cursor, window: nat, counts: seq<nat>)
    requires Separated(ms) && Passed(ms, c) && window > 0
    requires forall i :: 0 <= i < |counts| ==> counts[i] >= 1
    ensures var bs := Run(ms, c, window, counts);
      && (forall i :: 0 <= i < |bs| ==> c.value <= bs[i].start && bs[i].end == bs[i].start + window * counts[i])
      && (forall i :: 0 <= i < |bs| ==> Clear(ms, bs[i].start, bs[i].end))
      && (forall i :: 0 <= i < |bs| ==> Congruent(bs[i].start, c.value, window))
      && (forall i, j :: 0 <= i < j < |bs| ==> bs[i].end <= bs[j].start)
    decreases |counts|
  {
    hide Next, Clear, Congruent, Separated;
    if counts != [] {
      SizePositive(window, counts[0]);
      var size := window * counts[0];
      NextIsClear(ms, c, size);
      NextCongruent(ms, c, window, counts[0]);
      var s := Next(ms, c, size);
      RunIsSafe(ms, s.next, window, counts[1..]);
      var bs, rest := Run(ms, c, window, counts), Run(ms, s.next, window, counts[1..]);
      assert bs == [Range(s.block, s.block + size)] + rest;
      CongruentStep(s.block, counts[0], window);
      CongruentTrans(s.next.value, s.block, c.value, window);
      forall i | 0 <= i < |bs| ensures Congruent(bs[i].start, c.value, window) {
        if i > 0 { CongruentTrans(rest[i - 1].start, s.next.value, c.value, window); }
      }
    }
  }

  // ------------------------------------------------------- the iterator object

  const MAX_RANGE_COUNT: nat := 512

  /** The highest address any range reaches. */
  function LastEnd(ms: seq<Range>): nat {
    if ms == [] then 0 else ms[|ms| - 1].end
  }

  /** The room `k` blocks take up. */
  function Room(k: nat, size: nat): nat {
    if k == 0 then 0 else size + Room(k - 1, size)
  }

  lemma {:induction false} RoomIsProduct(k: nat, size: nat)
    ensures Room(k, size) == k * size
  {
    if k > 0 { RoomIsProduct(k - 1, size); }
  }

  /** A bound on every sum `next_n` forms for requests of `size` bytes: the
      higher of the cursor and the last range end, and one block more than
      there are ranges ahead. */
  function Ceiling(ms: seq<Range>, c: Cursor, size: nat): nat
    requires c.index <= |ms|
  {
    Max(c.value, LastEnd(ms)) + Room(|ms| - c.index + 1, size)
  }

  lemma {:induction false} CeilingBounds(ms: seq<Range>, c: Cursor, size: nat)
    requires c.index <= |ms|
    ensures Max(c.value, LastEnd(ms)) + size <= Ceiling(ms, c, size)
  {
  }

  lemma {:induction false} RoomGrows(j: nat, k: nat, size: nat)
    requires j <= k
    ensures Room(j, size) <= Room(k, size)
  {
    if j < k { RoomGrows(j, k - 1, size); }
  }

  /** Skipping never raises the ceiling, so a recursive request needs no more room. */
  lemma {:induction false} CeilingFalls(ms: seq<Range>, c: Cursor, d: Cursor, size: nat)
    requires c.index < d.index <= |ms| && d.value <= Max(c.value, LastEnd(ms)) + size
    ensures Ceiling(ms, d, size) <= Ceiling(ms, c, size)
  {
    RoomGrows(|ms| - d.index + 1, |ms| - c.index, size);
  }

  lemma {:induction false} SkipLowersCeiling(ms: seq<Range>, c: Cursor, size: nat)
    requires Separated(ms) && c.index < |ms| && size > 0 && ms[c.index].start <= c.value + size
    ensures Ceiling(ms, Skip(ms, c.index, c.value + size, size), size) <= Ceiling(ms, c, size)
  {
    SkipPasses(ms, c.index, c.value + size, size);
    CeilingFalls(ms, c, Skip(ms, c.index, c.value + size, size), size);
  }

  class LinkedRangeIterator {
    const ranges: array<Range>
    var rangeSize: nat
    var window: u64
    var currentRangeIndex: nat
    var currentValue: u64
    ghost var merged: seq<Range>   // the initialised part of `ranges`

    ghost function At(): Cursor
      reads this
    {
      Cursor(currentRangeIndex, currentValue as nat)
    }

    ghost predicate Valid()
      reads this, ranges
    {
      && ranges.Length == MAX_RANGE_COUNT && rangeSize <= MAX_RANGE_COUNT
      && |merged| == rangeSize && ranges[..rangeSize] == merged
      && window > 0
      && Separated(merged)
      && Passed(merged, At())
    }

    /** The iterator over the complement of `regions`, from `start` upwards. */
    constructor (start: u64, window: u64, regions: seq<Region>)
      requires window > 0
      requires |regions| >= 1 && SortedByStart(regions)
      requires forall i :: 0 <= i < |regions| ==> regions[i].End() < U64_LIMIT
      requires |Merge(regions)| <= MAX_RANGE_COUNT
      ensures Valid() && fresh(ranges)
      ensures merged == Merge(regions) && this.window == window
      ensures At() == Cursor(InitialIndex(merged, start as nat), start as nat)
    {
      ranges := new Range[MAX_RANGE_COUNT];
      this.window := window;
      currentValue := start;
      new;
      var stack, size := MergeRegions(regions);
      rangeSize := size;
      currentRangeIndex := CopyRanges(stack, size, ranges, start as nat);
      merged := ranges[..size];
      MergeIsUnion(regions);
      InitialIndexIsExact(merged, start as nat);
    }

    static method CopyRanges(stack: array<Range>, size: nat, into: array<Range>, start: nat)
      returns (initialIndex: nat)
      requires size <= stack.Length == into.Length && stack != into
      modifies into
      ensures into[..size] == old(stack[..size])
      ensures initialIndex == InitialIndex(old(stack[..size]), start)
    {
      ghost var ms := stack[..size];
      var currIdx := 0;
      initialIndex := 0;
      while currIdx < size
        invariant currIdx <= size && stack[..size] == ms
        invariant into[..currIdx] == ms[..currIdx]
        invariant initialIndex == InitialIndex(ms[..currIdx], start)
      {
        var pop := stack[currIdx];
        into[currIdx] := pop;
        currIdx := currIdx + 1;
        if pop.end <= start {
          initialIndex := currIdx;
        }
        assert ms[..currIdx][..currIdx - 1] == ms[..currIdx - 1];
      }
      assert ms[..size] == ms;
    }

    static method MergeRegions(regions: seq<Region>) returns (stack: array<Range>, size: nat)
      requires |regions| >= 1 && |Merge(regions)| <= MAX_RANGE_COUNT
      ensures fresh(stack) && stack.Length == MAX_RANGE_COUNT && size <= stack.Length
      ensures stack[..size] == Merge(regions)
    {
      stack := new Range[MAX_RANGE_COUNT];
      stack[0] := Range(regions[0].start, regions[0].End());
      size := 1;
      MergeOne(regions);
      hide Merge;
      if |regions| == 1 { return; }
      var currIdx := 0;
      for i := 1 to |regions|
        invariant size == currIdx + 1 <= MAX_RANGE_COUNT == stack.Length
        invariant stack[..size] == Merge(regions[..i])
      {
        MergeOneMore(regions, i);
        var rStart, rEnd := regions[i].start, regions[i].End();
        var peek := stack[currIdx];
        if peek.end < rStart {
          currIdx := currIdx + 1;
          stack[currIdx] := Range(rStart, rEnd);
          size := size + 1;
        } else if peek.end < rEnd {
          stack[currIdx] := Range(peek.start, rEnd);
        }
      }
      assert regions[..|regions|] == regions;
    }

    /** Take `count` consecutive windows. Every sum the method forms fits in 64
        bits as soon as the ceiling does. */
    method NextN(count: u64) returns (block: u64)
      requires Valid() && rangeSize < MAX_RANGE_COUNT && count >= 1
      requires Ceiling(merged, At(), window as nat * count as nat) < U64_LIMIT
      modifies this
      ensures Valid() && window == old(window) && merged == old(merged)
      ensures Step(block as nat, At()) == Next(merged, old(At()), window as nat * count as nat)
    {
      SizePositive(window as nat, count as nat);
      var required := window * count;
      block := NextBlock(required);
    }

    method NextBlock(required: u64) returns (block: u64)
      requires Valid() && rangeSize < MAX_RANGE_COUNT && required > 0
      requires Ceiling(merged, At(), required as nat) < U64_LIMIT
      modifies this
      ensures Valid() && window == old(window) && merged == old(merged)
      ensures Step(block as nat, At()) == Next(merged, old(At()), required as nat)
      decreases rangeSize - currentRangeIndex
    {
      hide Separated, Skip, Ceiling;
      ghost var ms, c, size := merged, At(), required as nat;
      CeilingBounds(ms, c, size);
      var free := currentRangeIndex == rangeSize;
      if !free {
        free := (currentValue + required) as nat <= ranges[currentRangeIndex].start;
      }
      if free {
        block := currentValue;
        currentValue := currentValue + required;
      } else {
        SkipOverlapped(required);
        SkipLowersCeiling(ms, c, size);
        block := NextBlock(required);
      }
    }

    /** The loops of `next_n`: leave the current range and every range landed in. */
    method SkipOverlapped(required: u64)
      requires Valid() && currentRangeIndex < rangeSize < MAX_RANGE_COUNT && required > 0
      requires currentValue as nat + required as nat > merged[currentRangeIndex].start
      requires Max(currentValue as nat, LastEnd(merged)) + required as nat < U64_LIMIT
      modifies this
      ensures Valid() && window == old(window) && merged == old(merged) && rangeSize == old(rangeSize)
      ensures At() == Skip(merged, old(currentRangeIndex), old(currentValue as nat) + required as nat, required as nat)
    {
      ghost var ms, size, i0, v0 := merged, required as nat, currentRangeIndex, currentValue as nat + required as nat;
      ghost var target := Skip(ms, i0, v0, size);
      SkipPasses(ms, i0, v0, size);
      hide Skip, Climb, Separated, Passed, LastEnd;
      var curr := currentValue + required;
      var index, overlapped := currentRangeIndex, true;
      while overlapped && index < rangeSize
        invariant 0 <= index <= rangeSize
        invariant overlapped && index < rangeSize ==> Skip(ms, index, curr as nat, size) == target
        invariant !(overlapped && index < rangeSize) ==> Cursor(index, curr as nat) == target
        modifies {}
        decreases rangeSize - index
      {
        SkipUnfolds(ms, index, curr as nat, size);
        curr := ClimbOut(index, curr, required);
        index := index + 1;
        assert index < rangeSize ==> ranges[index] == ms[index];
        overlapped := ranges[index].Contains(curr as int);
      }
      currentRangeIndex, currentValue := index, curr;
    }

    method ClimbOut(index: nat, from: u64, required: u64) returns (curr: u64)
      requires Valid() && index < rangeSize && required > 0
      requires LastEnd(merged) + required as nat < U64_LIMIT
      ensures curr as nat == Climb(merged[index], from as nat, required as nat)
    {
      LastEndIsLast(merged, index);
      var range := ranges[index];
      curr := from;
      while range.Contains(curr as int)
        invariant Climb(range, curr as nat, required as nat) == Climb(range, from as nat, required as nat)
        decreases range.end - curr as int
      {
        curr := curr + required;
      }
    }
  }

  /** The allocator proper: blocks beyond the end of memory are refused. */
  class LinearIncFrameAllocator {
    const iter: LinkedRangeIterator
    const baseAddress: u64
    const boundary: u64

    ghost predicate Valid()
      reads this, iter, iter.ranges
    {
      iter.Valid() && iter.rangeSize < MAX_RANGE_COUNT
    }

    constructor (base: u64, window: u64, memorySize: u64, regions: seq<Region>)
      requires window > 0 && base as nat + memorySize as nat < U64_LIMIT
      requires |regions| >= 1 && SortedByStart(regions)
      requires forall i :: 0 <= i < |regions| ==> regions[i].End() < U64_LIMIT
      requires |Merge(regions)| < MAX_RANGE_COUNT
      ensures Valid() && fresh(iter) && fresh(iter.ranges)
      ensures iter.merged == Merge(regions) && iter.window == window
      ensures iter.At() == Cursor(InitialIndex(Merge(regions), 0x100000), 0x100000)
      ensures baseAddress == base && boundary as nat == base as nat + memorySize as nat
    {
      iter := new LinkedRangeIterator(0x100000, window, regions);
      baseAddress := base;
      boundary := base + memorySize;
    }

    /** The page at the start of a block of `count` windows, or none when it would
        end beyond the boundary; the iterator moves on either way. */
    method AllocateFrames(count: u64) returns (start: Option<u64>)
      requires Valid() && count >= 1
      requires Ceiling(iter.merged, iter.At(), iter.window as nat * count as nat) < U64_LIMIT
      requires baseAddress as nat + boundary as nat < U64_LIMIT
      modifies iter
      ensures Valid() && iter.merged == old(iter.merged) && iter.window == old(iter.window)
      ensures var size := iter.window as nat * count as nat;
        var step := Next(iter.merged, old(iter.At()), size);
        && iter.At() == step.next
        && (start.None? <==> step.block + size > boundary as nat)
        && (start.Some? ==> start.value as nat == PageDown(baseAddress as nat + step.block))
    {
      SizePositive(iter.window as nat, count as nat);
      NextAdvances(iter.merged, iter.At(), iter.window as nat * count as nat);
      var block := iter.NextN(count);
      var size := iter.window * count;
      if block + size > boundary {
        return None;
      }
      return Some((baseAddress + block) / 4096 * 4096);
    }
  }

  lemma {:induction false} MergeOne(rs: seq<Region>)
    requires |rs| >= 1
    ensures Merge(rs[..1]) == [Range(rs[0].start, rs[0].End())]
    ensures |rs| == 1 ==> rs[..1] == rs
  {
  }

  lemma {:induction false} MergeOneMore(rs: seq<Region>, i: nat)
    requires 1 <= i < |rs|
    ensures Merge(rs[..i + 1]) == Push(Merge(rs[..i]), rs[i])
    ensures |Merge(rs[..i + 1])| <= |Merge(rs)|
  {
    assert rs[..i + 1][..i] == rs[..i];
    MergeOnlyGrows(rs, i + 1);
  }

  lemma {:induction false} MergeOnlyGrows(rs: seq<Region>, i: nat)
    requires 1 <= i <= |rs|
    ensures |Merge(rs[..i])| <= |Merge(rs)|
    decreases |rs| - i
  {
    if i < |rs| {
      assert rs[..i + 1][..i] == rs[..i];
      MergeOnlyGrows(rs, i + 1);
    } else {
      assert rs[..i] == rs;
    }
  }

  lemma {:induction false} LastEndIsLast(ms: seq<Range>, i: nat)
    requires Separated(ms) && i < |ms|
    ensures ms[i].end <= LastEnd(ms)
  {
    if i < |ms| - 1 { assert ms[i].end < ms[|ms| - 1].start; }
  }
}
