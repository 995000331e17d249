/** Which short buffers overlap, told from the sizes asked for alone. */
module ShortBuffers {
  import opened Regions
  import opened UserSpace
  import opened UserFrames
  import opened UserBuffers

  datatype Class = SmallClass | MediumClass | LargeClass

  function ClassOf(size: nat): Class {
    if size <= SMALL then SmallClass else if size <= MEDIUM then MediumClass else LargeClass
  }

  /** How much of a class's page the requests so far have filled. */
  function Fill(sizes: seq<nat>, c: Class): nat {
    if sizes == [] then 0 else
      var before, size := Fill(sizes[..|sizes| - 1], c), sizes[|sizes| - 1];
      if ClassOf(size) != c then before else if before + size > PAGE_SIZE then size else before + size
  }

  /** Request `k` no longer fits the page of its class. */
  predicate TakesNewPage(sizes: seq<nat>, k: nat)
    requires k < |sizes|
  {
    Fill(sizes[..k], ClassOf(sizes[k])) + sizes[k] > PAGE_SIZE
  }

  /** How many pages the class has taken since its first. */
  function Turn(sizes: seq<nat>, c: Class): nat {
    if sizes == [] then 0 else
      var n := |sizes| - 1;
      Turn(sizes[..n], c) + if ClassOf(sizes[n]) == c && TakesNewPage(sizes, n) then 1 else 0
  }

  /** The turn of a class changes exactly with its new pages. */
  lemma {:induction false} TurnKeptIff(sizes: seq<nat>, c: Class, i: nat, j: nat)
    requires i <= j < |sizes|
    ensures Turn(sizes[..i + 1], c) <= Turn(sizes[..j + 1], c)
    ensures Turn(sizes[..i + 1], c) == Turn(sizes[..j + 1], c) <==>
      forall k :: i < k <= j && ClassOf(sizes[k]) == c ==> !TakesNewPage(sizes, k)
    decreases j - i
  {
    if i < j {
      TurnKeptIff(sizes, c, i, j - 1);
      assert sizes[..j + 1][..j] == sizes[..j - 1 + 1];
      assert TakesNewPage(sizes[..j + 1], j) == TakesNewPage(sizes, j);
    }
  }

  // ------------------------------------------------------------ the run's state

  function List(t: Space, c: Class): seq<Tracked> { if c.SmallClass? then t.small else t.medium }

  /** All tracked pages are different, and the newest of a class comes last. */
  ghost predicate PagesDiffer(t: Space) {
    && (forall i, j :: 0 <= i < j < |t.small| ==> t.small[i].index < t.small[j].index)
    && (forall i, j :: 0 <= i < j < |t.medium| ==> t.medium[i].index < t.medium[j].index)
    && (forall i, j :: 0 <= i < |t.small| && 0 <= j < |t.medium| ==> t.small[i].index != t.medium[j].index)
  }

  ghost predicate Counts(t: Space, sizes: seq<nat>) {
    && t.smallFill == Fill(sizes, SmallClass) && |t.small| == Turn(sizes, SmallClass) + 1
    && t.mediumFill == Fill(sizes, MediumClass) && |t.medium| == Turn(sizes, MediumClass) + 1
  }

  /** A short buffer lies at the start of the page its class was at then. */
  ghost predicate LiesAt(t: Space, sizes: seq<nat>, b: Buffer, i: nat)
    requires i < |sizes|
  {
    var c := ClassOf(sizes[i]);
    var turn := Turn(sizes[..i + 1], c);
    turn < |List(t, c)| && b == Buffer((t.base + List(t, c)[turn].index) * PAGE_SIZE, sizes[i])
  }

  ghost predicate Follows(t: Space, sizes: seq<nat>, bs: seq<Buffer>) {
    && Placed(t) && PagesDiffer(t) && Counts(t, sizes) && |bs| == |sizes|
    && forall i :: 0 <= i < |sizes| && !ClassOf(sizes[i]).LargeClass? ==> LiesAt(t, sizes, bs[i], i)
  }

  lemma {:induction false} Snoc(sizes: seq<nat>, size: nat, c: Class)
    ensures var all, before := sizes + [size], Fill(sizes, c);
      var fresh_ := ClassOf(size) == c && before + size > PAGE_SIZE;
      && Fill(all, c) == (if ClassOf(size) != c then before else if fresh_ then size else before + size)
      && Turn(all, c) == Turn(sizes, c) + if fresh_ then 1 else 0
  {
    assert (sizes + [size])[..|sizes|] == sizes;
  }

  /** Buffers stay where they are when lists only grow. */
  lemma {:induction false} LiesStill(s: Space, t: Space, sizes: seq<nat>, size: nat, b: Buffer, i: nat)
    requires i < |sizes| && LiesAt(s, sizes, b, i) && t.base == s.base && s.small <= t.small && s.medium <= t.medium
    ensures LiesAt(t, sizes + [size], b, i)
  {
    assert (sizes + [size])[..i + 1] == sizes[..i + 1];
  }

  lemma {:induction false} LastLies(t: Space, sizes: seq<nat>, size: nat)
    requires Counts(t, sizes + [size]) && !ClassOf(size).LargeClass?
    ensures var list := List(t, ClassOf(size));
      |list| >= 1 && LiesAt(t, sizes + [size], Buffer((t.base + list[|list| - 1].index) * PAGE_SIZE, size), |sizes|)
  {
    assert (sizes + [size])[..|sizes| + 1] == sizes + [size];
  }

  /** What one allocation does to the lists. */
  ghost predicate Stepped(s: Space, sizes: seq<nat>, size: nat, t: Space, b: Buffer) {
    && t.base == s.base && s.small <= t.small && s.medium <= t.medium
    && PagesDiffer(t) && Counts(t, sizes + [size])
    && (!ClassOf(size).LargeClass? ==>
        var list := List(t, ClassOf(size));
        |list| >= 1 && b == Buffer((t.base + list[|list| - 1].index) * PAGE_SIZE, size))
  }

  lemma {:induction false} NewPageDiffers(s: Space, t: Space, frame: nat)
    requires Placed(s) && PagesDiffer(s)
    requires
      || (t.medium == s.medium && t.small == s.small + [Tracked(frame, s.consumed)])
      || (t.small == s.small && t.medium == s.medium + [Tracked(frame, s.consumed)])
    ensures PagesDiffer(t)
  {
  }

  lemma {:induction false} SmallSteps(s: Space, supply: nat -> nat, sizes: seq<nat>, size: nat)
    requires Placed(s) && PagesDiffer(s) && Counts(s, sizes) && size <= SMALL
    ensures var r := AllocSmall(s, supply, size);
      r.Some? && Stepped(s, sizes, size, r.value.0, r.value.1)
  {
    hide NewPage, Fill, Turn, PagesDiffer;
    Snoc(sizes, size, SmallClass);
    Snoc(sizes, size, MediumClass);
    if size + s.smallFill > PAGE_SIZE {
      NewPageIs(s, supply);
      NewPageDiffers(s, AllocSmall(s, supply, size).value.0, supply(s.taken));
    } else {
      SameLists(s, AllocSmall(s, supply, size).value.0);
    }
  }

  lemma {:induction false} MediumSteps(s: Space, supply: nat -> nat, sizes: seq<nat>, size: nat)
    requires Placed(s) && PagesDiffer(s) && Counts(s, sizes) && SMALL < size <= MEDIUM
    ensures var r := AllocMedium(s, supply, size);
      r.Some? && Stepped(s, sizes, size, r.value.0, r.value.1)
  {
    hide NewPage, Fill, Turn, PagesDiffer;
    Snoc(sizes, size, SmallClass);
    Snoc(sizes, size, MediumClass);
    if size + s.mediumFill > PAGE_SIZE {
      NewPageIs(s, supply);
      NewPageDiffers(s, AllocMedium(s, supply, size).value.0, supply(s.taken));
    } else {
      SameLists(s, AllocMedium(s, supply, size).value.0);
    }
  }

  lemma {:induction false} SameLists(s: Space, t: Space)
    requires t.small == s.small && t.medium == s.medium && PagesDiffer(s)
    ensures PagesDiffer(t)
  {
  }

  lemma {:induction false} StepCounts(s: Space, supply: nat -> nat, sizes: seq<nat>, size: nat)
    requires Placed(s) && PagesDiffer(s) && Counts(s, sizes)
    ensures |s.small| >= 1 && |s.medium| >= 1
    ensures var r := Alloc(s, supply, size);
      r.Some? && Stepped(s, sizes, size, r.value.0, r.value.1)
  {
    hide AllocSmall, AllocMedium, Stepped;
    if size <= SMALL {
      SmallSteps(s, supply, sizes, size);
    } else if size <= MEDIUM {
      MediumSteps(s, supply, sizes, size);
    } else {
      LargeLists(s, supply, size);
      hide Alloc;
      LargeSteps(s, sizes, size, Alloc(s, supply, size).value.0, Alloc(s, supply, size).value.1);
    }
  }

  lemma {:induction false} LargeSteps(s: Space, sizes: seq<nat>, size: nat, t: Space, b: Buffer)
    requires PagesDiffer(s) && Counts(s, sizes) && size > MEDIUM
    requires t.base == s.base && t.small == s.small && t.medium == s.medium
    requires t.smallFill == s.smallFill && t.mediumFill == s.mediumFill
    ensures Stepped(s, sizes, size, t, b)
  {
    hide Fill, Turn, PagesDiffer;
    Snoc(sizes, size, SmallClass);
    Snoc(sizes, size, MediumClass);
    SameLists(s, t);
  }

  lemma {:induction false} LargeLists(s: Space, supply: nat -> nat, size: nat)
    requires Placed(s) && size > MEDIUM
    ensures var r := Alloc(s, supply, size);
      && r.Some?
      && var t := r.value.0;
      t.base == s.base && t.small == s.small && t.medium == s.medium
        && t.smallFill == s.smallFill && t.mediumFill == s.mediumFill
  {
    hide MapRange, NextUnused;
    NextIsConsumed(s);
    assert s.(consumed := s.consumed) == s;
    MapRangeMaps(s, supply, s.base + s.consumed, PageCount(size));
    MapRangeKeeps(s, supply, s.base + s.consumed, PageCount(size));
  }

  lemma {:induction false} StepFollows(s: Space, supply: nat -> nat, sizes: seq<nat>, bs: seq<Buffer>, size: nat)
    requires Follows(s, sizes, bs) && BuffersOk(s, bs)
    ensures |s.small| >= 1 && |s.medium| >= 1
    ensures var r := Alloc(s, supply, size);
      r.Some? && Follows(r.value.0, sizes + [size], bs + [r.value.1]) && BuffersOk(r.value.0, bs + [r.value.1])
  {
    hide Alloc, PagesDiffer, Counts, LiesAt, ClassOf;
    AllocKeepsBuffers(s, supply, size, bs);
    StepCounts(s, supply, sizes, size);
    var (t, b) := Alloc(s, supply, size).value;
    var all, cs := sizes + [size], bs + [b];
    Unpack(t, cs);
    hide BuffersOk, Placed;
    forall i | 0 <= i < |all| && !ClassOf(all[i]).LargeClass? ensures LiesAt(t, all, cs[i], i) {
      if i < |sizes| {
        LiesStill(s, t, sizes, size, bs[i], i);
      } else {
        LastLies(t, sizes, size);
      }
    }
  }

  lemma {:induction false} CreatedFollows(supply: nat -> nat, base: nat)
    ensures var c := Created(supply, base);
      c.Some? && BuffersOk(c.value, []) && Follows(c.value, [], [])
  {
    CreatedIsPlaced(supply, base);
    CreatedIs(supply, base);
    hide MapTo, Created, BuffersOk;
    var s := Initial(supply, base);
    MapToKeeps(s, supply, base, supply(1));
    MapToKeeps(MapTo(s, supply, base, supply(1)).value, supply, base + 1, supply(2));
    Unpack(Created(supply, base).value, []);
  }

  lemma {:induction false} RunFollows(s: Space, supply: nat -> nat, sizes: seq<nat>)
    requires Follows(s, [], []) && BuffersOk(s, []) && |s.small| >= 1 && |s.medium| >= 1
    ensures var r := AllocAll(s, supply, sizes);
      r.Some? && Follows(r.value.0, sizes, r.value.1) && BuffersOk(r.value.0, r.value.1)
    decreases |sizes|
  {
    hide Follows, BuffersOk, Alloc;
    if sizes != [] {
      var front := sizes[..|sizes| - 1];
      RunFollows(s, supply, front);
      var (t, bs) := AllocAll(s, supply, front).value;
      StepFollows(t, supply, front, bs, sizes[|sizes| - 1]);
      assert front + [sizes[|sizes| - 1]] == sizes;
    }
  }

  // ------------------------------------------------------------------ the result

  lemma {:induction false} SamePlaceIff(t: Space, sizes: seq<nat>, bs: seq<Buffer>, i: nat, j: nat)
    requires Follows(t, sizes, bs) && i < |sizes| && j < |sizes|
    requires !ClassOf(sizes[i]).LargeClass? && !ClassOf(sizes[j]).LargeClass?
    ensures FirstPage(bs[i]) == FirstPage(bs[j]) <==>
      ClassOf(sizes[i]) == ClassOf(sizes[j])
        && Turn(sizes[..i + 1], ClassOf(sizes[i])) == Turn(sizes[..j + 1], ClassOf(sizes[i]))
  {
    assert LiesAt(t, sizes, bs[i], i) && LiesAt(t, sizes, bs[j], j);
    var c, d := ClassOf(sizes[i]), ClassOf(sizes[j]);
    var m, n := Turn(sizes[..i + 1], c), Turn(sizes[..j + 1], d);
    hide Turn, ClassOf, Placed, Counts;
    PageAddress(t.base + List(t, c)[m].index, sizes[i]);
    PageAddress(t.base + List(t, d)[n].index, sizes[j]);
  }

  /** After any allocations in a new address space two nonempty short buffers
      overlap if and only if they are of the same size class and no request of that
      class after the first, up to the second, had to take a new page. */
  lemma {:induction false} ShortBuffersOverlapIff(supply: nat -> nat, base: nat, sizes: seq<nat>, i: nat, j: nat)
    requires i < j < |sizes| && 0 < sizes[i] <= MEDIUM && 0 < sizes[j] <= MEDIUM
    ensures var c := Created(supply, base);
      && c.Some? && |c.value.small| >= 1 && |c.value.medium| >= 1
      && var r := AllocAll(c.value, supply, sizes);
      && r.Some? && |r.value.1| == |sizes|
      && (SharesByte(r.value.1[i], r.value.1[j]) <==>
          && ClassOf(sizes[i]) == ClassOf(sizes[j])
          && forall k :: i < k <= j && ClassOf(sizes[k]) == ClassOf(sizes[i]) ==> !TakesNewPage(sizes, k))
  {
    CreatedFollows(supply, base);
    var s := Created(supply, base).value;
    Unpack(s, []);
    hide Created, AllocAll, Follows, Placed, TakesNewPage;
    RunFollows(s, supply, sizes);
    var (t, bs) := AllocAll(s, supply, sizes).value;
    RunKeepsBuffers(s, supply, sizes);
    SamePageIff(t, bs[i], bs[j]);
    SamePlaceIff(t, sizes, bs, i, j);
    TurnKeptIff(sizes, ClassOf(sizes[i]), i, j);
  }
}
