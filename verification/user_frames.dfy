/** Every frame an address space obtains is owned once, and released once. */
module UserFrames {
  import opened Regions
  import opened UserSpace

  function FramesOf(ts: seq<Tracked>): seq<nat> { seq(|ts|, i requires 0 <= i < |ts| => ts[i].frame) }

  /** What dropping the address space releases, in order. */
  function Released(s: Space): seq<nat> {
    FramesOf(s.small) + FramesOf(s.medium) + s.large + s.pteFrames + [s.root]
  }

  /** The frames obtained so far. */
  function Obtained(supply: nat -> nat, n: nat): seq<nat> {
    if n == 0 then [] else Obtained(supply, n - 1) + [supply(n - 1)]
  }

  /** The frames owned and those in `extra` are the frames obtained. */
  ghost predicate Accounted(s: Space, supply: nat -> nat, extra: multiset<nat>) {
    multiset(Released(s)) + extra == multiset(Obtained(supply, s.taken))
  }

  lemma {:induction false} ObtainedGrows(supply: nat -> nat, n: nat)
    ensures multiset(Obtained(supply, n + 1)) == multiset(Obtained(supply, n)) + multiset{supply(n)}
  {
    assert Obtained(supply, n + 1) == Obtained(supply, n) + [supply(n)];
  }

  lemma {:induction false} ReleasedParts(s: Space)
    ensures multiset(Released(s)) ==
      multiset(FramesOf(s.small)) + multiset(FramesOf(s.medium)) + multiset(s.large) + multiset(s.pteFrames)
      + multiset{s.root}
  {
  }

  lemma {:induction false} FramesGrow(ts: seq<Tracked>, t: Tracked)
    ensures multiset(FramesOf(ts + [t])) == multiset(FramesOf(ts)) + multiset{t.frame}
  {
    assert FramesOf(ts + [t]) == FramesOf(ts) + [t.frame];
  }

  lemma {:induction false} TakeAccounts(s: Space, supply: nat -> nat, extra: multiset<nat>)
    requires Accounted(s, supply, extra)
    ensures Accounted(Take(s), supply, extra + multiset{supply(s.taken)})
  {
    ObtainedGrows(supply, s.taken);
    assert Released(Take(s)) == Released(s);
  }

  lemma {:induction false} TableAccounts(s: Space, supply: nat -> nat, page: nat, level: nat, extra: multiset<nat>)
    requires 1 <= level <= 3 && Accounted(s, supply, extra)
    ensures Accounted(EnsureTable(s, supply, page, level), supply, extra)
  {
    hide Accounted, TableKey;
    var key := TableKey(page, level);
    if key !in s.tables {
      AdoptTable(s, supply, s.tables + {key}, extra);
    }
  }

  lemma {:induction false} AdoptTable(s: Space, supply: nat -> nat, tables: set<(nat, nat)>, extra: multiset<nat>)
    requires Accounted(s, supply, extra)
    ensures Accounted(s.(tables := tables, pteFrames := s.pteFrames + [supply(s.taken)], taken := s.taken + 1),
                      supply, extra)
  {
    var t := s.(tables := tables, pteFrames := s.pteFrames + [supply(s.taken)], taken := s.taken + 1);
    hide Obtained, FramesOf;
    ObtainedGrows(supply, s.taken);
    var front, frame := FramesOf(s.small) + FramesOf(s.medium) + s.large, supply(s.taken);
    assert Released(s) == front + s.pteFrames + [s.root];
    assert Released(t) == front + (s.pteFrames + [frame]) + [s.root];
    OneMore(front + s.pteFrames, frame, s.root);
    assert front + (s.pteFrames + [frame]) == front + s.pteFrames + [frame];
  }

  lemma {:induction false} OneMore(front: seq<nat>, frame: nat, root: nat)
    ensures multiset(front + [frame] + [root]) == multiset(front + [root]) + multiset{frame}
  {
  }

  lemma {:induction false} MapToAccounts(s: Space, supply: nat -> nat, page: nat, frame: nat, extra: multiset<nat>)
    requires Accounted(s, supply, extra) && MapTo(s, supply, page, frame).Some?
    ensures Accounted(MapTo(s, supply, page, frame).value, supply, extra)
  {
    hide EnsureTable, Accounted;
    var t3 := EnsureTable(s, supply, page, 3);
    var t2 := EnsureTable(t3, supply, page, 2);
    var t1 := EnsureTable(t2, supply, page, 1);
    TableAccounts(s, supply, page, 3, extra);
    TableAccounts(t3, supply, page, 2, extra);
    TableAccounts(t2, supply, page, 1, extra);
    SameFrames(t1, t1.(pages := s.pages[page := frame]), supply, extra);
  }

  /** Nothing but lists of frames and the count of frames obtained matters. */
  lemma {:induction false} SameFrames(s: Space, t: Space, supply: nat -> nat, extra: multiset<nat>)
    requires Accounted(s, supply, extra)
    ensures t == s.(pages := t.pages, smallFill := t.smallFill, mediumFill := t.mediumFill, consumed := t.consumed) ==>
      Accounted(t, supply, extra)
  {
    if t == s.(pages := t.pages, smallFill := t.smallFill, mediumFill := t.mediumFill, consumed := t.consumed) {
      assert Released(t) == Released(s);
    }
  }

  lemma {:induction false} MapToKeeps(s: Space, supply: nat -> nat, page: nat, frame: nat)
    requires MapTo(s, supply, page, frame).Some?
    ensures var t := MapTo(s, supply, page, frame).value;
      && t == s.(pages := t.pages, tables := t.tables, pteFrames := t.pteFrames, taken := t.taken)
      && page !in s.pages && t.pages == s.pages[page := frame] && t.taken >= s.taken
  {
  }

  lemma {:induction false} NewPageAccounts(s: Space, supply: nat -> nat)
    requires Accounted(s, supply, multiset{}) && NewPage(s, supply).Some?
    ensures var (t, frame) := NewPage(s, supply).value;
      Accounted(t, supply, multiset{frame.frame}) && t.small == s.small && t.medium == s.medium
  {
    hide MapTo, NextUnused, Accounted;
    TakeAccounts(s, supply, multiset{});
    var k, extra := NextUnused(s, s.consumed), multiset{} + multiset{supply(s.taken)};
    assert extra == multiset{supply(s.taken)};
    var u := Take(s).(consumed := k);
    SameFrames(Take(s), u, supply, extra);
    MapToKeeps(u, supply, s.base + k, supply(s.taken));
    MapToAccounts(u, supply, s.base + k, supply(s.taken), extra);
    var t := MapTo(u, supply, s.base + k, supply(s.taken)).value;
    SameFrames(t, t.(consumed := k + 1), supply, extra);
  }

  lemma {:induction false} AdoptSmall(t: Space, supply: nat -> nat, frame: Tracked, fill: nat)
    requires Accounted(t, supply, multiset{frame.frame})
    ensures Accounted(t.(small := t.small + [frame], smallFill := fill), supply, multiset{})
  {
    FramesGrow(t.small, frame);
    ReleasedParts(t);
    ReleasedParts(t.(small := t.small + [frame], smallFill := fill));
    hide Released, Obtained, FramesOf;
  }

  lemma {:induction false} AdoptMedium(t: Space, supply: nat -> nat, frame: Tracked, fill: nat)
    requires Accounted(t, supply, multiset{frame.frame})
    ensures Accounted(t.(medium := t.medium + [frame], mediumFill := fill), supply, multiset{})
  {
    FramesGrow(t.medium, frame);
    ReleasedParts(t);
    ReleasedParts(t.(medium := t.medium + [frame], mediumFill := fill));
    hide Released, Obtained, FramesOf;
  }

  lemma {:induction false} AdoptLarge(t: Space, supply: nat -> nat, frame: nat)
    requires Accounted(t, supply, multiset{frame})
    ensures Accounted(t.(large := t.large + [frame]), supply, multiset{})
  {
    ReleasedParts(t);
    ReleasedParts(t.(large := t.large + [frame]));
    hide Released, Obtained, FramesOf;
  }

  lemma {:induction false} MapRangeAccounts(s: Space, supply: nat -> nat, page: nat, n: nat)
    requires Accounted(s, supply, multiset{}) && MapRange(s, supply, page, n).Some?
    ensures Accounted(MapRange(s, supply, page, n).value, supply, multiset{})
    decreases n
  {
    hide MapTo, Accounted;
    if n > 0 {
      var frame := supply(s.taken);
      TakeAccounts(s, supply, multiset{});
      assert multiset{} + multiset{frame} == multiset{frame};
      MapToAccounts(Take(s), supply, page, frame, multiset{frame});
      var t := MapTo(Take(s), supply, page, frame).value;
      MapToKeeps(Take(s), supply, page, frame);
      AdoptLarge(t, supply, frame);
      MapRangeAccounts(t.(large := s.large + [frame]), supply, page + 1, n - 1);
    }
  }

  /** Allocation keeps the accounts. */
  lemma {:induction false} AllocAccounts(s: Space, supply: nat -> nat, size: nat)
    requires |s.small| >= 1 && |s.medium| >= 1 && Accounted(s, supply, multiset{}) && Alloc(s, supply, size).Some?
    ensures Accounted(Alloc(s, supply, size).value.0, supply, multiset{})
  {
    hide Accounted, NewPage, MapRange, NextUnused;
    var t := Alloc(s, supply, size).value.0;
    if size <= MEDIUM {
      SameFrames(s, t, supply, multiset{});
      if NewPage(s, supply).Some? {
        NewPageAccounts(s, supply);
        var (u, frame) := NewPage(s, supply).value;
        AdoptSmall(u, supply, frame, size);
        AdoptMedium(u, supply, frame, size);
      }
    } else {
      var k := NextUnused(s, s.consumed);
      var u := s.(consumed := k);
      SameFrames(s, u, supply, multiset{});
      MapRangeAccounts(u, supply, s.base + k, PageCount(size));
      SameFrames(MapRange(u, supply, s.base + k, PageCount(size)).value, t, supply, multiset{});
    }
  }

  function Initial(supply: nat -> nat, base: nat): Space {
    Space(base, supply(0), map[], {}, [], [], [Tracked(supply(2), 1)], 0, [Tracked(supply(1), 0)], 0, 2, 3)
  }

  lemma {:induction false} CreatedIs(supply: nat -> nat, base: nat)
    ensures var t := MapTo(Initial(supply, base), supply, base, supply(1));
      && t.Some? && Created(supply, base) == MapTo(t.value, supply, base + 1, supply(2)) && Created(supply, base).Some?
  {
    var s := Initial(supply, base);
    assert MapTo(s, supply, base, supply(1)).Some?;
    MapToKeeps(s, supply, base, supply(1));
    hide EnsureTable;
  }

  lemma {:induction false} CreatedAccounts(supply: nat -> nat, base: nat)
    ensures Created(supply, base).Some? && Accounted(Created(supply, base).value, supply, multiset{})
  {
    InitialAccounts(supply, base);
    CreatedIs(supply, base);
    hide MapTo, Created, Accounted, Initial;
    var s := Initial(supply, base);
    MapToAccounts(s, supply, base, supply(1), multiset{});
    MapToAccounts(MapTo(s, supply, base, supply(1)).value, supply, base + 1, supply(2), multiset{});
  }

  lemma {:induction false} InitialAccounts(supply: nat -> nat, base: nat)
    ensures Accounted(Initial(supply, base), supply, multiset{})
  {
    var s := Initial(supply, base);
    assert Released(s) == [supply(1), supply(2), supply(0)];
    assert Obtained(supply, 3) == [supply(0), supply(1), supply(2)];
  }

  // --------------------------------------------------------------------- runs

  /** Allocations of the given sizes, and the buffers they return. */
  function AllocAll(s: Space, supply: nat -> nat, sizes: seq<nat>): (r: Option<(Space, seq<Buffer>)>)
    requires |s.small| >= 1 && |s.medium| >= 1
    ensures r.Some? ==> |r.value.0.small| >= 1 && |r.value.0.medium| >= 1
    decreases |sizes|
  {
    if sizes == [] then Some((s, [])) else
      var before := AllocAll(s, supply, sizes[..|sizes| - 1]);
      if before.None? then None else
        var (t, bs) := before.value;
        var r := Alloc(t, supply, sizes[|sizes| - 1]);
        if r.None? then None else
          AllocKeepsLists(t, supply, sizes[|sizes| - 1]);
          Some((r.value.0, bs + [r.value.1]))
  }

  lemma {:induction false} AllocKeepsLists(s: Space, supply: nat -> nat, size: nat)
    requires |s.small| >= 1 && |s.medium| >= 1 && Alloc(s, supply, size).Some?
    ensures var t := Alloc(s, supply, size).value.0;
      |t.small| >= 1 && |t.medium| >= 1 && t.base == s.base
  {
    hide NextUnused, MapTo, MapRange;
    if size <= MEDIUM {
      var k := NextUnused(s, s.consumed);
      var u := Take(s).(consumed := k);
      if MapTo(u, supply, s.base + k, supply(s.taken)).Some? { MapToKeeps(u, supply, s.base + k, supply(s.taken)); }
    } else {
      var k := NextUnused(s, s.consumed);
      MapRangeKeeps(s.(consumed := k), supply, s.base + k, PageCount(size));
    }
  }

  lemma {:induction false} MapRangeKeeps(s: Space, supply: nat -> nat, page: nat, n: nat)
    requires MapRange(s, supply, page, n).Some?
    ensures var t := MapRange(s, supply, page, n).value;
      t.small == s.small && t.medium == s.medium && t.base == s.base && t.consumed == s.consumed
      && t.smallFill == s.smallFill && t.mediumFill == s.mediumFill
    decreases n
  {
    hide MapTo;
    if n > 0 {
      var frame := supply(s.taken);
      MapToKeeps(Take(s), supply, page, frame);
      var t := MapTo(Take(s), supply, page, frame).value;
      MapRangeKeeps(t.(large := s.large + [frame]), supply, page + 1, n - 1);
    }
  }

  lemma {:induction false} RunAccounts(s: Space, supply: nat -> nat, sizes: seq<nat>)
    requires |s.small| >= 1 && |s.medium| >= 1 && Accounted(s, supply, multiset{}) && AllocAll(s, supply, sizes).Some?
    ensures Accounted(AllocAll(s, supply, sizes).value.0, supply, multiset{})
    decreases |sizes|
  {
    hide Accounted, Alloc;
    if sizes != [] {
      var front := sizes[..|sizes| - 1];
      RunAccounts(s, supply, front);
      AllocAccounts(AllocAll(s, supply, front).value.0, supply, sizes[|sizes| - 1]);
    }
  }

  lemma {:induction false} ObtainedOnce(supply: nat -> nat, n: nat, i: nat)
    requires forall j: nat, k: nat :: j < k ==> supply(j) != supply(k)
    ensures multiset(Obtained(supply, n))[supply(i)] == if i < n then 1 else 0
    decreases n
  {
    if n > 0 {
      ObtainedGrows(supply, n - 1);
      ObtainedOnce(supply, n - 1, i);
      hide Obtained;
      if i < n - 1 { assert supply(i) != supply(n - 1); }
      if n - 1 < i { assert supply(n - 1) != supply(i); }
    }
  }
}
