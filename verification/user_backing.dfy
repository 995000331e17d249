/** Which frames back a user address space: with frames that are never handed out
    twice, every page has its own, and none of them holds a page table. */
module UserBacking {
  import opened Regions
  import opened UserSpace
  import opened UserFrames
  import opened UserBuffers

  ghost predicate Injective(supply: nat -> nat) {
    forall j: nat, k: nat :: j < k ==> supply(j) != supply(k)
  }

  /** One of the first `n` frames obtained. */
  ghost predicate Known(supply: nat -> nat, n: nat, f: nat) { exists j: nat :: j < n && f == supply(j) }

  /** The frame holds no page table. */
  predicate Data(s: Space, f: nat) { f != s.root && f !in s.pteFrames }

  /** Every page has its own frame, and none is a page table's. */
  ghost predicate OwnFrames(s: Space, supply: nat -> nat) {
    && Known(supply, s.taken, s.root) && (forall f :: f in s.pteFrames ==> Known(supply, s.taken, f))
    && (forall p :: p in s.pages ==> Known(supply, s.taken, s.pages[p]) && Data(s, s.pages[p]))
    && (forall p, q :: p in s.pages && q in s.pages && p != q ==> s.pages[p] != s.pages[q])
  }

  /** A frame obtained but not yet used. */
  ghost predicate Pending(s: Space, supply: nat -> nat, f: nat) {
    Known(supply, s.taken, f) && Data(s, f) && forall p :: p in s.pages ==> s.pages[p] != f
  }

  lemma {:induction false} KnownGrows(supply: nat -> nat, m: nat, n: nat, f: nat)
    requires m <= n && Known(supply, m, f)
    ensures Known(supply, n, f)
  {
  }

  lemma {:induction false} NextIsNew(supply: nat -> nat, n: nat, f: nat)
    requires Injective(supply) && Known(supply, n, f)
    ensures f != supply(n) && Known(supply, n + 1, f)
  {
  }

  /** Obtaining one more frame. */
  lemma {:induction false} TakeOwns(s: Space, supply: nat -> nat)
    requires Injective(supply) && OwnFrames(s, supply)
    ensures OwnFrames(Take(s), supply) && Pending(Take(s), supply, supply(s.taken))
  {
    hide Known;
    NextIsNew(supply, s.taken, s.root);
    forall f | f in s.pteFrames ensures f != supply(s.taken) && Known(supply, s.taken + 1, f) {
      NextIsNew(supply, s.taken, f);
    }
    forall p | p in s.pages ensures s.pages[p] != supply(s.taken) && Known(supply, s.taken + 1, s.pages[p]) {
      NextIsNew(supply, s.taken, s.pages[p]);
    }
    assert Known(supply, s.taken + 1, supply(s.taken)) by { LastIsKnown(supply, s.taken); }
  }

  lemma {:induction false} LastIsKnown(supply: nat -> nat, n: nat)
    ensures Known(supply, n + 1, supply(n))
  {
  }

  lemma {:induction false} TakeKeepsPending(s: Space, supply: nat -> nat, f: nat)
    requires Injective(supply) && Pending(s, supply, f)
    ensures Pending(Take(s), supply, f) && f != supply(s.taken)
  {
    NextIsNew(supply, s.taken, f);
    hide Known;
  }

  lemma {:induction false} TableOwns(s: Space, supply: nat -> nat, page: nat, level: nat, f: nat)
    requires Injective(supply) && OwnFrames(s, supply) && 1 <= level <= 3 && Pending(s, supply, f)
    ensures var t := EnsureTable(s, supply, page, level); OwnFrames(t, supply) && Pending(t, supply, f)
  {
    TakeOwns(s, supply);
    TakeKeepsPending(s, supply, f);
    hide Known, TableKey;
  }

  lemma {:induction false} EnsureKeeps(s: Space, supply: nat -> nat, page: nat, level: nat)
    requires 1 <= level <= 3
    ensures EnsureTable(s, supply, page, level).pages == s.pages
  {
  }

  /** Mapping a page to a frame obtained for it. */
  lemma {:induction false} MapToOwns(s: Space, supply: nat -> nat, page: nat, frame: nat)
    requires Injective(supply) && OwnFrames(s, supply) && Pending(s, supply, frame)
    requires MapTo(s, supply, page, frame).Some?
    ensures OwnFrames(MapTo(s, supply, page, frame).value, supply)
  {
    hide EnsureTable, OwnFrames, Pending;
    var t3 := EnsureTable(s, supply, page, 3);
    var t2 := EnsureTable(t3, supply, page, 2);
    var t1 := EnsureTable(t2, supply, page, 1);
    TableOwns(s, supply, page, 3, frame);
    TableOwns(t3, supply, page, 2, frame);
    TableOwns(t2, supply, page, 1, frame);
    EnsureKeeps(s, supply, page, 3);
    EnsureKeeps(t3, supply, page, 2);
    EnsureKeeps(t2, supply, page, 1);
    UseOwns(t1, supply, page, frame);
  }

  lemma {:induction false} UseOwns(s: Space, supply: nat -> nat, page: nat, frame: nat)
    requires OwnFrames(s, supply) && Pending(s, supply, frame)
    ensures OwnFrames(s.(pages := s.pages[page := frame]), supply)
  {
    hide Known;
  }

  /** Another frame obtained stays unused by mapping. */
  lemma {:induction false} MapToKeepsPending(s: Space, supply: nat -> nat, page: nat, frame: nat, f: nat)
    requires Injective(supply) && OwnFrames(s, supply)
    requires Pending(s, supply, frame) && Pending(s, supply, f) && f != frame
    requires MapTo(s, supply, page, frame).Some?
    ensures Pending(MapTo(s, supply, page, frame).value, supply, f)
  {
    hide EnsureTable, OwnFrames, Known;
    var t3 := EnsureTable(s, supply, page, 3);
    var t2 := EnsureTable(t3, supply, page, 2);
    TableOwns(s, supply, page, 3, frame);
    TableOwns(t3, supply, page, 2, frame);
    TableOwns(s, supply, page, 3, f);
    TableOwns(t3, supply, page, 2, f);
    TableOwns(t2, supply, page, 1, f);
    EnsureKeeps(s, supply, page, 3);
    EnsureKeeps(t3, supply, page, 2);
    EnsureKeeps(t2, supply, page, 1);
  }

  /** Nothing but pages, tables' frames, root and the count matters. */
  lemma {:induction false} SameOwns(s: Space, t: Space, supply: nat -> nat)
    requires OwnFrames(s, supply)
    requires t.pages == s.pages && t.pteFrames == s.pteFrames && t.root == s.root && t.taken == s.taken
    ensures OwnFrames(t, supply)
  {
    hide Known;
  }

  lemma {:induction false} NewPageOwns(s: Space, supply: nat -> nat)
    requires Injective(supply) && OwnFrames(s, supply) && NewPage(s, supply).Some?
    ensures OwnFrames(NewPage(s, supply).value.0, supply)
  {
    hide MapTo, NextUnused, OwnFrames, Pending;
    var k, frame := NextUnused(s, s.consumed), supply(s.taken);
    TakeOwns(s, supply);
    var u := Take(s).(consumed := k);
    SameOwns(Take(s), u, supply);
    SamePending(Take(s), u, supply, frame);
    MapToOwns(u, supply, s.base + k, frame);
    var t := MapTo(u, supply, s.base + k, frame).value;
    SameOwns(t, t.(consumed := k + 1), supply);
  }

  lemma {:induction false} SamePending(s: Space, t: Space, supply: nat -> nat, f: nat)
    requires Pending(s, supply, f)
    requires t.pages == s.pages && t.pteFrames == s.pteFrames && t.root == s.root && t.taken == s.taken
    ensures Pending(t, supply, f)
  {
    hide Known;
  }

  lemma {:induction false} MapRangeOwns(s: Space, supply: nat -> nat, page: nat, n: nat)
    requires Injective(supply) && OwnFrames(s, supply) && MapRange(s, supply, page, n).Some?
    ensures OwnFrames(MapRange(s, supply, page, n).value, supply)
    decreases n
  {
    hide MapTo, OwnFrames, Pending;
    if n > 0 {
      var frame := supply(s.taken);
      TakeOwns(s, supply);
      MapToOwns(Take(s), supply, page, frame);
      var t := MapTo(Take(s), supply, page, frame).value;
      SameOwns(t, t.(large := s.large + [frame]), supply);
      MapRangeOwns(t.(large := s.large + [frame]), supply, page + 1, n - 1);
    }
  }

  lemma {:induction false} AllocOwns(s: Space, supply: nat -> nat, size: nat)
    requires Injective(supply) && OwnFrames(s, supply)
    requires |s.small| >= 1 && |s.medium| >= 1 && Alloc(s, supply, size).Some?
    ensures OwnFrames(Alloc(s, supply, size).value.0, supply)
  {
    hide OwnFrames, NewPage, MapRange, NextUnused;
    var t := Alloc(s, supply, size).value.0;
    if size <= MEDIUM {
      var u := if NewPage(s, supply).Some? then NewPage(s, supply).value.0 else s;
      if NewPage(s, supply).Some? { NewPageOwns(s, supply); }
      if t.taken == s.taken && t.pages == s.pages && t.pteFrames == s.pteFrames && t.root == s.root {
        SameOwns(s, t, supply);
      } else {
        SameOwns(u, t, supply);
      }
    } else {
      var k := NextUnused(s, s.consumed);
      SameOwns(s, s.(consumed := k), supply);
      MapRangeOwns(s.(consumed := k), supply, s.base + k, PageCount(size));
      SameOwns(MapRange(s.(consumed := k), supply, s.base + k, PageCount(size)).value, t, supply);
    }
  }

  lemma {:induction false} InitialOwns(supply: nat -> nat, base: nat)
    requires Injective(supply)
    ensures var s := Initial(supply, base);
      OwnFrames(s, supply) && Pending(s, supply, supply(1)) && Pending(s, supply, supply(2)) && supply(1) != supply(2)
  {
    LastIsKnown(supply, 2);
    LastIsKnown(supply, 1);
    LastIsKnown(supply, 0);
    KnownGrows(supply, 2, 3, supply(1));
    KnownGrows(supply, 1, 3, supply(0));
    hide Known;
  }

  lemma {:induction false} CreatedOwns(supply: nat -> nat, base: nat)
    requires Injective(supply)
    ensures Created(supply, base).Some? && OwnFrames(Created(supply, base).value, supply)
  {
    InitialOwns(supply, base);
    CreatedIs(supply, base);
    hide MapTo, Created, OwnFrames, Pending, Initial, Injective;
    var s := Initial(supply, base);
    MapToOwns(s, supply, base, supply(1));
    MapToKeepsPending(s, supply, base, supply(1), supply(2));
    MapToOwns(MapTo(s, supply, base, supply(1)).value, supply, base + 1, supply(2));
  }

  lemma {:induction false} RunOwns(s: Space, supply: nat -> nat, sizes: seq<nat>)
    requires Injective(supply) && OwnFrames(s, supply)
    requires |s.small| >= 1 && |s.medium| >= 1 && AllocAll(s, supply, sizes).Some?
    ensures OwnFrames(AllocAll(s, supply, sizes).value.0, supply)
    decreases |sizes|
  {
    hide OwnFrames, Alloc, Injective;
    if sizes != [] {
      var front := sizes[..|sizes| - 1];
      RunOwns(s, supply, front);
      AllocOwns(AllocAll(s, supply, front).value.0, supply, sizes[|sizes| - 1]);
    }
  }

  /** After any allocations in a new address space no two pages have the same frame,
      and no page's frame is the top-level table's or another page table's. */
  lemma {:induction false} PagesHaveTheirOwnFrames(supply: nat -> nat, base: nat, sizes: seq<nat>)
    requires Injective(supply)
    ensures var c := Created(supply, base);
      && c.Some? && |c.value.small| >= 1 && |c.value.medium| >= 1
      && var r := AllocAll(c.value, supply, sizes);
      && r.Some?
      && var t := r.value.0;
      && (forall p, q :: p in t.pages && q in t.pages && p != q ==> t.pages[p] != t.pages[q])
      && (forall p :: p in t.pages ==> t.pages[p] != t.root && t.pages[p] !in t.pteFrames)
      && t.root == supply(0)
  {
    hide Created, AllocAll, BuffersOk;
    CreatedIsPlaced(supply, base);
    var s := Created(supply, base).value;
    Unpack(s, []);
    RunKeepsBuffers(s, supply, sizes);
    CreatedOwns(supply, base);
    RunOwns(s, supply, sizes);
    RootIsFirst(supply, base, sizes);
    hide Known;
  }

  lemma {:induction false} AllocKeepsRoot(s: Space, supply: nat -> nat, size: nat)
    requires |s.small| >= 1 && |s.medium| >= 1 && Alloc(s, supply, size).Some?
    ensures Alloc(s, supply, size).value.0.root == s.root
  {
    hide NextUnused, MapTo, MapRange;
    var k := NextUnused(s, s.consumed);
    if size <= MEDIUM {
      var u := Take(s).(consumed := k);
      if MapTo(u, supply, s.base + k, supply(s.taken)).Some? { MapToKeeps(u, supply, s.base + k, supply(s.taken)); }
    } else {
      RangeKeepsRoot(s.(consumed := k), supply, s.base + k, PageCount(size));
    }
  }

  lemma {:induction false} RangeKeepsRoot(s: Space, supply: nat -> nat, page: nat, n: nat)
    requires MapRange(s, supply, page, n).Some?
    ensures MapRange(s, supply, page, n).value.root == s.root
    decreases n
  {
    hide MapTo;
    if n > 0 {
      var frame := supply(s.taken);
      MapToKeeps(Take(s), supply, page, frame);
      RangeKeepsRoot(MapTo(Take(s), supply, page, frame).value.(large := s.large + [frame]), supply, page + 1, n - 1);
    }
  }

  lemma {:induction false} RunKeepsRoot(s: Space, supply: nat -> nat, sizes: seq<nat>)
    requires |s.small| >= 1 && |s.medium| >= 1 && AllocAll(s, supply, sizes).Some?
    ensures AllocAll(s, supply, sizes).value.0.root == s.root
    decreases |sizes|
  {
    hide Alloc;
    if sizes != [] {
      var front := sizes[..|sizes| - 1];
      RunKeepsRoot(s, supply, front);
      AllocKeepsRoot(AllocAll(s, supply, front).value.0, supply, sizes[|sizes| - 1]);
    }
  }

  lemma {:induction false} RootIsFirst(supply: nat -> nat, base: nat, sizes: seq<nat>)
    requires Created(supply, base).Some? && |Created(supply, base).value.small| >= 1
    requires |Created(supply, base).value.medium| >= 1 && AllocAll(Created(supply, base).value, supply, sizes).Some?
    ensures AllocAll(Created(supply, base).value, supply, sizes).value.0.root == supply(0)
  {
    CreatedIs(supply, base);
    hide MapTo, AllocAll, Created;
    var s := Initial(supply, base);
    MapToKeeps(s, supply, base, supply(1));
    MapToKeeps(MapTo(s, supply, base, supply(1)).value, supply, base + 1, supply(2));
    RunKeepsRoot(Created(supply, base).value, supply, sizes);
  }

  // ------------------------------------------------------------------ the tables

  /** The three tables on the way to a page: by its number without the last nine,
      eighteen and twenty-seven bits. */
  function TablesOf(p: nat): set<(nat, nat)> { {(1, p / 0x200), (2, p / 0x4_0000), (3, p / 0x800_0000)} }

  /** The tables are those on the way to the mapped pages, one frame for each. */
  ghost predicate TablesFit(s: Space) {
    AllThere(s.pages, s.tables) && NoneToSpare(s.pages, s.tables) && |s.pteFrames| == |s.tables|
  }

  ghost predicate AllThere(pages: map<nat, nat>, tables: set<(nat, nat)>) {
    forall p, t :: p in pages && t in TablesOf(p) ==> t in tables
  }

  ghost predicate NoneToSpare(pages: map<nat, nat>, tables: set<(nat, nat)>) {
    forall t :: t in tables ==> OnTheWay(pages, t)
  }

  predicate OnTheWay(pages: map<nat, nat>, t: (nat, nat)) { exists p :: p in pages && t in TablesOf(p) }

  lemma {:induction false} StaysOnTheWay(pages: map<nat, nat>, page: nat, frame: nat, t: (nat, nat))
    requires OnTheWay(pages, t) || t in TablesOf(page)
    ensures OnTheWay(pages[page := frame], t)
  {
    hide TablesOf;
    if p :| p in pages && t in TablesOf(p) { assert p in pages[page := frame]; }
    assert page in pages[page := frame];
  }

  lemma {:induction false} EnsureAdds(s: Space, supply: nat -> nat, page: nat, level: nat)
    requires 1 <= level <= 3 && |s.pteFrames| == |s.tables|
    ensures var t := EnsureTable(s, supply, page, level);
      && t.tables == s.tables + {TableKey(page, level)} && |t.pteFrames| == |t.tables| && t.pages == s.pages
  {
    hide TableKey;
  }

  lemma {:induction false} KeysAre(page: nat)
    ensures TablesOf(page) == {TableKey(page, 3)} + {TableKey(page, 2)} + {TableKey(page, 1)}
  {
  }

  lemma {:induction false} MapToTables(s: Space, supply: nat -> nat, page: nat, frame: nat)
    requires |s.pteFrames| == |s.tables| && MapTo(s, supply, page, frame).Some?
    ensures var t := MapTo(s, supply, page, frame).value;
      && t.tables == s.tables + TablesOf(page) && |t.pteFrames| == |t.tables| && t.pages == s.pages[page := frame]
  {
    var t3 := EnsureTable(s, supply, page, 3);
    var t2 := EnsureTable(t3, supply, page, 2);
    EnsureAdds(s, supply, page, 3);
    EnsureAdds(t3, supply, page, 2);
    EnsureAdds(t2, supply, page, 1);
    KeysAre(page);
    hide EnsureTable, TableKey, TablesOf;
    AddThree(s.tables, TableKey(page, 3), TableKey(page, 2), TableKey(page, 1));
  }

  lemma {:induction false} AddThree(tables: set<(nat, nat)>, a: (nat, nat), b: (nat, nat), c: (nat, nat))
    ensures tables + {a} + {b} + {c} == tables + ({a} + {b} + {c})
  {
  }

  lemma {:induction false} MapToFits(s: Space, supply: nat -> nat, page: nat, frame: nat)
    requires TablesFit(s) && MapTo(s, supply, page, frame).Some?
    ensures TablesFit(MapTo(s, supply, page, frame).value)
  {
    MapToTables(s, supply, page, frame);
    hide MapTo, TablesOf, AllThere, NoneToSpare;
    OneMorePage(s.pages, s.tables, page, frame);
  }

  lemma {:induction false} OneMorePage(pages: map<nat, nat>, tables: set<(nat, nat)>, page: nat, frame: nat)
    requires AllThere(pages, tables) && NoneToSpare(pages, tables)
    ensures AllThere(pages[page := frame], tables + TablesOf(page))
    ensures NoneToSpare(pages[page := frame], tables + TablesOf(page))
  {
    hide TablesOf, OnTheWay;
    forall k | k in tables + TablesOf(page) ensures OnTheWay(pages[page := frame], k) {
      StaysOnTheWay(pages, page, frame, k);
    }
  }

  lemma {:induction false} SameFits(s: Space, t: Space)
    requires TablesFit(s) && t.pages == s.pages && t.tables == s.tables && t.pteFrames == s.pteFrames
    ensures TablesFit(t)
  {
    hide TablesOf;
  }

  lemma {:induction false} MapRangeFits(s: Space, supply: nat -> nat, page: nat, n: nat)
    requires TablesFit(s) && MapRange(s, supply, page, n).Some?
    ensures TablesFit(MapRange(s, supply, page, n).value)
    decreases n
  {
    hide MapTo, TablesFit;
    if n > 0 {
      var frame := supply(s.taken);
      SameFits(s, Take(s));
      MapToFits(Take(s), supply, page, frame);
      var t := MapTo(Take(s), supply, page, frame).value;
      SameFits(t, t.(large := s.large + [frame]));
      MapRangeFits(t.(large := s.large + [frame]), supply, page + 1, n - 1);
    }
  }

  lemma {:induction false} NewPageFits(s: Space, supply: nat -> nat)
    requires TablesFit(s) && NewPage(s, supply).Some?
    ensures TablesFit(NewPage(s, supply).value.0)
  {
    hide MapTo, NextUnused, TablesFit;
    var k, frame := NextUnused(s, s.consumed), supply(s.taken);
    var u := Take(s).(consumed := k);
    SameFits(s, u);
    MapToFits(u, supply, s.base + k, frame);
    var t := MapTo(u, supply, s.base + k, frame).value;
    SameFits(t, t.(consumed := k + 1));
  }

  lemma {:induction false} AllocFits(s: Space, supply: nat -> nat, size: nat)
    requires TablesFit(s) && |s.small| >= 1 && |s.medium| >= 1 && Alloc(s, supply, size).Some?
    ensures TablesFit(Alloc(s, supply, size).value.0)
  {
    hide TablesFit, NewPage, MapRange, NextUnused;
    var t := Alloc(s, supply, size).value.0;
    if size <= MEDIUM {
      var u := if NewPage(s, supply).Some? then NewPage(s, supply).value.0 else s;
      if NewPage(s, supply).Some? { NewPageFits(s, supply); }
      if t.pages == s.pages && t.tables == s.tables && t.pteFrames == s.pteFrames {
        SameFits(s, t);
      } else {
        SameFits(u, t);
      }
    } else {
      var k := NextUnused(s, s.consumed);
      SameFits(s, s.(consumed := k));
      MapRangeFits(s.(consumed := k), supply, s.base + k, PageCount(size));
      SameFits(MapRange(s.(consumed := k), supply, s.base + k, PageCount(size)).value, t);
    }
  }

  lemma {:induction false} RunFits(s: Space, supply: nat -> nat, sizes: seq<nat>)
    requires TablesFit(s) && |s.small| >= 1 && |s.medium| >= 1 && AllocAll(s, supply, sizes).Some?
    ensures TablesFit(AllocAll(s, supply, sizes).value.0)
    decreases |sizes|
  {
    hide TablesFit, Alloc;
    if sizes != [] {
      var front := sizes[..|sizes| - 1];
      RunFits(s, supply, front);
      AllocFits(AllocAll(s, supply, front).value.0, supply, sizes[|sizes| - 1]);
    }
  }

  /** After any allocations in a new address space, the page tables are exactly those
      on the way to its pages, with one frame for each. */
  lemma {:induction false} TablesAreThoseNeeded(supply: nat -> nat, base: nat, sizes: seq<nat>)
    ensures var c := Created(supply, base);
      && c.Some? && |c.value.small| >= 1 && |c.value.medium| >= 1
      && var r := AllocAll(c.value, supply, sizes);
      r.Some? && TablesFit(r.value.0)
  {
    hide Created, AllocAll, BuffersOk, MapTo, TablesFit;
    CreatedIsPlaced(supply, base);
    var s := Created(supply, base).value;
    Unpack(s, []);
    RunKeepsBuffers(s, supply, sizes);
    CreatedIs(supply, base);
    var i := Initial(supply, base);
    InitialFits(supply, base);
    MapToFits(i, supply, base, supply(1));
    MapToFits(MapTo(i, supply, base, supply(1)).value, supply, base + 1, supply(2));
    RunFits(s, supply, sizes);
  }

  lemma {:induction false} InitialFits(supply: nat -> nat, base: nat)
    ensures TablesFit(Initial(supply, base))
  {
  }

  /** The buffer is the `n` pages from the first free one on, which are new; no other
      page changes. */
  ghost predicate TakesPages(s: Space, t: Space, b: Buffer, n: nat) {
    && b.addr == (s.base + s.consumed) * 4096
    && (forall p :: p in t.pages <==> p in s.pages || s.base + s.consumed <= p < s.base + s.consumed + n)
    && (forall p :: p in s.pages ==> t.pages[p] == s.pages[p] && p < s.base + s.consumed)
  }

  /** And these are the least number of pages that hold it. */
  ghost predicate TakesLeast(s: Space, r: Option<(Space, Buffer)>, size: nat) {
    r.Some? && exists n: nat :: (n - 1) * 4096 < size <= n * 4096 && TakesPages(s, r.value.0, r.value.1, n)
  }

  lemma {:induction false} PageCountIsLeast(size: nat)
    requires size > 0
    ensures (PageCount(size) - 1) * 4096 < size <= PageCount(size) * 4096
  {
  }

  lemma {:induction false} AllocIsLarge(s: Space, supply: nat -> nat, size: nat)
    requires size > 512 && |s.small| >= 1 && |s.medium| >= 1
    ensures Alloc(s, supply, size) == AllocLarge(s, supply, size)
  {
    hide AllocSmall, AllocMedium, AllocLarge;
  }

  /** A large buffer gets the least number of new pages, from the first free one on. */
  lemma {:induction false} LargeTakesLeastPages(s: Space, supply: nat -> nat, size: nat, bs: seq<Buffer>)
    requires BuffersOk(s, bs) && size > 512
    ensures |s.small| >= 1 && |s.medium| >= 1 && TakesLeast(s, Alloc(s, supply, size), size)
  {
    Unpack(s, bs);
    AllocIsLarge(s, supply, size);
    hide Alloc, AllocLarge, BuffersOk, TakesLeast, Placed;
    LargeTakes(s, supply, size);
  }

  lemma {:induction false} LargeTakes(s: Space, supply: nat -> nat, size: nat)
    requires Placed(s) && size > 512
    ensures TakesLeast(s, AllocLarge(s, supply, size), size)
  {
    hide Placed, AllocLarge, MapRange, PageCount, TakesLeast;
    PlacedBelow(s);
    LargeIs(s, supply, size);
    var n := PageCount(size);
    MapRangeMaps(s, supply, s.base + s.consumed, n);
    var m := MapRange(s, supply, s.base + s.consumed, n).value;
    MappedTakes(s, m.(consumed := m.consumed + n), size);
  }

  lemma {:induction false} PlacedBelow(s: Space)
    requires Placed(s)
    ensures forall p :: p in s.pages ==> p < s.base + s.consumed
  {
  }

  lemma {:induction false} LargeIs(s: Space, supply: nat -> nat, size: nat)
    requires Placed(s)
    ensures var r := MapRange(s, supply, s.base + s.consumed, PageCount(size));
      r.Some? ==>
        var t := r.value.(consumed := r.value.consumed + PageCount(size));
        AllocLarge(s, supply, size) == Some((t, Buffer((s.base + s.consumed) * PAGE_SIZE, size)))
  {
    hide Placed, NextUnused, MapRange, PageCount;
    NextIsConsumed(s);
    assert s.(consumed := s.consumed) == s;
  }

  lemma {:induction false} MappedTakes(s: Space, t: Space, size: nat)
    requires size > 0 && forall p :: p in s.pages ==> p < s.base + s.consumed
    requires forall p :: p in t.pages <==>
      p in s.pages || s.base + s.consumed <= p < s.base + s.consumed + PageCount(size)
    requires forall p :: p in s.pages ==> t.pages[p] == s.pages[p]
    ensures TakesLeast(s, Some((t, Buffer((s.base + s.consumed) * PAGE_SIZE, size))), size)
  {
    PageCountIsLeast(size);
    var n := PageCount(size);
    hide PageCount;
    assert TakesPages(s, t, Buffer((s.base + s.consumed) * PAGE_SIZE, size), n);
    hide TakesPages;
  }

  // ------------------------------------------------------------- physical memory

  /** The byte at `a` belongs to the buffer's pages. */
  predicate InPages(b: Buffer, a: nat) { FirstPage(b) <= a / PAGE_SIZE < FirstPage(b) + Pages(b) }

  /** Bytes of different pages are different bytes of memory. */
  lemma {:induction false} FramesDiffer(pages: map<nat, nat>, a: nat, b: nat)
    requires a / PAGE_SIZE in pages && b / PAGE_SIZE in pages && pages[a / PAGE_SIZE] != pages[b / PAGE_SIZE]
    ensures Translate(pages, a).Some? && Translate(pages, b).Some? && Translate(pages, a) != Translate(pages, b)
  {
    var f, g := pages[a / PAGE_SIZE], pages[b / PAGE_SIZE];
    SplitIsUnique(f, a % PAGE_SIZE, g, b % PAGE_SIZE);
  }

  lemma {:induction false} SplitIsUnique(f: nat, x: nat, g: nat, y: nat)
    requires x < PAGE_SIZE && y < PAGE_SIZE && f != g
    ensures f * PAGE_SIZE + x != g * PAGE_SIZE + y
  {
  }

  /** A large buffer shares no byte of physical memory with any other buffer. */
  lemma {:induction false} LargeBuffersHaveTheirOwnMemory(
      supply: nat -> nat, base: nat, sizes: seq<nat>, i: nat, j: nat, a: nat, b: nat)
    requires Injective(supply) && i < |sizes| && j < |sizes| && i != j && sizes[i] > MEDIUM
    ensures var c := Created(supply, base);
      && c.Some? && |c.value.small| >= 1 && |c.value.medium| >= 1
      && var r := AllocAll(c.value, supply, sizes);
      && r.Some? && |r.value.1| == |sizes|
      && var (t, bs) := r.value;
      && (InPages(bs[i], a) && InPages(bs[j], b) ==>
          Translate(t.pages, a).Some? && Translate(t.pages, b).Some? && Translate(t.pages, a) != Translate(t.pages, b))
  {
    hide Created, AllocAll, Injective;
    CreatedIsPlaced(supply, base);
    var s := Created(supply, base).value;
    Unpack(s, []);
    RunKeepsBuffers(s, supply, sizes);
    PagesHaveTheirOwnFrames(supply, base, sizes);
    var (t, bs) := AllocAll(s, supply, sizes).value;
    if InPages(bs[i], a) && InPages(bs[j], b) {
      assert Held(t, bs[i]) && Held(t, bs[j]) && Apart(bs[i], bs[j]);
      hide Placed, IsTracked, Pages, FirstPage, Translate;
      FramesDiffer(t.pages, a, b);
    }
  }
}
