/** The address space object itself, updated in place. */
module UserAddressSpace {
  import opened Regions
  import opened UserSpace
  import opened UserFrames
  import opened UserBuffers

  class UserAddrSpace {
    const supply: nat -> nat   // what the kernel's frame allocator answers
    const base: nat
    var root: nat
    var pages: map<nat, nat>
    var tables: set<(nat, nat)>
    var pteFrames: seq<nat>
    var large: seq<nat>
    var medium: seq<Tracked>
    var mediumFill: nat
    var small: seq<Tracked>
    var smallFill: nat
    var consumed: nat
    var taken: nat

    ghost function View(): Space
      reads this
    {
      Space(base, root, pages, tables, pteFrames, large, medium, mediumFill, small, smallFill, consumed, taken)
    }

    constructor (frames: nat -> nat, start: nat)
      ensures Created(frames, start) == Some(View()) && BuffersOk(View(), []) && supply == frames && base == start
    {
      supply, base := frames, start;
      root, small, medium := frames(0), [Tracked(frames(1), 0)], [Tracked(frames(2), 1)];
      pages, tables, pteFrames, large := map[], {}, [], [];
      mediumFill, smallFill, consumed, taken := 0, 0, 2, 3;
      new;
      CreatedIs(supply, base);
      CreatedIsPlaced(supply, base);
      hide MapTo, Created, BuffersOk;
      assert View() == Initial(supply, base);
      var first := MapPage(base, small[0].frame);
      var second := MapPage(base + 1, medium[0].frame);
    }

    method FrameAlloc() returns (frame: nat)
      modifies this`taken
      ensures frame == supply(old(taken)) && taken == old(taken) + 1
    {
      frame := supply(taken);
      taken := taken + 1;
    }

    /** The frame for a missing page table is obtained and remembered. */
    method AllocateTable(page: nat, level: nat)
      requires 1 <= level <= 3
      modifies this
      ensures View() == EnsureTable(old(View()), supply, page, level)
    {
      var key := TableKey(page, level);
      if key !in tables {
        var frame := FrameAlloc();
        pteFrames := pteFrames + [frame];
        tables := tables + {key};
      }
    }

    /** False if the page is mapped already. */
    method MapPage(page: nat, frame: nat) returns (ok: bool)
      modifies this
      ensures ok <==> MapTo(old(View()), supply, page, frame).Some?
      ensures View() == if ok then MapTo(old(View()), supply, page, frame).value else old(View())
    {
      hide EnsureTable;
      if page in pages { return false; }
      AllocateTable(page, 3);
      AllocateTable(page, 2);
      AllocateTable(page, 1);
      EnsureKeepsPages(old(View()), supply, page);
      pages := pages[page := frame];
      return true;
    }

    method NextPageUnused() returns (index: nat)
      modifies this`consumed
      ensures index == NextUnused(old(View()), old(consumed)) && consumed == index
    {
      ghost var s := View();
      while base + consumed in pages
        invariant View() == s.(consumed := consumed)
        invariant NextUnused(s, consumed) == NextUnused(s, s.consumed)
        decreases MappedFrom(s, consumed)
      {
        assert base + consumed in MappedFrom(s, consumed) && base + consumed !in MappedFrom(s, consumed + 1);
        consumed := consumed + 1;
      }
      return consumed;
    }

    /** A frame in the next unused page, for short buffers. */
    method NewTracked() returns (tracked: Option<Tracked>)
      modifies this
      ensures tracked.Some? <==> NewPage(old(View()), supply).Some?
      ensures tracked.Some? ==> Some((View(), tracked.value)) == NewPage(old(View()), supply)
    {
      hide MapTo;
      var frame := FrameAlloc();
      NextIgnoresCounts(old(View()), View());
      var index := NextPageUnused();
      hide NextUnused;
      var ok := MapPage(base + index, frame);
      if !ok { return None; }
      consumed := index + 1;
      return Some(Tracked(frame, index));
    }

    method AllocPages(start: nat, n: nat) returns (ok: bool)
      modifies this
      ensures ok <==> MapRange(old(View()), supply, start, n).Some?
      ensures ok ==> Some(View()) == MapRange(old(View()), supply, start, n)
    {
      hide MapTo;
      var k := 0;
      while k < n
        invariant 0 <= k <= n
        invariant MapRange(View(), supply, start + k, n - k) == MapRange(old(View()), supply, start, n)
      {
        ghost var s := View();
        var frame := FrameAlloc();
        var mapped := MapPage(start + k, frame);
        if !mapped { return false; }
        MapToKeeps(Take(s), supply, start + k, frame);
        large := large + [frame];
        k := k + 1;
      }
      return true;
    }

    /** `None` stands for the panic on mapping a page twice, which does not happen
        to a space that only allocates. */
    method Alloc(size: nat) returns (buffer: Option<Buffer>)
      requires |small| >= 1 && |medium| >= 1
      modifies this
      ensures buffer.Some? <==> UserSpace.Alloc(old(View()), supply, size).Some?
      ensures buffer.Some? ==> Some((View(), buffer.value)) == UserSpace.Alloc(old(View()), supply, size)
    {
      hide NewPage, MapRange, NextUnused;
      if size <= SMALL {
        if size + smallFill > PAGE_SIZE {
          ghost var s := View();
          var tracked := NewTracked();
          if tracked.None? { return None; }
          NewPageKeepsLists(s, supply);
          small, smallFill := small + [tracked.value], size;
          return Some(Buffer((base + tracked.value.index) * PAGE_SIZE, size));
        }
        smallFill := smallFill + size;
        return Some(Buffer((base + small[|small| - 1].index) * PAGE_SIZE, size));
      }
      if size <= MEDIUM {
        if size + mediumFill > PAGE_SIZE {
          ghost var s := View();
          var tracked := NewTracked();
          if tracked.None? { return None; }
          NewPageKeepsLists(s, supply);
          medium, mediumFill := medium + [tracked.value], size;
          return Some(Buffer((base + tracked.value.index) * PAGE_SIZE, size));
        }
        mediumFill := mediumFill + size;
        return Some(Buffer((base + medium[|medium| - 1].index) * PAGE_SIZE, size));
      }
      var required := (size + PAGE_SIZE - 1) / PAGE_SIZE;
      var index := NextPageUnused();
      var ok := AllocPages(base + index, required);
      if !ok { return None; }
      consumed := consumed + required;
      return Some(Buffer((base + index) * PAGE_SIZE, size));
    }

    method Resolve(b: Buffer) returns (found: Option<seq<Piece>>)
      ensures found == UserSpace.Resolve(pages, b)
    {
      if b.len <= MEDIUM {
        var at := Translate(pages, b.addr);
        if at.None? { return None; }
        return Some([Piece(at.value, b.len)]);
      }
      var result, resolved := [], 0;
      hide Pieces, Translate;
      JoinNone(Pieces(pages, b.addr, b.len));
      while resolved < b.len
        invariant 0 <= resolved <= b.len
        invariant Pieces(pages, b.addr, b.len) == Join(result, Pieces(pages, b.addr + resolved, b.len - resolved))
      {
        PiecesStep(pages, b.addr + resolved, b.len - resolved, result);
        var at := Translate(pages, b.addr + resolved);
        if at.None? { return None; }
        var tillEnd, remain := TillPageEnd(b.addr + resolved), b.len - resolved;
        if tillEnd < remain {
          result := result + [Piece(at.value, tillEnd)];
          resolved := resolved + tillEnd;
        } else {
          result := result + [Piece(at.value, remain)];
          resolved := resolved + remain;
        }
      }
      NoPieces(pages, b.addr + b.len, result);
      return Some(result);
    }

    /** A buffer for `size` bytes and where they are; the lengths add up. */
    method AllocAndResolve(size: nat, ghost buffers: seq<Buffer>) returns (buffer: Buffer, pieces: seq<Piece>)
      requires BuffersOk(View(), buffers)
      modifies this
      ensures BuffersOk(View(), buffers + [buffer]) && buffer.len == size
      ensures Total(pieces) == size && IsTranslation(pages, buffer.addr, size, pieces) && WithinFrames(pieces)
    {
      hide BuffersOk, Held, UserSpace.Alloc, UserSpace.Resolve;
      AllocKeepsBuffers(View(), supply, size, buffers);
      var obtained := Alloc(size);
      buffer := obtained.value;
      LastIsHeld(View(), buffers, buffer);
      HeldResolves(View(), buffer);
      var found := Resolve(buffer);
      pieces := found.value;
    }

    /** Everything released, in order. */
    method Drop() returns (released: seq<nat>)
      ensures released == Released(View())
    {
      released := [];
      for i := 0 to |small|
        invariant released == FramesOf(small[..i])
      {
        assert FramesOf(small[..i + 1]) == FramesOf(small[..i]) + [small[i].frame];
        released := released + [small[i].frame];
      }
      assert small[..|small|] == small;
      for i := 0 to |medium|
        invariant released == FramesOf(small) + FramesOf(medium[..i])
      {
        assert FramesOf(medium[..i + 1]) == FramesOf(medium[..i]) + [medium[i].frame];
        released := released + [medium[i].frame];
      }
      assert medium[..|medium|] == medium;
      for i := 0 to |large|
        invariant released == FramesOf(small) + FramesOf(medium) + large[..i]
      {
        released := released + [large[i]];
      }
      for i := 0 to |pteFrames|
        invariant released == FramesOf(small) + FramesOf(medium) + large + pteFrames[..i]
      {
        released := released + [pteFrames[i]];
      }
      released := released + [root];
    }
  }

  function Join(result: seq<Piece>, rest: Option<seq<Piece>>): Option<seq<Piece>> {
    if rest.None? then None else Some(result + rest.value)
  }

  lemma {:induction false} PiecesStep(pages: map<nat, nat>, addr: nat, len: nat, result: seq<Piece>)
    requires len > 0
    ensures var at, n := Translate(pages, addr), TillPageEnd(addr);
      Join(result, Pieces(pages, addr, len)) ==
      if at.None? then None
      else if n < len then Join(result + [Piece(at.value, n)], Pieces(pages, addr + n, len - n))
      else Join(result + [Piece(at.value, len)], Pieces(pages, addr + len, 0))
  {
    var at, n := Translate(pages, addr), TillPageEnd(addr);
    if at.Some? && n < len {
      var rest := Pieces(pages, addr + n, len - n);
      if rest.Some? {
        assert result + ([Piece(at.value, n)] + rest.value) == result + [Piece(at.value, n)] + rest.value;
      }
    } else if at.Some? {
      NoPieces(pages, addr + len, result + [Piece(at.value, len)]);
    }
  }

  lemma {:induction false} NoPieces(pages: map<nat, nat>, addr: nat, result: seq<Piece>)
    ensures Join(result, Pieces(pages, addr, 0)) == Some(result)
  {
    assert result + [] == result;
  }

  lemma {:induction false} JoinNone(found: Option<seq<Piece>>)
    ensures Join([], found) == found
  {
    if found.Some? { assert [] + found.value == found.value; }
  }

  lemma {:induction false} EnsureKeepsPages(s: Space, supply: nat -> nat, page: nat)
    ensures EnsureTable(EnsureTable(EnsureTable(s, supply, page, 3), supply, page, 2), supply, page, 1).pages == s.pages
  {
  }

  /** The next unused page depends on what is mapped only. */
  lemma {:induction false} NextIgnoresCounts(s: Space, t: Space)
    requires t == s.(taken := t.taken)
    ensures NextUnused(s, s.consumed) == NextUnused(t, t.consumed)
  {
    var m, n := NextUnused(s, s.consumed), NextUnused(t, t.consumed);
    assert s.base + m !in s.pages && s.base + n !in s.pages;
  }

  lemma {:induction false} NewPageKeepsLists(s: Space, supply: nat -> nat)
    requires NewPage(s, supply).Some?
    ensures NewPage(s, supply).value.0.small == s.small && NewPage(s, supply).value.0.medium == s.medium
  {
    hide MapTo, NextUnused;
    var k := NextUnused(s, s.consumed);
    MapToKeeps(Take(s).(consumed := k), supply, s.base + k, supply(s.taken));
  }

  lemma {:induction false} LastIsHeld(s: Space, bs: seq<Buffer>, b: Buffer)
    requires BuffersOk(s, bs + [b])
    ensures Held(s, b)
  {
    assert (bs + [b])[|bs|] == b;
  }
}
