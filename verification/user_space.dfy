/** User address spaces: buffers allocated by size class, their translation back
    to physical memory, and what is released at the end. */
module UserSpace {
  import opened Regions

  const SMALL: nat := 64
  const MEDIUM: nat := 512

  // ---------------------------------------------------------------- the state

  datatype Tracked = Tracked(frame: nat, index: nat)

  /** An address space. Pages and frames are numbered; a table of level `l` serves
      pages that agree above the lowest `l` groups of nine bits. `taken` counts the
      frames obtained so far from the kernel's allocator. */
  datatype Space = Space(
    base: nat,
    root: nat,
    pages: map<nat, nat>,
    tables: set<(nat, nat)>,
    pteFrames: seq<nat>,
    large: seq<nat>,
    medium: seq<Tracked>,
    mediumFill: nat,
    small: seq<Tracked>,
    smallFill: nat,
    consumed: nat,
    taken: nat)

  datatype Buffer = Buffer(addr: nat, len: nat)

  function TableKey(page: nat, level: nat): (nat, nat)
    requires 1 <= level <= 3
  {
    (level, if level == 1 then page / 512 else if level == 2 then page / 0x4_0000 else page / 0x800_0000)
  }

  // ------------------------------------------------------------------- mapping

  /** The frame allocator: its `i`-th answer to this address space is `supply(i)`. */
  function EnsureTable(s: Space, supply: nat -> nat, page: nat, level: nat): Space
    requires 1 <= level <= 3
  {
    var key := TableKey(page, level);
    if key in s.tables then s
    else s.(tables := s.tables + {key}, pteFrames := s.pteFrames + [supply(s.taken)], taken := s.taken + 1)
  }

  /** Map a page, with whatever tables are missing; `None` if it is mapped. */
  function MapTo(s: Space, supply: nat -> nat, page: nat, frame: nat): Option<Space> {
    if page in s.pages then None
    else
      var t := EnsureTable(EnsureTable(EnsureTable(s, supply, page, 3), supply, page, 2), supply, page, 1);
      Some(t.(pages := s.pages[page := frame]))
  }

  function Take(s: Space): Space { s.(taken := s.taken + 1) }

  function Created(supply: nat -> nat, base: nat): Option<Space> {
    var s := Space(base, supply(0), map[], {}, [], [], [Tracked(supply(2), 1)], 0, [Tracked(supply(1), 0)], 0, 2, 3);
    var t := MapTo(s, supply, base, supply(1));
    if t.None? then None else MapTo(t.value, supply, base + 1, supply(2))
  }

  function MappedFrom(s: Space, k: nat): set<nat> { set p | p in s.pages && p >= s.base + k }

  /** The first unmapped page from the `k`-th on. */
  function NextUnused(s: Space, k: nat): (n: nat)
    ensures k <= n && s.base + n !in s.pages
    ensures forall p :: s.base + k <= p < s.base + n ==> p in s.pages
    decreases MappedFrom(s, k)
  {
    if s.base + k in s.pages then
      assert s.base + k in MappedFrom(s, k) && s.base + k !in MappedFrom(s, k + 1);
      NextUnused(s, k + 1)
    else k
  }

  // ---------------------------------------------------------------- allocation

  /** The page of a new tracked frame: mapped, and all pages before it consumed. */
  function NewPage(s: Space, supply: nat -> nat): Option<(Space, Tracked)> {
    var k := NextUnused(s, s.consumed);
    var t := MapTo(Take(s).(consumed := k), supply, s.base + k, supply(s.taken));
    if t.None? then None else Some((t.value.(consumed := k + 1), Tracked(supply(s.taken), k)))
  }

  function AllocSmall(s: Space, supply: nat -> nat, size: nat): Option<(Space, Buffer)>
    requires |s.small| >= 1
  {
    if size + s.smallFill > PAGE_SIZE then
      var new_ := NewPage(s, supply);
      if new_.None? then None else
        var (t, frame) := new_.value;
        Some((t.(small := s.small + [frame], smallFill := size), Buffer((s.base + frame.index) * PAGE_SIZE, size)))
    else
      Some((s.(smallFill := s.smallFill + size), Buffer((s.base + s.small[|s.small| - 1].index) * PAGE_SIZE, size)))
  }

  function AllocMedium(s: Space, supply: nat -> nat, size: nat): Option<(Space, Buffer)>
    requires |s.medium| >= 1
  {
    if size + s.mediumFill > PAGE_SIZE then
      var new_ := NewPage(s, supply);
      if new_.None? then None else
        var (t, frame) := new_.value;
        Some((t.(medium := s.medium + [frame], mediumFill := size), Buffer((s.base + frame.index) * PAGE_SIZE, size)))
    else
      Some((s.(mediumFill := s.mediumFill + size), Buffer((s.base + s.medium[|s.medium| - 1].index) * PAGE_SIZE, size)))
  }

  function MapRange(s: Space, supply: nat -> nat, page: nat, n: nat): Option<Space>
    decreases n
  {
    if n == 0 then Some(s) else
      var t := MapTo(Take(s), supply, page, supply(s.taken));
      if t.None? then None else MapRange(t.value.(large := s.large + [supply(s.taken)]), supply, page + 1, n - 1)
  }

  function PageCount(size: nat): nat { (size + PAGE_SIZE - 1) / PAGE_SIZE }

  function AllocLarge(s: Space, supply: nat -> nat, size: nat): Option<(Space, Buffer)> {
    var k, n := NextUnused(s, s.consumed), PageCount(size);
    var t := MapRange(s.(consumed := k), supply, s.base + k, n);
    if t.None? then None else Some((t.value.(consumed := t.value.consumed + n), Buffer((s.base + k) * PAGE_SIZE, size)))
  }

  function Alloc(s: Space, supply: nat -> nat, size: nat): Option<(Space, Buffer)>
    requires |s.small| >= 1 && |s.medium| >= 1
  {
    if size <= SMALL then AllocSmall(s, supply, size)
    else if size <= MEDIUM then AllocMedium(s, supply, size)
    else AllocLarge(s, supply, size)
  }

  // ---------------------------------------------------------------- translation

  datatype Piece = Piece(start: nat, len: nat)

  function Translate(pages: map<nat, nat>, a: nat): Option<nat> {
    if a / PAGE_SIZE in pages then Some(pages[a / PAGE_SIZE] * PAGE_SIZE + a % PAGE_SIZE) else None
  }

  function TillPageEnd(a: nat): (n: nat)
    ensures 1 <= n <= PAGE_SIZE
  {
    PAGE_SIZE - a % PAGE_SIZE
  }

  /** Page by page. */
  function Pieces(pages: map<nat, nat>, addr: nat, len: nat): Option<seq<Piece>>
    decreases len
  {
    if len == 0 then Some([]) else
      match Translate(pages, addr)
      case None => None
      case Some(at) =>
        var n := TillPageEnd(addr);
        if n < len then
          var rest := Pieces(pages, addr + n, len - n);
          if rest.None? then None else Some([Piece(at, n)] + rest.value)
        else Some([Piece(at, len)])
  }

  function Resolve(pages: map<nat, nat>, b: Buffer): Option<seq<Piece>> {
    if b.len <= MEDIUM then
      var at := Translate(pages, b.addr);
      if at.None? then None else Some([Piece(at.value, b.len)])
    else Pieces(pages, b.addr, b.len)
  }

  function Total(ps: seq<Piece>): nat {
    if ps == [] then 0 else ps[0].len + Total(ps[1..])
  }

  /** The physical address of byte `i` of the pieces put end to end. */
  function ByteAt(ps: seq<Piece>, i: nat): (a: nat)
    requires i < Total(ps)
  {
    if i < ps[0].len then ps[0].start + i else ByteAt(ps[1..], i - ps[0].len)
  }

  /** The pieces are the buffer, byte for byte. */
  ghost predicate IsTranslation(pages: map<nat, nat>, addr: nat, len: nat, ps: seq<Piece>) {
    && Total(ps) == len
    && forall a: nat :: addr <= a < addr + len ==> Translate(pages, a) == Some(ByteAt(ps, a - addr))
  }

  predicate WithinFrames(ps: seq<Piece>) {
    forall k :: 0 <= k < |ps| ==> ps[k].start % PAGE_SIZE + ps[k].len <= PAGE_SIZE
  }

  ghost predicate Mapped(pages: map<nat, nat>, addr: nat, len: nat) {
    forall a: nat :: addr <= a < addr + len ==> Translate(pages, a).Some?
  }

  lemma {:induction false} SamePage(pages: map<nat, nat>, addr: nat, a: nat)
    requires addr <= a < addr + TillPageEnd(addr)
    ensures a / PAGE_SIZE == addr / PAGE_SIZE && a % PAGE_SIZE == addr % PAGE_SIZE + a - addr
    ensures var at := Translate(pages, addr);
      Translate(pages, a) == if at.None? then None else Some(at.value + a - addr)
  {
  }

  ghost predicate FirstPiece(pages: map<nat, nat>, addr: nat) {
    && Translate(pages, addr).Some?
    && var at := Translate(pages, addr).value;
    && at % PAGE_SIZE == addr % PAGE_SIZE
    && forall a: nat :: addr <= a < addr + TillPageEnd(addr) ==> Translate(pages, a) == Some(at + a - addr)
  }

  lemma {:induction false} TranslatedOffset(pages: map<nat, nat>, addr: nat)
    requires Translate(pages, addr).Some?
    ensures Translate(pages, addr).value % PAGE_SIZE == addr % PAGE_SIZE
  {
    var f, r := pages[addr / PAGE_SIZE], addr % PAGE_SIZE;
    assert (f * PAGE_SIZE + r) % PAGE_SIZE == r;
  }

  /** The pieces, if any, are right. */
  ghost predicate Right(pages: map<nat, nat>, addr: nat, len: nat, found: Option<seq<Piece>>) {
    && (found.Some? <==> Mapped(pages, addr, len))
    && (found.Some? ==> IsTranslation(pages, addr, len, found.value) && WithinFrames(found.value))
  }

  /** Walking page by page gives the whole translation, in pieces inside single
      frames, exactly if every byte is mapped. */
  lemma {:induction false} PiecesAreExact(pages: map<nat, nat>, addr: nat, len: nat)
    ensures Right(pages, addr, len, Pieces(pages, addr, len))
    decreases len
  {
    if len > 0 {
      var n := TillPageEnd(addr);
      if Translate(pages, addr).Some? {
        TranslatedOffset(pages, addr);
        forall a: nat | addr <= a < addr + n
          ensures Translate(pages, a) == Some(Translate(pages, addr).value + a - addr)
        {
          SamePage(pages, addr, a);
        }
        if n < len {
          PiecesAreExact(pages, addr + n, len - n);
          JoinPieces(pages, addr, len, Pieces(pages, addr + n, len - n));
        } else {
          OnePiece(pages, addr, len);
        }
      }
    }
  }

  lemma {:induction false} OnePiece(pages: map<nat, nat>, addr: nat, len: nat)
    requires FirstPiece(pages, addr) && 0 < len <= TillPageEnd(addr)
    ensures Right(pages, addr, len, Some([Piece(Translate(pages, addr).value, len)]))
  {
    hide Translate;
    var ps := [Piece(Translate(pages, addr).value, len)];
    assert ps[1..] == [] && Total(ps) == len;
  }

  lemma {:induction false} JoinPieces(pages: map<nat, nat>, addr: nat, len: nat, rest: Option<seq<Piece>>)
    requires FirstPiece(pages, addr) && TillPageEnd(addr) < len
    requires Right(pages, addr + TillPageEnd(addr), len - TillPageEnd(addr), rest)
    ensures Right(pages, addr, len,
      if rest.None? then None else Some([Piece(Translate(pages, addr).value, TillPageEnd(addr))] + rest.value))
  {
    var n, at := TillPageEnd(addr), Translate(pages, addr).value;
    hide Translate, TillPageEnd;
    if rest.Some? {
      var ps := [Piece(at, n)] + rest.value;
      assert ps[1..] == rest.value && Total(ps) == len;
      forall a: nat | addr <= a < addr + len ensures Translate(pages, a) == Some(ByteAt(ps, a - addr)) {
        if a >= addr + n { assert a - (addr + n) == a - addr - n; }
      }
    }
  }

  lemma {:induction false} ShortIsOnePiece(pages: map<nat, nat>, b: Buffer)
    requires 0 < b.len <= MEDIUM && Translate(pages, b.addr).Some?
    ensures var ps := [Piece(Translate(pages, b.addr).value, b.len)];
      Resolve(pages, b) == Some(ps) && Total(ps) == b.len
  {
    hide Pieces;
    var p := Piece(Translate(pages, b.addr).value, b.len);
    assert [p][1..] == [];
  }

  /** A short buffer comes back as one piece if its first byte is mapped. The piece
      is right exactly if the buffer does not leave its page, or the next page
      happens to be the next frame. */
  lemma {:induction false} ShortPieceIsRightIff(pages: map<nat, nat>, b: Buffer)
    requires 0 < b.len <= MEDIUM && Translate(pages, b.addr).Some?
    ensures var page := b.addr / PAGE_SIZE;
      Resolve(pages, b).Some? &&
      (IsTranslation(pages, b.addr, b.len, Resolve(pages, b).value) <==>
        b.addr % PAGE_SIZE + b.len <= PAGE_SIZE || (page + 1 in pages && pages[page + 1] == pages[page] + 1))
  {
    var page, at := b.addr / PAGE_SIZE, Translate(pages, b.addr).value;
    var ps := [Piece(at, b.len)];
    ShortIsOnePiece(pages, b);
    hide Resolve, Total;
    assert forall i: nat :: i < b.len ==> ByteAt(ps, i) == at + i;
    var next := (page + 1) * PAGE_SIZE;
    assert next / PAGE_SIZE == page + 1 && next % PAGE_SIZE == 0 && next == b.addr + TillPageEnd(b.addr);
    forall a: nat | b.addr <= a < b.addr + b.len
      ensures Translate(pages, a) ==
        if a < next then Some(at + a - b.addr)
        else if page + 1 in pages then Some(pages[page + 1] * PAGE_SIZE + a - next) else None
    {
      if a < next { SamePage(pages, b.addr, a); } else { SamePage(pages, next, a); }
    }
    hide ByteAt, TillPageEnd;
    ShortPieceCases(pages, b, ps, next);
  }

  /** Two bytes across the first two pages, which are frames 0 and 5: the piece's
      second byte is at the start of frame 1, not of frame 5. */
  lemma {:induction false} ShortPieceIsWrong()
    ensures var pages := map[0 := 0, 1 := 5];
      && Resolve(pages, Buffer(4095, 2)) == Some([Piece(4095, 2)])
      && Translate(pages, 4096) == Some(5 * PAGE_SIZE)
      && !IsTranslation(pages, 4095, 2, [Piece(4095, 2)])
  {
    var pages := map[0 := 0, 1 := 5];
    assert Translate(pages, 4095) == Some(4095) && Translate(pages, 4096) == Some(5 * PAGE_SIZE);
    ShortPieceIsRightIff(pages, Buffer(4095, 2));
  }

  lemma {:induction false} ShortPieceCases(pages: map<nat, nat>, b: Buffer, ps: seq<Piece>, next: nat)
    requires 0 < b.len && Total(ps) == b.len && b.addr / PAGE_SIZE in pages
    requires var page := b.addr / PAGE_SIZE;
      var at := pages[page] * PAGE_SIZE + b.addr % PAGE_SIZE;
      && next == (page + 1) * PAGE_SIZE
      && (forall i: nat :: i < b.len ==> ByteAt(ps, i) == at + i)
      && (forall a: nat :: b.addr <= a < b.addr + b.len ==>
          Translate(pages, a) ==
          if a < next then Some(at + a - b.addr)
          else if page + 1 in pages then Some(pages[page + 1] * PAGE_SIZE + a - next) else None)
    ensures var page := b.addr / PAGE_SIZE;
      IsTranslation(pages, b.addr, b.len, ps) <==>
        b.addr % PAGE_SIZE + b.len <= PAGE_SIZE || (page + 1 in pages && pages[page + 1] == pages[page] + 1)
  {
    var page := b.addr / PAGE_SIZE;
    hide Translate, ByteAt;
    if next < b.addr + b.len {
      assert b.addr <= next < b.addr + b.len;
      assert Translate(pages, next) == if page + 1 in pages then Some(pages[page + 1] * PAGE_SIZE) else None;
      assert ByteAt(ps, next - b.addr) == (pages[page] + 1) * PAGE_SIZE;
    }
  }
}
