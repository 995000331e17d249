/** Virtual memory as the loaders see it: physical frames, a page table, a source
    of fresh frames, and pages that are copied before they are written. */
module CopyOnWrite {
  import opened Regions

  type Byte = x: int | 0 <= x < 256

  /** Page table flags; `copied` is the spare bit that marks a private copy. */
  datatype Flags = Flags(writable: bool, noExecute: bool, user: bool, copied: bool)

  datatype Entry = Entry(frame: nat, flags: Flags)

  datatype Mem = Mem(phys: map<nat, seq<Byte>>, table: map<nat, Entry>, pool: seq<nat>)

  function PageOf(a: nat): nat { a / PAGE_SIZE }

  /** The byte a virtual address shows, if its page is mapped. */
  ghost function View(m: Mem, a: nat): Option<Byte> {
    if PageOf(a) in m.table && m.table[PageOf(a)].frame in m.phys && |m.phys[m.table[PageOf(a)].frame]| == PAGE_SIZE
    then Some(m.phys[m.table[PageOf(a)].frame][a % PAGE_SIZE])
    else None
  }

  /** Every frame is a whole page and every mapped frame exists. */
  ghost predicate Backed(m: Mem) {
    && (forall f :: f in m.phys ==> |m.phys[f]| == PAGE_SIZE)
    && (forall p :: p in m.table ==> m.table[p].frame in m.phys)
  }

  /** The frames of the loaded file still hold what they held. */
  ghost predicate SourceIntact(m: Mem, src: map<nat, seq<Byte>>) {
    forall f :: f in src ==> f in m.phys && m.phys[f] == src[f]
  }

  /** A page marked as copied has a frame of its own, outside the file. */
  ghost predicate CopiesArePrivate(m: Mem, src: map<nat, seq<Byte>>) {
    forall p :: p in m.table && m.table[p].flags.copied ==>
      m.table[p].frame !in src && forall q :: q in m.table && q != p ==> m.table[q].frame != m.table[p].frame
  }

  /** The frame source: distinct frames, outside the file, mapped nowhere. */
  ghost predicate PoolIsFresh(m: Mem, src: map<nat, seq<Byte>>) {
    && (forall i, j :: 0 <= i < j < |m.pool| ==> m.pool[i] != m.pool[j])
    && (forall i :: 0 <= i < |m.pool| ==> m.pool[i] in m.phys && m.pool[i] !in src)
    && (forall i, p :: 0 <= i < |m.pool| && p in m.table ==> m.table[p].frame != m.pool[i])
  }

  ghost predicate Inv(m: Mem, src: map<nat, seq<Byte>>) {
    Backed(m) && SourceIntact(m, src) && CopiesArePrivate(m, src) && PoolIsFresh(m, src)
  }

  /** No page is mapped to a frame of the file. */
  ghost predicate NothingShared(m: Mem, src: map<nat, seq<Byte>>) {
    forall p :: p in m.table ==> m.table[p].frame !in src
  }

  ghost predicate SameView(m: Mem, n: Mem) {
    forall a: nat :: View(n, a) == View(m, a)
  }

  /** `n` shows `buf` from `addr` on and is otherwise as `m`. */
  ghost predicate Overwritten(m: Mem, n: Mem, addr: nat, buf: seq<Byte>) {
    forall a: nat :: View(n, a) == if addr <= a < addr + |buf| then Some(buf[a - addr]) else View(m, a)
  }

  /** `n` shows `content` in the new page `p` and is otherwise as `m`. */
  ghost predicate Extended(m: Mem, n: Mem, p: nat, content: seq<Byte>)
    requires |content| == PAGE_SIZE
  {
    forall a: nat :: View(n, a) == if PageOf(a) == p then Some(content[a % PAGE_SIZE]) else View(m, a)
  }

  // ------------------------------------------------------------- single steps

  /** The private copy of page `p`, made unless it is there already. */
  function CopyPage(m: Mem, p: nat): Option<Mem>
    requires forall q :: q in m.table ==> m.table[q].frame in m.phys
  {
    if p !in m.table then None
    else if m.table[p].flags.copied then Some(m)
    else if m.pool == [] then None
    else Some(Mem(
      m.phys[m.pool[0] := m.phys[m.table[p].frame]],
      m.table[p := Entry(m.pool[0], m.table[p].flags.(copied := true))],
      m.pool[1..]))
  }

  lemma {:induction false} CopyPageKeepsInv(m: Mem, src: map<nat, seq<Byte>>, p: nat)
    requires Inv(m, src) && CopyPage(m, p).Some?
    ensures Inv(CopyPage(m, p).value, src)
  {
    var n := CopyPage(m, p).value;
    if n != m {
      assert Backed(n);
      assert SourceIntact(n, src);
      assert CopiesArePrivate(n, src);
      assert PoolIsFresh(n, src);
    }
  }

  lemma {:induction false} CopyPageKeepsView(m: Mem, src: map<nat, seq<Byte>>, p: nat)
    requires Inv(m, src) && CopyPage(m, p).Some?
    ensures SameView(m, CopyPage(m, p).value)
  {
    var n := CopyPage(m, p).value;
    forall a: nat ensures View(n, a) == View(m, a) {
      if PageOf(a) in m.table && PageOf(a) != p && m.pool != [] {
        assert m.table[PageOf(a)].frame != m.pool[0];
      }
    }
  }

  function Splice(page: seq<Byte>, off: nat, bytes: seq<Byte>): (r: seq<Byte>)
    requires off + |bytes| <= |page|
    ensures |r| == |page|
    ensures forall i :: 0 <= i < |page| ==> r[i] == if off <= i < off + |bytes| then bytes[i - off] else page[i]
  {
    page[..off] + bytes + page[off + |bytes|..]
  }

  /** Bytes stored through the frame behind page `p`. */
  function WritePage(m: Mem, p: nat, off: nat, bytes: seq<Byte>): Mem
    requires p in m.table && m.table[p].frame in m.phys && off + |bytes| <= |m.phys[m.table[p].frame]|
  {
    var f := m.table[p].frame;
    m.(phys := m.phys[f := Splice(m.phys[f], off, bytes)])
  }

  lemma {:induction false} WritePageKeepsInv(m: Mem, src: map<nat, seq<Byte>>, p: nat, off: nat, bytes: seq<Byte>)
    requires Inv(m, src) && p in m.table && m.table[p].flags.copied && off + |bytes| <= PAGE_SIZE
    ensures Inv(WritePage(m, p, off, bytes), src)
  {
  }

  /** A store into a private page changes the view there and nowhere else. */
  lemma {:induction false} WritePageOverwrites(m: Mem, src: map<nat, seq<Byte>>, p: nat, off: nat, bytes: seq<Byte>)
    requires Inv(m, src) && p in m.table && m.table[p].flags.copied && off + |bytes| <= PAGE_SIZE
    ensures Overwritten(m, WritePage(m, p, off, bytes), p * PAGE_SIZE + off, bytes)
  {
    var n := WritePage(m, p, off, bytes);
    var lo := p * PAGE_SIZE + off;
    forall a: nat ensures View(n, a) == if lo <= a < lo + |bytes| then Some(bytes[a - lo]) else View(m, a) {
      var q := PageOf(a);
      assert a == q * PAGE_SIZE + a % PAGE_SIZE;
      if q in m.table && q != p {
        assert m.table[q].frame != m.table[p].frame;
      }
    }
  }

  /** Map page `p` to a frame of the file. */
  function MapSource(m: Mem, p: nat, frame: nat, flags: Flags): Mem {
    m.(table := m.table[p := Entry(frame, flags)])
  }

  lemma {:induction false} MapSourceExtends(m: Mem, src: map<nat, seq<Byte>>, p: nat, frame: nat, flags: Flags)
    requires Inv(m, src) && p !in m.table && frame in src && !flags.copied
    ensures |src[frame]| == PAGE_SIZE
    ensures Inv(MapSource(m, p, frame, flags), src)
    ensures Extended(m, MapSource(m, p, frame, flags), p, src[frame])
  {
    assert m.phys[frame] == src[frame];
  }

  /** Map page `p` to a fresh frame with the given content. */
  function MapFresh(m: Mem, p: nat, content: seq<Byte>, flags: Flags): Mem
    requires m.pool != []
  {
    Mem(m.phys[m.pool[0] := content], m.table[p := Entry(m.pool[0], flags)], m.pool[1..])
  }

  lemma {:induction false} MapFreshKeepsInv(m: Mem, src: map<nat, seq<Byte>>, p: nat, content: seq<Byte>, flags: Flags)
    requires Inv(m, src) && p !in m.table && m.pool != [] && |content| == PAGE_SIZE && !flags.copied
    ensures Inv(MapFresh(m, p, content, flags), src)
  {
    var n := MapFresh(m, p, content, flags);
    assert Backed(n);
    assert SourceIntact(n, src);
    assert CopiesArePrivate(n, src);
    assert PoolIsFresh(n, src);
  }

  lemma {:induction false} MapFreshExtends(m: Mem, src: map<nat, seq<Byte>>, p: nat, content: seq<Byte>, flags: Flags)
    requires Inv(m, src) && p !in m.table && m.pool != [] && |content| == PAGE_SIZE && !flags.copied
    ensures Extended(m, MapFresh(m, p, content, flags), p, content)
  {
    var n := MapFresh(m, p, content, flags);
    forall a: nat ensures View(n, a) == if PageOf(a) == p then Some(content[a % PAGE_SIZE]) else View(m, a) {
      if PageOf(a) in m.table {
        assert m.table[PageOf(a)].frame != m.pool[0];
      }
    }
  }

  // ------------------------------------------------------ writes across pages

  function Min(x: nat, y: nat): nat { if x < y then x else y }

  /** Copy the page of `addr` unless it is a copy already, and store into it. */
  function CopyAndStore(m: Mem, addr: nat, bytes: seq<Byte>): (r: Option<Mem>)
    requires Backed(m) && addr % PAGE_SIZE + |bytes| <= PAGE_SIZE
    ensures r.Some? ==> Backed(r.value)
  {
    match CopyPage(m, PageOf(addr))
    case None => None
    case Some(n) => Some(WritePage(n, PageOf(addr), addr % PAGE_SIZE, bytes))
  }

  lemma {:induction false} CopyAndStoreOverwrites(m: Mem, src: map<nat, seq<Byte>>, addr: nat, bytes: seq<Byte>)
    requires Inv(m, src) && addr % PAGE_SIZE + |bytes| <= PAGE_SIZE && CopyAndStore(m, addr, bytes).Some?
    ensures var n := CopyAndStore(m, addr, bytes).value;
      Inv(n, src) && n.table.Keys == m.table.Keys && Overwritten(m, n, addr, bytes)
  {
    var p, off := PageOf(addr), addr % PAGE_SIZE;
    var n := CopyPage(m, p).value;
    CopyPageKeepsInv(m, src, p);
    CopyPageKeepsView(m, src, p);
    WritePageKeepsInv(n, src, p, off, bytes);
    WritePageOverwrites(n, src, p, off, bytes);
    assert addr == p * PAGE_SIZE + off;
  }

  /** How many of the next `n` bytes lie in the page of `addr`. */
  function InPage(addr: nat, n: nat): nat { Min(PAGE_SIZE - addr % PAGE_SIZE, n) }

  /** Write `buf` at `addr`, page by page, copying each page first. */
  function WriteSpan(m: Mem, addr: nat, buf: seq<Byte>): (r: Option<Mem>)
    requires Backed(m)
    ensures r.Some? ==> Backed(r.value)
    decreases |buf|
  {
    if buf == [] then Some(m)
    else
      var k := InPage(addr, |buf|);
      match CopyAndStore(m, addr, buf[..k])
      case None => None
      case Some(n) => WriteSpan(n, addr + k, buf[k..])
  }

  lemma {:induction false} WriteSpanUnfolds(m: Mem, addr: nat, buf: seq<Byte>)
    requires Backed(m)
    ensures buf == [] ==> WriteSpan(m, addr, buf) == Some(m)
    ensures buf != [] ==>
      var k := InPage(addr, |buf|);
      WriteSpan(m, addr, buf) ==
        match CopyAndStore(m, addr, buf[..k])
        case None => None
        case Some(n) => WriteSpan(n, addr + k, buf[k..])
  {
  }

  lemma {:induction false} OverwritesJoin(m: Mem, n: Mem, o: Mem, addr: nat, buf: seq<Byte>, k: nat)
    requires k <= |buf| && Overwritten(m, n, addr, buf[..k]) && Overwritten(n, o, addr + k, buf[k..])
    ensures Overwritten(m, o, addr, buf)
  {
    forall a: nat ensures View(o, a) == if addr <= a < addr + |buf| then Some(buf[a - addr]) else View(m, a) {
      assert View(n, a) == if addr <= a < addr + k then Some(buf[..k][a - addr]) else View(m, a);
    }
  }

  lemma {:induction false} WriteSpanKeepsInv(m: Mem, src: map<nat, seq<Byte>>, addr: nat, buf: seq<Byte>)
    requires Inv(m, src) && WriteSpan(m, addr, buf).Some?
    ensures var n := WriteSpan(m, addr, buf).value; Inv(n, src) && n.table.Keys == m.table.Keys
    decreases |buf|
  {
    hide CopyAndStore;
    if buf != [] {
      var k := InPage(addr, |buf|);
      CopyAndStoreOverwrites(m, src, addr, buf[..k]);
      WriteSpanKeepsInv(CopyAndStore(m, addr, buf[..k]).value, src, addr + k, buf[k..]);
    }
  }

  /** A whole write: the buffer appears at its address across page boundaries
      and no other virtual byte changes. */
  lemma {:induction false} WriteSpanOverwrites(m: Mem, src: map<nat, seq<Byte>>, addr: nat, buf: seq<Byte>)
    requires Inv(m, src) && WriteSpan(m, addr, buf).Some?
    ensures Overwritten(m, WriteSpan(m, addr, buf).value, addr, buf)
    decreases |buf|
  {
    hide CopyAndStore;
    if buf != [] {
      var k := InPage(addr, |buf|);
      CopyAndStoreOverwrites(m, src, addr, buf[..k]);
      var n := CopyAndStore(m, addr, buf[..k]).value;
      WriteSpanOverwrites(n, src, addr + k, buf[k..]);
      OverwritesJoin(m, n, WriteSpan(n, addr + k, buf[k..]).value, addr, buf, k);
    }
  }

  datatype Write = Write(addr: nat, bytes: seq<Byte>)

  /** Any sequence of writes. Clearing the tail of a page is the write of zeros
      up to the page end. */
  function RunWrites(m: Mem, ws: seq<Write>): Option<Mem>
    requires Backed(m)
    decreases |ws|
  {
    if ws == [] then Some(m)
    else match WriteSpan(m, ws[0].addr, ws[0].bytes)
      case None => None
      case Some(n) => RunWrites(n, ws[1..])
  }

  /** What `a` shows after the writes: the last write that covers it, or `before`. */
  function Patched(ws: seq<Write>, a: nat, before: Option<Byte>): Option<Byte> {
    if ws == [] then before
    else
      var w := ws[|ws| - 1];
      if w.addr <= a < w.addr + |w.bytes| then Some(w.bytes[a - w.addr])
      else Patched(ws[..|ws| - 1], a, before)
  }

  lemma {:induction false} PatchedCons(ws: seq<Write>, a: nat, before: Option<Byte>)
    requires ws != []
    ensures Patched(ws, a, before) == Patched(ws[1..], a, Patched([ws[0]], a, before))
  {
    if |ws| > 1 {
      var w := ws[|ws| - 1];
      assert ws[1..][|ws| - 2] == w;
      assert ws[1..][..|ws| - 2] == ws[..|ws| - 1][1..];
      if !(w.addr <= a < w.addr + |w.bytes|) { PatchedCons(ws[..|ws| - 1], a, before); }
    } else {
      assert ws[1..] == [] && [ws[0]] == ws;
    }
  }

  /** Copy-on-write is sound over any sequence of writes, also when several
      virtual pages share one frame of the file: the file's frames keep their
      bytes, copies stay private, and each address shows the last write to it. */
  lemma {:induction false} WritesAreSound(m: Mem, src: map<nat, seq<Byte>>, ws: seq<Write>)
    requires Inv(m, src) && RunWrites(m, ws).Some?
    ensures var n := RunWrites(m, ws).value;
      Inv(n, src) && forall a: nat :: View(n, a) == Patched(ws, a, View(m, a))
    decreases |ws|
  {
    if ws != [] {
      WriteSpanKeepsInv(m, src, ws[0].addr, ws[0].bytes);
      WriteSpanOverwrites(m, src, ws[0].addr, ws[0].bytes);
      var n := WriteSpan(m, ws[0].addr, ws[0].bytes).value;
      WritesAreSound(n, src, ws[1..]);
      var o := RunWrites(m, ws).value;
      forall a: nat ensures View(o, a) == Patched(ws, a, View(m, a)) {
        PatchedCons(ws, a, View(m, a));
        assert View(n, a) == Patched([ws[0]], a, View(m, a));
      }
    }
  }

  /** Which part of a buffer of `len` bytes at `addr` lies in `page`, where it
      starts in the page, and how long it is. */
  method PageSlice(addr: nat, len: nat, page: nat, ghost done: nat)
    returns (startInFrame: nat, startInBuf: nat, copyLen: nat)
    requires done < len && page == PageOf(addr + done)
    requires done > 0 ==> (addr + done) % PAGE_SIZE == 0
    ensures startInBuf == done && copyLen == InPage(addr + done, len - done)
    ensures page * PAGE_SIZE + startInFrame == addr + done && startInFrame + copyLen <= PAGE_SIZE && copyLen > 0
    ensures done + copyLen < len ==>
      (addr + done + copyLen) % PAGE_SIZE == 0 && PageOf(addr + done + copyLen) == page + 1
    ensures done + copyLen == len ==> page == PageOf(addr + len - 1)
  {
    var pageStart, pageEndInclusive := page * PAGE_SIZE, page * PAGE_SIZE + 4095;
    var startCopy := Max(addr, pageStart);
    var endInclusiveCopy := Min(addr + len - 1, pageEndInclusive);
    startInFrame := startCopy - pageStart;
    var endInclusiveInFrame := endInclusiveCopy - pageStart;
    copyLen := endInclusiveInFrame - startInFrame + 1;
    startInBuf := startCopy - addr;
  }

  // ------------------------------------------------------- the address space

  class AddressSpace {
    var phys: map<nat, seq<Byte>>
    var table: map<nat, Entry>
    var pool: seq<nat>
    ghost const source: map<nat, seq<Byte>>
    ghost const direct: bool  // whether pages may be mapped to frames of the file

    ghost function State(): Mem
      reads this
    {
      Mem(phys, table, pool)
    }

    ghost predicate Valid()
      reads this
    {
      Inv(State(), source) && (!direct ==> NothingShared(State(), source))
    }

    constructor (
      phys: map<nat, seq<Byte>>, table: map<nat, Entry>, pool: seq<nat>,
      ghost source: map<nat, seq<Byte>>, ghost direct: bool)
      requires Inv(Mem(phys, table, pool), source) && (!direct ==> NothingShared(Mem(phys, table, pool), source))
      ensures Valid() && State() == Mem(phys, table, pool) && this.source == source && this.direct == direct
    {
      this.phys, this.table, this.pool, this.source, this.direct := phys, table, pool, source, direct;
    }

    /** Give page `p` a frame of its own, holding a copy of what it shows. */
    method CopyPageAndRemap(p: nat) returns (frame: Option<nat>)
      requires Valid()
      modifies this
      ensures Valid()
      ensures frame.Some? <==> CopyPage(old(State()), p).Some?
      ensures frame.Some? ==> Some(State()) == CopyPage(old(State()), p) && frame.value == table[p].frame
      ensures frame.None? ==> State() == old(State())
    {
      if p !in table { return None; }
      var entry := table[p];
      if entry.flags.copied { return Some(entry.frame); }
      if pool == [] { return None; }
      CopyPageKeepsInv(State(), source, p);
      var newFrame := pool[0];
      pool := pool[1..];
      phys := phys[newFrame := phys[entry.frame]];
      ghost var before := table;
      table := table - {p};
      table := table[p := Entry(newFrame, entry.flags.(copied := true))];
      assert table == before[p := Entry(newFrame, entry.flags.(copied := true))];
      return Some(newFrame);
    }

    /** Write `buf` at `addr` through private copies of the pages it spans. */
    method CopyPagesAndWrite(addr: nat, buf: seq<Byte>) returns (ok: bool)
      requires Valid() && |buf| > 0
      modifies this
      ensures Valid()
      ensures ok <==> WriteSpan(old(State()), addr, buf).Some?
      ensures ok ==> Some(State()) == WriteSpan(old(State()), addr, buf)
    {
      hide CopyAndStore, SourceIntact, CopiesArePrivate, PoolIsFresh, Backed, WriteSpan, NothingShared;
      ghost var result := WriteSpan(State(), addr, buf);
      assert buf[0..] == buf;
      var endInclusive := addr + |buf| - 1;
      var page, endPage := addr / PAGE_SIZE, endInclusive / PAGE_SIZE;
      ghost var done := 0;
      while page <= endPage
        invariant Valid() && 0 <= done <= |buf|
        invariant WriteSpan(State(), addr + done, buf[done..]) == result
        invariant page == if done < |buf| then PageOf(addr + done) else endPage + 1
        invariant 0 < done < |buf| ==> (addr + done) % PAGE_SIZE == 0
        decreases endPage - page
      {
        var startInFrame, startInBuf, copyLen := PageSlice(addr, |buf|, page, done);
        assert buf[done..][copyLen..] == buf[done + copyLen..];
        WriteSpanUnfolds(State(), addr + done, buf[done..]);
        ok := CopyAndStorePage(page, startInFrame, buf[startInBuf..][..copyLen]);
        if !ok { return; }
        done := done + copyLen;
        page := page + 1;
      }
      WriteSpanUnfolds(State(), addr + done, buf[done..]);
      ok := true;
    }

    method CopyAndStorePage(p: nat, off: nat, bytes: seq<Byte>) returns (ok: bool)
      requires Valid() && 0 < |bytes| && off + |bytes| <= PAGE_SIZE
      modifies this
      ensures Valid()
      ensures ok <==> CopyAndStore(old(State()), p * PAGE_SIZE + off, bytes).Some?
      ensures ok ==> Some(State()) == CopyAndStore(old(State()), p * PAGE_SIZE + off, bytes)
    {
      var frame := CopyPageAndRemap(p);
      if frame.None? { return false; }
      Store(p, frame.value, off, bytes);
      return true;
    }

    method Store(ghost p: nat, frame: nat, off: nat, bytes: seq<Byte>)
      requires Valid() && p in table && table[p].frame == frame && table[p].flags.copied
      requires off + |bytes| <= PAGE_SIZE
      modifies this`phys
      ensures Valid() && State() == WritePage(old(State()), p, off, bytes)
    {
      WritePageKeepsInv(State(), source, p, off, bytes);
      phys := phys[frame := Splice(phys[frame], off, bytes)];
    }

    /** Map page `p` to a frame of the file; refused when `p` is mapped already. */
    method MapTo(p: nat, frame: nat, flags: Flags) returns (ok: bool)
      requires Valid() && direct && frame in source && !flags.copied
      modifies this`table
      ensures Valid()
      ensures ok <==> p !in old(table)
      ensures ok ==> State() == MapSource(old(State()), p, frame, flags)
    {
      if p in table { return false; }
      MapSourceExtends(State(), source, p, frame, flags);
      table := table[p := Entry(frame, flags)];
      return true;
    }

    /** Take a fresh frame, fill it, and map page `p` to it. */
    method MapNewFrame(p: nat, content: seq<Byte>, flags: Flags) returns (ok: bool)
      requires Valid() && |content| == PAGE_SIZE && !flags.copied
      modifies this
      ensures ok ==> Valid() && old(pool) != [] && p !in old(table)
      ensures ok ==> State() == MapFresh(old(State()), p, content, flags)
      ensures !ok ==> old(pool) == [] || p in old(table)
    {
      if pool == [] { return false; }
      var frame := pool[0];
      ghost var before := State();
      pool := pool[1..];
      phys := phys[frame := content];
      if p in table { return false; }
      MapFreshKeepsInv(before, source, p, content, flags);
      table := table[p := Entry(frame, flags)];
      return true;
    }

    /** Replace the flags of page `p`. */
    method UpdateFlags(p: nat, flags: Flags)
      requires Valid() && p in table && (flags.copied ==> table[p].flags.copied)
      modifies this`table
      ensures Valid() && State() == old(State()).(table := old(table)[p := old(table[p]).(flags := flags)])
      ensures SameView(old(State()), State())
    {
      table := table[p := table[p].(flags := flags)];
    }
  }
}
