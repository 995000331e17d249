/** The relocation and flag passes of the loaders, step by step. */
module ElfRelocate {
  import opened Regions
  import opened CopyOnWrite
  import opened ElfImage
  import opened ElfTables
  import opened ElfLoader

  ghost predicate SpanMapped(m: Mem, addr: nat, len: nat) {
    forall a: nat :: addr <= a < addr + len ==> PageOf(a) in m.table
  }

  function SpanPages(addr: nat, len: nat): nat {
    if len == 0 then 0 else PageOf(addr + len - 1) - PageOf(addr) + 1
  }

  lemma {:induction false} SpanPagesStep(addr: nat, len: nat)
    requires len > 0
    ensures var k := InPage(addr, len);
      0 < k <= len && addr % PAGE_SIZE + k <= PAGE_SIZE && SpanPages(addr, len) == 1 + SpanPages(addr + k, len - k)
  {
  }

  /** A write goes through exactly when its pages are mapped, given frames. */
  lemma {:induction false} WriteSpanNeedsPages(m: Mem, addr: nat, buf: seq<Byte>)
    requires Backed(m)
    ensures WriteSpan(m, addr, buf).Some? ==>
      SpanMapped(m, addr, |buf|) && |WriteSpan(m, addr, buf).value.pool| + SpanPages(addr, |buf|) >= |m.pool|
    ensures SpanMapped(m, addr, |buf|) && |m.pool| >= SpanPages(addr, |buf|) ==> WriteSpan(m, addr, buf).Some?
    decreases |buf|
  {
    hide CopyAndStore, SpanPages, InPage;
    if buf == [] {
      assert SpanPages(addr, 0) == 0 by { NoPages(addr); }
    } else {
      var k := InPage(addr, |buf|);
      SpanPagesStep(addr, |buf|);
      CopyAndStoreSucceeds(m, addr, buf[..k]);
      CopyAndStoreNeedsPage(m, addr, buf[..k]);
      if CopyAndStore(m, addr, buf[..k]).Some? {
        var n := CopyAndStore(m, addr, buf[..k]).value;
        CopyAndStoreKeepsFlags(m, addr, buf[..k]);
        WriteSpanNeedsPages(n, addr + k, buf[k..]);
        SpanSplits(m, n, addr, |buf|, k);
      }
    }
  }

  lemma {:induction false} NoPages(addr: nat)
    ensures SpanPages(addr, 0) == 0
  {
  }

  lemma {:induction false} CopyAndStoreNeedsPage(m: Mem, addr: nat, bytes: seq<Byte>)
    requires Backed(m) && addr % PAGE_SIZE + |bytes| <= PAGE_SIZE
    ensures CopyAndStore(m, addr, bytes).Some? ==> PageOf(addr) in m.table
  {
  }

  lemma {:induction false} SpanSplits(m: Mem, n: Mem, addr: nat, len: nat, k: nat)
    requires 0 < k <= len && addr % PAGE_SIZE + k <= PAGE_SIZE
    requires n.table.Keys == m.table.Keys && PageOf(addr) in m.table
    ensures SpanMapped(m, addr, len) <==> SpanMapped(n, addr + k, len - k)
  {
    forall a: nat | addr <= a < addr + k ensures PageOf(a) == PageOf(addr) {
    }
  }

  /** `n` is `m` after the writes: same pages, same flags up to the copy mark,
      each address showing the last write to it, all writes on mapped pages. */
  ghost predicate Rewritten(m: Mem, n: Mem, ws: seq<Write>) {
    && SameFlags(m, n)
    && (forall a: nat :: View(n, a) == Patched(ws, a, View(m, a)))
    && WritesMapped(n, ws)
  }

  ghost predicate SameFlags(m: Mem, n: Mem) {
    && n.table.Keys == m.table.Keys
    && (forall p :: p in m.table ==> n.table[p].flags.(copied := false) == m.table[p].flags.(copied := false))
  }

  ghost predicate WritesMapped(m: Mem, ws: seq<Write>) {
    forall i :: 0 <= i < |ws| ==> SpanMapped(m, ws[i].addr, |ws[i].bytes|)
  }

  lemma {:induction false} RewrittenByOneMore(m: Mem, n: Mem, o: Mem, ws: seq<Write>, w: Write)
    requires Rewritten(m, n, ws) && SameFlags(n, o)
    requires SpanMapped(n, w.addr, |w.bytes|) && Overwritten(n, o, w.addr, w.bytes)
    ensures Rewritten(m, o, ws + [w])
  {
    var vs := ws + [w];
    forall a: nat ensures View(o, a) == Patched(vs, a, View(m, a)) {
      assert vs[|vs| - 1] == w && vs[..|vs| - 1] == ws;
      assert View(n, a) == Patched(ws, a, View(m, a));
    }
    forall i | 0 <= i < |vs| ensures SpanMapped(o, vs[i].addr, |vs[i].bytes|) {
      assert i < |ws| ==> SpanMapped(n, ws[i].addr, |ws[i].bytes|);
    }
  }

  lemma {:induction false} WriteRewrites(m: Mem, n: Mem, o: Mem, src: map<nat, seq<Byte>>, ws: seq<Write>, w: Write)
    requires Inv(n, src) && Rewritten(m, n, ws) && WriteSpan(n, w.addr, w.bytes) == Some(o)
    ensures Rewritten(m, o, ws + [w])
  {
    hide Inv, Rewritten, WriteSpan, SpanMapped, Overwritten;
    InvIsBacked(n, src);
    WriteSpanOverwrites(n, src, w.addr, w.bytes);
    WriteSpanKeepsFlags(n, w.addr, w.bytes);
    WriteSpanNeedsPages(n, w.addr, w.bytes);
    RewrittenByOneMore(m, n, o, ws, w);
  }

  lemma {:induction false} RewrittenRefl(m: Mem)
    ensures Rewritten(m, m, [])
  {
  }

  /** Eight bytes span at most two pages. */
  lemma {:induction false} WordPages(addr: nat)
    ensures SpanPages(addr, 8) <= 2
  {
  }

  class Relocator {
    const elf: Elf
    const pl: Placement
    const space: AddressSpace

    constructor (elf: Elf, pl: Placement, space: AddressSpace)
      ensures this.elf == elf && this.pl == pl && this.space == space
    {
      this.elf, this.pl, this.space := elf, pl, space;
    }

    /** Apply entry `i` of the relocation table. */
    method ApplyEntry(at: nat, i: nat, ghost m0: Mem, ghost ws: seq<Write>) returns (ok: bool)
      requires space.Valid() && TableWrites(elf, pl, at, i) == Some(ws) && Rewritten(m0, space.State(), ws)
      modifies space
      ensures ok ==> space.Valid() && TableWrites(elf, pl, at, i + 1).Some? && |space.pool| + 2 >= |old(space.pool)|
      ensures ok ==> Rewritten(m0, space.State(), TableWrites(elf, pl, at, i + 1).value)
      ensures TableWrites(elf, pl, at, i + 1).Some? && |old(space.pool)| >= 2 ==>
        WritesMapped(m0, TableWrites(elf, pl, at, i + 1).value) ==> ok
    {
      hide Inv, Rewritten, WriteSpan, SpanPages, RelocAt;
      if at + (i + 1) * RELA_SIZE > |elf.bytes| { return false; }
      var r := RelocAt(elf.bytes, at + i * RELA_SIZE);
      if r.symbol != 0 || r.kind != R_X86_64_RELATIVE { return false; }
      if !Placeable(pl, r.offset) || !Placeable(pl, r.addend) { return false; }
      var target, value := Place(pl, r.offset), Place(pl, r.addend);
      ghost var n, w := space.State(), Write(target, LittleEndian(value, 8));
      assert TableWrites(elf, pl, at, i + 1) == Some(ws + [w]);
      hide TableWrites;
      InvIsBacked(n, space.source);
      WriteSpanNeedsPages(n, target, LittleEndian(value, 8));
      WordPages(target);
      TargetMapped(m0, n, ws, w);
      ok := space.CopyPagesAndWrite(target, LittleEndian(value, 8));
      if ok { WriteRewrites(m0, n, space.State(), space.source, ws, w); }
    }

    method ApplyTable(at: nat, count: nat) returns (ok: bool)
      requires space.Valid()
      modifies space
      ensures ok ==> space.Valid() && TableWrites(elf, pl, at, count).Some?
      ensures ok ==> |space.pool| + 2 * count >= |old(space.pool)|
      ensures ok ==> Rewritten(old(space.State()), space.State(), TableWrites(elf, pl, at, count).value)
      ensures TableWrites(elf, pl, at, count).Some? && |old(space.pool)| >= 2 * count ==>
        WritesMapped(old(space.State()), TableWrites(elf, pl, at, count).value) ==> ok
    {
      hide Inv, Rewritten, WritesMapped;
      ghost var m0 := space.State();
      RewrittenRefl(m0);
      TableStarts(elf, pl, at);
      hide TableWrites;
      var i := 0;
      while i < count
        invariant 0 <= i <= count && space.Valid() && |space.pool| + 2 * i >= |m0.pool|
        invariant TableWrites(elf, pl, at, i).Some?
        invariant Rewritten(m0, space.State(), TableWrites(elf, pl, at, i).value)
      {
        TablePrefix(elf, pl, at, i + 1, count, m0);
        ok := ApplyEntry(at, i, m0, TableWrites(elf, pl, at, i).value);
        if !ok { return; }
        i := i + 1;
      }
      ok := true;
    }

    /** Apply the relocations of a dynamic segment: the stores are those its table
        asks for, entry by entry. */
    method ApplyDynamic(h: Header) returns (ok: bool)
      requires space.Valid()
      modifies space
      ensures ok ==> space.Valid() && DynamicWrites(elf, pl, h).Some?
      ensures ok ==> |space.pool| + 2 * |DynamicWrites(elf, pl, h).value| >= |old(space.pool)|
      ensures ok ==> Rewritten(old(space.State()), space.State(), DynamicWrites(elf, pl, h).value)
      ensures ok ==> exists rs :: Asked(elf, pl, h, rs) && StoresFor(pl, rs, DynamicWrites(elf, pl, h).value)
      ensures DynamicWrites(elf, pl, h).Some? && |old(space.pool)| >= 2 * |DynamicWrites(elf, pl, h).value| ==>
        WritesMapped(old(space.State()), DynamicWrites(elf, pl, h).value) ==> ok
    {
      hide Inv, Rewritten, WritesMapped, TableWrites, Unique, Lookup, Asked, StoresFor;
      RewrittenRefl(space.State());
      if DynamicWrites(elf, pl, h).Some? {
        ghost var rs := DynamicIsThere(elf, pl, h);
        DynamicStores(elf, pl, h, rs);
      }
      var unique, rela, total, entry := ReadTags(h.tags);
      if !unique { return false; }
      if rela.None? { return true; }
      if total.None? || entry.None? { return false; }
      if entry.value != RELA_SIZE || rela.value < pl.least { return false; }
      TableLength(elf, pl, rela.value - pl.least, total.value / entry.value);
      ok := ApplyTable(rela.value - pl.least, total.value / entry.value);
    }
  }

  lemma {:induction false} TargetMapped(m0: Mem, n: Mem, ws: seq<Write>, w: Write)
    requires Rewritten(m0, n, ws)
    ensures WritesMapped(m0, ws + [w]) ==> SpanMapped(n, w.addr, |w.bytes|)
  {
    assert (ws + [w])[|ws|] == w;
  }

  lemma {:induction false} TableStarts(elf: Elf, pl: Placement, at: nat)
    ensures TableWrites(elf, pl, at, 0) == Some([])
  {
  }

  lemma {:induction false} TableLength(elf: Elf, pl: Placement, at: nat, n: nat)
    ensures TableWrites(elf, pl, at, n).Some? ==> |TableWrites(elf, pl, at, n).value| == n
  {
    if n > 0 { TableLength(elf, pl, at, n - 1); }
  }

  /** A shorter table is a prefix of the longer one. */
  lemma {:induction false} TablePrefix(elf: Elf, pl: Placement, at: nat, i: nat, n: nat, m: Mem)
    requires i <= n
    ensures TableWrites(elf, pl, at, n).Some? ==>
      TableWrites(elf, pl, at, i).Some? &&
      (WritesMapped(m, TableWrites(elf, pl, at, n).value) ==> WritesMapped(m, TableWrites(elf, pl, at, i).value))
    decreases n - i
  {
    if i < n && TableWrites(elf, pl, at, n).Some? {
      TablePrefix(elf, pl, at, i, n - 1, m);
      var ws, vs := TableWrites(elf, pl, at, n).value, TableWrites(elf, pl, at, n - 1).value;
      assert forall k :: 0 <= k < |vs| ==> vs[k] == ws[k];
    }
  }
}
