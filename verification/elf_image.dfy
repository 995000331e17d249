/** What an ELF file says its image looks like: program headers, segment bytes,
    the entries of the dynamic section and the writes its relocations ask for. */
module ElfImage {
  import opened Regions
  import opened CopyOnWrite

  datatype Kind = Load | Dynamic | Relro | Ignored

  datatype TagKind = Rela | RelaSize | RelaEnt | OtherTag

  datatype Tag = Tag(kind: TagKind, value: nat)

  /** A program header; `tags` is the content of a dynamic segment. */
  datatype Header = Header(
    kind: Kind, offset: nat, vaddr: nat, fileSize: nat, memSize: nat,
    writable: bool, executable: bool, tags: seq<Tag>)

  datatype Elf = Elf(bytes: seq<Byte>, headers: seq<Header>)

  /** The two loaders: the bootloader maps the file's own frames and moves the
      image, the kernel copies every page and leaves the image where it is. */
  datatype Mode = Bootloader | Kernel

  /** Where an image goes: virtual address `least` of the file becomes `base`.
      The file's first byte is the first byte of frame `firstFrame`. */
  datatype Placement = Placement(mode: Mode, least: nat, base: nat, firstFrame: nat)

  function Place(pl: Placement, v: nat): int { pl.base + v - pl.least }

  /** The bootloader subtracts `least` first, so it needs addresses above it. */
  predicate Placeable(pl: Placement, v: nat) {
    && (pl.mode.Kernel? ==> pl.base == pl.least)
    && (pl.mode.Bootloader? ==> pl.least <= v)
    && 0 <= Place(pl, v) < U64_LIMIT
  }

  function Start(pl: Placement, h: Header): nat
    requires Placeable(pl, h.vaddr)
  {
    Place(pl, h.vaddr)
  }

  function FileEnd(pl: Placement, h: Header): nat
    requires Placeable(pl, h.vaddr)
  {
    Start(pl, h) + h.fileSize
  }

  function MemEnd(pl: Placement, h: Header): nat
    requires Placeable(pl, h.vaddr)
  {
    Start(pl, h) + h.memSize
  }

  /** The pages of a non-empty segment are FirstPage .. EndPage, end exclusive. */
  function FirstPage(pl: Placement, h: Header): nat
    requires Placeable(pl, h.vaddr)
  {
    PageOf(Start(pl, h))
  }

  function EndPage(pl: Placement, h: Header): nat
    requires Placeable(pl, h.vaddr) && h.memSize > 0
  {
    PageOf(MemEnd(pl, h) - 1) + 1
  }

  predicate InSegment(pl: Placement, h: Header, a: nat)
    requires Placeable(pl, h.vaddr)
  {
    Start(pl, h) <= a < MemEnd(pl, h)
  }

  /** A loadable segment as the System V gABI, chapter 5, wants it. */
  predicate Loadable(elf: Elf, pl: Placement, h: Header) {
    && Placeable(pl, h.vaddr)
    && 0 < h.memSize && h.fileSize <= h.memSize
    && h.offset + h.fileSize <= |elf.bytes|
    && Start(pl, h) % PAGE_SIZE == h.offset % PAGE_SIZE
  }

  /** The byte the file promises at address `a` of a segment. */
  function SegmentByte(elf: Elf, pl: Placement, h: Header, a: nat): Byte
    requires Loadable(elf, pl, h) && InSegment(pl, h, a)
  {
    if a < FileEnd(pl, h) then elf.bytes[h.offset + a - Start(pl, h)] else 0
  }

  /** The file's bytes, as they lie in physical memory. */
  ghost predicate Resident(elf: Elf, pl: Placement, src: map<nat, seq<Byte>>) {
    forall i :: 0 <= i < |elf.bytes| ==>
      pl.firstFrame + i / PAGE_SIZE in src
      && |src[pl.firstFrame + i / PAGE_SIZE]| == PAGE_SIZE
      && src[pl.firstFrame + i / PAGE_SIZE][i % PAGE_SIZE] == elf.bytes[i]
  }

  // ------------------------------------------------------------ little endian

  function LittleEndian(v: nat, n: nat): (bs: seq<Byte>)
    ensures |bs| == n
  {
    if n == 0 then [] else [v % 256] + LittleEndian(v / 256, n - 1)
  }

  function Unsigned(bs: seq<Byte>): nat {
    if bs == [] then 0 else bs[0] + 256 * Unsigned(bs[1..])
  }

  function Pow256(n: nat): nat { if n == 0 then 1 else 256 * Pow256(n - 1) }

  /** Reading a value back gives the value. */
  lemma {:induction false} LittleEndianRoundTrip(v: nat, n: nat)
    requires v < Pow256(n)
    ensures Unsigned(LittleEndian(v, n)) == v
  {
    if n > 0 {
      LittleEndianRoundTrip(v / 256, n - 1);
      assert LittleEndian(v, n)[1..] == LittleEndian(v / 256, n - 1);
    }
  }

  // -------------------------------------------------------------- relocations

  const RELA_SIZE: nat := 24
  const R_X86_64_RELATIVE: nat := 8

  datatype Reloc = Reloc(offset: nat, symbol: nat, kind: nat, addend: nat)

  function RelocAt(bytes: seq<Byte>, at: nat): Reloc
    requires at + RELA_SIZE <= |bytes|
  {
    var info := Unsigned(bytes[at + 8..at + 16]);
    Reloc(Unsigned(bytes[at..at + 8]), info / 0x1_0000_0000, info % 0x1_0000_0000, Unsigned(bytes[at + 16..at + 24]))
  }

  /** The store a relocation asks for: eight bytes of base plus addend. */
  function RelocWrite(pl: Placement, r: Reloc): Option<Write> {
    if r.symbol == 0 && r.kind == R_X86_64_RELATIVE && Placeable(pl, r.offset) && Placeable(pl, r.addend)
    then Some(Write(Place(pl, r.offset), LittleEndian(Place(pl, r.addend), 8)))
    else None
  }

  /** The stores of the first `n` entries of the table at file index `at`. */
  function TableWrites(elf: Elf, pl: Placement, at: nat, n: nat): Option<seq<Write>> {
    if n == 0 then Some([])
    else if at + n * RELA_SIZE > |elf.bytes| then None
    else
      match (TableWrites(elf, pl, at, n - 1), RelocWrite(pl, RelocAt(elf.bytes, at + (n - 1) * RELA_SIZE)))
      case (Some(ws), Some(w)) => Some(ws + [w])
      case _ => None
  }

  predicate Unique(tags: seq<Tag>) {
    forall i, j :: 0 <= i < j < |tags| && tags[i].kind == tags[j].kind ==> tags[i].kind.OtherTag?
  }

  function Lookup(tags: seq<Tag>, kind: TagKind): Option<nat> {
    if tags == [] then None
    else if tags[|tags| - 1].kind == kind then Some(tags[|tags| - 1].value)
    else Lookup(tags[..|tags| - 1], kind)
  }

  /** The relocation stores of a dynamic segment; none when it has no table. */
  function DynamicWrites(elf: Elf, pl: Placement, h: Header): Option<seq<Write>> {
    if !Unique(h.tags) then None
    else match Lookup(h.tags, Rela)
      case None => Some([])
      case Some(rela) =>
        match (Lookup(h.tags, RelaSize), Lookup(h.tags, RelaEnt))
        case (Some(total), Some(entry)) =>
          if entry != RELA_SIZE || rela < pl.least then None
          else TableWrites(elf, pl, rela - pl.least, total / entry)
        case _ => None
  }

  /** A table of `total` bytes at virtual address `rela` lies in the file part of
      segment `h`, and the loader's file index for it in the file. */
  predicate HoldsTable(elf: Elf, pl: Placement, h: Header, rela: nat, total: nat) {
    && Loadable(elf, pl, h) && h.vaddr <= rela && rela + total <= h.vaddr + h.fileSize
    && pl.least <= rela && rela - pl.least + total <= |elf.bytes|
  }

  /** The loader reads the table at file index `rela - least`; the segment shows the
      table at its virtual address. These are the same bytes. */
  ghost predicate ReadsShownTable(elf: Elf, pl: Placement, h: Header, rela: nat, total: nat)
    requires HoldsTable(elf, pl, h, rela, total)
  {
    forall a: nat :: Place(pl, rela) <= a < Place(pl, rela) + total ==>
      SegmentByte(elf, pl, h, a) == elf.bytes[rela - pl.least + a - Place(pl, rela)]
  }

  /** The segment is as far into the file as into the image. */
  predicate Parallel(pl: Placement, h: Header) { h.offset + pl.least == h.vaddr }

  function Marked(n: nat, at: nat): (bs: seq<Byte>)
    ensures |bs| == n && forall i :: 0 <= i < n ==> bs[i] == if i == at then 1 else 0
  {
    seq(n, i => if i == at then 1 else 0)
  }

  /** Whatever the file's bytes are, the loader reads the table that the image shows
      if and only if the segment is as far into the file as into the image. */
  lemma {:induction false} TableIsShownIff(elf: Elf, pl: Placement, h: Header, rela: nat, total: nat)
    requires HoldsTable(elf, pl, h, rela, total) && total > 0
    ensures Parallel(pl, h) <==>
      forall bs: seq<Byte> :: |bs| == |elf.bytes| ==> ReadsShownTable(elf.(bytes := bs), pl, h, rela, total)
  {
    if !Parallel(pl, h) {
      var bs := Marked(|elf.bytes|, rela - pl.least);
      var other := elf.(bytes := bs);
      assert SegmentByte(other, pl, h, Place(pl, rela)) == bs[h.offset + rela - h.vaddr] == 0;
      assert !ReadsShownTable(other, pl, h, rela, total);
    }
  }

  /** A file of two segments in which it is another: the second one is a page
      further into the image than into the file. */
  lemma {:induction false} WrongTableIsRead()
    ensures var h := Header(Load, 0x1000, 0x2000, 0x2000, 0x2000, false, false, []);
      var elf := Elf(Marked(0x3000, 0x1000), [Header(Load, 0, 0, 0x1000, 0x1000, false, false, []), h]);
      var pl := Placement(Bootloader, 0, 0xffff_ff80_0000_0000, 0);
      HoldsTable(elf, pl, h, 0x2000, RELA_SIZE) && !ReadsShownTable(elf, pl, h, 0x2000, RELA_SIZE)
  {
    var h := Header(Load, 0x1000, 0x2000, 0x2000, 0x2000, false, false, []);
    var elf := Elf(Marked(0x3000, 0x1000), [Header(Load, 0, 0, 0x1000, 0x1000, false, false, []), h]);
    var pl := Placement(Bootloader, 0, 0xffff_ff80_0000_0000, 0);
    assert SegmentByte(elf, pl, h, Place(pl, 0x2000)) == elf.bytes[0x1000] == 1;
  }

  /** The relocation stores of the first `k` headers, in order. */
  function AllWrites(elf: Elf, pl: Placement, k: nat): Option<seq<Write>>
    requires k <= |elf.headers|
  {
    if k == 0 then Some([])
    else
      var h := elf.headers[k - 1];
      match (AllWrites(elf, pl, k - 1),
             if h.kind.Dynamic? && h.memSize > 0 then DynamicWrites(elf, pl, h) else Some([]))
      case (Some(ws), Some(vs)) => Some(ws + vs)
      case _ => None
  }

  /** When the targets are pairwise disjoint each of them ends up with its own
      eight bytes. */
  lemma {:induction false} DisjointTargetsKeepTheirs(ws: seq<Write>, i: nat, a: nat, before: Option<Byte>)
    requires i < |ws| && ws[i].addr <= a < ws[i].addr + |ws[i].bytes|
    requires forall j, k :: 0 <= j < k < |ws| ==>
      ws[j].addr + |ws[j].bytes| <= ws[k].addr || ws[k].addr + |ws[k].bytes| <= ws[j].addr
    ensures Patched(ws, a, before) == Some(ws[i].bytes[a - ws[i].addr])
  {
    if i < |ws| - 1 {
      DisjointTargetsKeepTheirs(ws[..|ws| - 1], i, a, before);
    }
  }

  /** An address no store covers keeps its byte. */
  lemma {:induction false} UntouchedKeepsByte(ws: seq<Write>, a: nat, before: Option<Byte>)
    requires forall i :: 0 <= i < |ws| ==> !(ws[i].addr <= a < ws[i].addr + |ws[i].bytes|)
    ensures Patched(ws, a, before) == before
  {
    if ws != [] { UntouchedKeepsByte(ws[..|ws| - 1], a, before); }
  }

  lemma {:induction false} PatchedConcat(ws: seq<Write>, vs: seq<Write>, a: nat, before: Option<Byte>)
    ensures Patched(ws + vs, a, before) == Patched(vs, a, Patched(ws, a, before))
  {
    if vs == [] {
      assert ws + vs == ws;
    } else {
      assert (ws + vs)[..|ws + vs| - 1] == ws + vs[..|vs| - 1];
      PatchedConcat(ws, vs[..|vs| - 1], a, before);
    }
  }

  // ---------------------------------------------------- reading the headers

  /** The least virtual address of any loadable segment, and the size of the
      address space they need. */
  method ImageExtent(headers: seq<Header>) returns (least: nat, size: nat)
    requires exists i :: 0 <= i < |headers| && headers[i].kind.Load?
    requires forall i :: 0 <= i < |headers| ==> headers[i].vaddr + headers[i].memSize < U64_LIMIT
    ensures exists i :: 0 <= i < |headers| && headers[i].kind.Load? && headers[i].vaddr == least
    ensures exists i ::
      0 <= i < |headers| && headers[i].kind.Load? && headers[i].vaddr + headers[i].memSize == least + size
    ensures forall i :: 0 <= i < |headers| && headers[i].kind.Load? ==>
      least <= headers[i].vaddr && headers[i].vaddr + headers[i].memSize <= least + size
  {
    var lo, hi := U64_LIMIT - 1, 0;
    ghost var seen := false;
    for n := 0 to |headers|
      invariant seen <==> exists i :: 0 <= i < n && headers[i].kind.Load?
      invariant forall i :: 0 <= i < n && headers[i].kind.Load? ==>
        lo <= headers[i].vaddr && headers[i].vaddr + headers[i].memSize <= hi
      invariant seen ==> exists i :: 0 <= i < n && headers[i].kind.Load? && headers[i].vaddr == lo
      invariant seen ==> exists i :: 0 <= i < n && headers[i].kind.Load? && headers[i].vaddr + headers[i].memSize == hi
      invariant !seen ==> lo == U64_LIMIT - 1 && hi == 0
    {
      var ph := headers[n];
      if ph.kind.Load? {
        if ph.vaddr + ph.memSize > hi { hi := ph.vaddr + ph.memSize; }
        if ph.vaddr < lo { lo := ph.vaddr; }
        seen := true;
      }
    }
    least, size := lo, hi - lo;
  }

  /** Read the three relocation entries of a dynamic segment; a repeated entry
      stops the loader. */
  method ReadTags(tags: seq<Tag>) returns (ok: bool, rela: Option<nat>, total: Option<nat>, entry: Option<nat>)
    ensures ok <==> Unique(tags)
    ensures ok ==> rela == Lookup(tags, Rela) && total == Lookup(tags, RelaSize) && entry == Lookup(tags, RelaEnt)
  {
    rela, total, entry := None, None, None;
    for n := 0 to |tags|
      invariant Unique(tags[..n])
      invariant rela == Lookup(tags[..n], Rela)
      invariant total == Lookup(tags[..n], RelaSize) && entry == Lookup(tags[..n], RelaEnt)
    {
      var tag := tags[n];
      UniqueSnoc(tags, n);
      match tag.kind {
        case Rela =>
          if rela.Some? { return false, rela, total, entry; }
          rela := Some(tag.value);
        case RelaSize =>
          if total.Some? { return false, rela, total, entry; }
          total := Some(tag.value);
        case RelaEnt =>
          if entry.Some? { return false, rela, total, entry; }
          entry := Some(tag.value);
        case OtherTag =>
      }
    }
    assert tags[..|tags|] == tags;
    ok := true;
  }

  lemma {:induction false} LookupFinds(tags: seq<Tag>, kind: TagKind)
    ensures Lookup(tags, kind).Some? <==> exists i :: 0 <= i < |tags| && tags[i].kind == kind
  {
    if tags != [] {
      LookupFinds(tags[..|tags| - 1], kind);
      if exists i :: 0 <= i < |tags| && tags[i].kind == kind {
        var i :| 0 <= i < |tags| && tags[i].kind == kind;
        assert i < |tags| - 1 ==> tags[..|tags| - 1][i].kind == kind;
      }
    }
  }

  lemma {:induction false} UniqueSnoc(tags: seq<Tag>, n: nat)
    requires n < |tags| && Unique(tags[..n])
    ensures tags[..n + 1][..n] == tags[..n] && tags[..n + 1][n] == tags[n]
    ensures Unique(tags[..n + 1]) <==> tags[n].kind.OtherTag? || Lookup(tags[..n], tags[n].kind).None?
    ensures Unique(tags) ==> Unique(tags[..n + 1])
    ensures forall k ::
      Lookup(tags[..n + 1], k) == if tags[n].kind == k then Some(tags[n].value) else Lookup(tags[..n], k)
  {
    LookupFinds(tags[..n], tags[n].kind);
    var ts := tags[..n + 1];
    if Lookup(tags[..n], tags[n].kind).Some? && !tags[n].kind.OtherTag? {
      var i :| 0 <= i < n && tags[..n][i].kind == tags[n].kind;
      assert ts[i].kind == ts[n].kind;
    }
    if Lookup(tags[..n], tags[n].kind).None? {
      forall i, j | 0 <= i < j < |ts| && ts[i].kind == ts[j].kind ensures ts[i].kind.OtherTag? {
        assert ts[i] == tags[..n][i];
        if j < n { assert ts[j] == tags[..n][j]; }
      }
    }
  }
}
