/** Relocation tables as bytes of the file: what the 24 bytes of each entry ask
    for, stated without the code that reads them, and that the loader's stores are
    exactly these. */
module ElfTables {
  import opened Regions
  import opened CopyOnWrite
  import opened ElfImage

  /** A relative relocation: the word at `offset` is to become the address that
      `addend` is loaded at. */
  datatype Rel = Rel(offset: nat, addend: nat)

  /** Its 24 bytes in the file, as in the System V ABI, chapter 4: offset, then type
      8 with symbol 0, then addend. */
  function EntryBytes(r: Rel): seq<Byte> {
    LittleEndian(r.offset, 8) + LittleEndian(8, 8) + LittleEndian(r.addend, 8)
  }

  predicate EntryAt(bytes: seq<Byte>, at: nat, r: Rel) {
    r.offset < U64_LIMIT && r.addend < U64_LIMIT && at + 24 <= |bytes| && bytes[at..at + 24] == EntryBytes(r)
  }

  /** The file has the table at index `at`, entry after entry. */
  ghost predicate TableAt(bytes: seq<Byte>, at: nat, rs: seq<Rel>) {
    forall i :: 0 <= i < |rs| ==> EntryAt(bytes, at + 24 * i, rs[i])
  }

  /** What a dynamic segment asks for: nothing without a table, and else all whole
      entries of the table at the file index of its address. */
  ghost predicate Asked(elf: Elf, pl: Placement, h: Header, rs: seq<Rel>) {
    if !HasTable(h) then rs == [] else
      exists rela: nat, total: nat :: Tag(Rela, rela) in h.tags && Tag(RelaSize, total) in h.tags
        && pl.least <= rela && |rs| == total / 24 && TableAt(elf.bytes, rela - pl.least, rs)
  }

  predicate HasTable(h: Header) { exists i :: 0 <= i < |h.tags| && h.tags[i].kind.Rela? }

  predicate IsDynamic(h: Header) { h.kind.Dynamic? && h.memSize > 0 }

  /** What the first `k` headers ask for, in order. */
  ghost predicate AllAsked(elf: Elf, pl: Placement, k: nat, rs: seq<Rel>)
    requires k <= |elf.headers|
  {
    if k == 0 then rs == []
    else if !IsDynamic(elf.headers[k - 1]) then AllAsked(elf, pl, k - 1, rs)
    else exists n: nat :: n <= |rs| && AllAsked(elf, pl, k - 1, rs[..n]) && Asked(elf, pl, elf.headers[k - 1], rs[n..])
  }

  /** The store for one entry: at base plus offset, eight bytes of base plus addend,
      both less the least address of the file. */
  predicate StoreFor(pl: Placement, r: Rel, w: Write) {
    w.addr == pl.base + r.offset - pl.least
    && 0 <= pl.base + r.addend - pl.least < U64_LIMIT
    && w.bytes == LittleEndian(pl.base + r.addend - pl.least, 8)
  }

  ghost predicate StoresFor(pl: Placement, rs: seq<Rel>, ws: seq<Write>) {
    |ws| == |rs| && forall i :: 0 <= i < |rs| ==> StoreFor(pl, rs[i], ws[i])
  }

  /** Both addresses of an entry can be placed; the bootloader subtracts the least
      address first. */
  predicate Reaches(pl: Placement, r: Rel) {
    && (pl.mode.Kernel? ==> pl.base == pl.least)
    && (pl.mode.Bootloader? ==> pl.least <= r.offset && pl.least <= r.addend)
    && 0 <= pl.base + r.offset - pl.least < U64_LIMIT
    && 0 <= pl.base + r.addend - pl.least < U64_LIMIT
  }

  /** Nothing about the segment's entries stops the loader. */
  ghost predicate Applicable(pl: Placement, h: Header, rs: seq<Rel>) {
    && Unique(h.tags) && (HasTable(h) ==> Tag(RelaEnt, 24) in h.tags)
    && forall i :: 0 <= i < |rs| ==> Reaches(pl, rs[i])
  }

  // ------------------------------------------------------------------ one entry

  lemma {:induction false} DigitAndRest(b: Byte, u: nat)
    ensures (b + 256 * u) % 256 == b && (b + 256 * u) / 256 == u
  {
  }

  /** Writing what was read gives the bytes. */
  lemma {:induction false} UnsignedRoundTrip(bs: seq<Byte>)
    ensures Unsigned(bs) < Pow256(|bs|) && LittleEndian(Unsigned(bs), |bs|) == bs
    decreases |bs|
  {
    if bs != [] {
      UnsignedRoundTrip(bs[1..]);
      DigitAndRest(bs[0], Unsigned(bs[1..]));
      assert bs == [bs[0]] + bs[1..];
    }
  }

  lemma {:induction false} Pow256Is64Bits()
    ensures Pow256(8) == U64_LIMIT
  {
    assert Pow256(4) == 0x1_0000_0000;
  }

  /** The three fields of an entry. */
  lemma {:induction false} EntryFields(bytes: seq<Byte>, at: nat, r: Rel)
    requires at + 24 <= |bytes| && bytes[at..at + 24] == EntryBytes(r)
    ensures bytes[at..at + 8] == LittleEndian(r.offset, 8)
    ensures bytes[at + 8..at + 16] == LittleEndian(8, 8)
    ensures bytes[at + 16..at + 24] == LittleEndian(r.addend, 8)
  {
    hide LittleEndian;
    var a, b, c := LittleEndian(r.offset, 8), LittleEndian(8, 8), LittleEndian(r.addend, 8);
    var e := a + b + c;
    assert e[..8] == a && e[8..16] == b && e[16..24] == c;
    SliceOfSlice(bytes, at, e, 0, 8);
    SliceOfSlice(bytes, at, e, 8, 16);
    SliceOfSlice(bytes, at, e, 16, 24);
  }

  lemma {:induction false} SliceOfSlice(bytes: seq<Byte>, at: nat, e: seq<Byte>, lo: nat, hi: nat)
    requires at + |e| <= |bytes| && bytes[at..at + |e|] == e && lo <= hi <= |e|
    ensures bytes[at + lo..at + hi] == e[lo..hi]
  {
    forall i | lo <= i < hi ensures bytes[at + i] == e[i] {
      assert bytes[at..at + |e|][i] == bytes[at + i];
    }
    forall i | 0 <= i < hi - lo ensures bytes[at + lo..at + hi][i] == e[lo..hi][i] {
      assert bytes[at + (lo + i)] == e[lo + i];
    }
  }

  lemma {:induction false} EntryIsRead(bytes: seq<Byte>, at: nat, r: Rel)
    requires EntryAt(bytes, at, r)
    ensures RelocAt(bytes, at) == Reloc(r.offset, 0, 8, r.addend)
  {
    EntryFields(bytes, at, r);
    Pow256Is64Bits();
    LittleEndianRoundTrip(r.offset, 8);
    LittleEndianRoundTrip(8, 8);
    LittleEndianRoundTrip(r.addend, 8);
    hide LittleEndian, Unsigned, EntryBytes, Pow256;
  }

  lemma {:induction false} InfoIsEight(info: nat)
    requires info / 0x1_0000_0000 == 0 && info % 0x1_0000_0000 == 8
    ensures info == 8
  {
  }

  lemma {:induction false} ThreeFields(bytes: seq<Byte>, at: nat)
    requires at + 24 <= |bytes|
    ensures bytes[at..at + 24] == bytes[at..at + 8] + bytes[at + 8..at + 16] + bytes[at + 16..at + 24]
  {
  }

  lemma {:induction false} EntryIsThere(pl: Placement, bytes: seq<Byte>, at: nat) returns (r: Rel)
    requires at + 24 <= |bytes| && RelocWrite(pl, RelocAt(bytes, at)).Some?
    ensures EntryAt(bytes, at, r)
  {
    var a, b, c := bytes[at..at + 8], bytes[at + 8..at + 16], bytes[at + 16..at + 24];
    UnsignedRoundTrip(a);
    UnsignedRoundTrip(b);
    UnsignedRoundTrip(c);
    Pow256Is64Bits();
    InfoIsEight(Unsigned(b));
    ThreeFields(bytes, at);
    hide LittleEndian, Unsigned, Pow256, RelocWrite, RelocAt;
    r := Rel(Unsigned(a), Unsigned(c));
  }

  lemma {:induction false} EntryStores(pl: Placement, bytes: seq<Byte>, at: nat, r: Rel)
    requires EntryAt(bytes, at, r) && RelocWrite(pl, RelocAt(bytes, at)).Some?
    ensures StoreFor(pl, r, RelocWrite(pl, RelocAt(bytes, at)).value)
  {
    EntryIsRead(bytes, at, r);
    hide EntryAt, RelocAt, RelocWrite, StoreFor;
    WriteIsStore(pl, r);
  }

  lemma {:induction false} WriteIsStore(pl: Placement, r: Rel)
    ensures var w := RelocWrite(pl, Reloc(r.offset, 0, 8, r.addend));
      && (w.Some? ==> StoreFor(pl, r, w.value))
      && (Reaches(pl, r) ==> w.Some?)
  {
    hide LittleEndian;
  }

  // ----------------------------------------------------------------- the tables

  lemma {:induction false} TableStores(elf: Elf, pl: Placement, at: nat, rs: seq<Rel>)
    requires TableAt(elf.bytes, at, rs) && TableWrites(elf, pl, at, |rs|).Some?
    ensures StoresFor(pl, rs, TableWrites(elf, pl, at, |rs|).value)
    decreases |rs|
  {
    hide RelocAt, RelocWrite, EntryAt, StoreFor;
    if rs != [] {
      var n := |rs| - 1;
      TableStores(elf, pl, at, rs[..n]);
      assert EntryAt(elf.bytes, at + 24 * n, rs[n]);
      EntryStores(pl, elf.bytes, at + 24 * n, rs[n]);
    }
  }

  lemma {:induction false} EntrySucceeds(pl: Placement, bytes: seq<Byte>, at: nat, r: Rel)
    requires EntryAt(bytes, at, r) && Reaches(pl, r)
    ensures RelocWrite(pl, RelocAt(bytes, at)).Some?
  {
    EntryIsRead(bytes, at, r);
    hide EntryAt, RelocAt, RelocWrite, Reaches;
    WriteIsStore(pl, r);
  }

  lemma {:induction false} TableSucceeds(elf: Elf, pl: Placement, at: nat, rs: seq<Rel>)
    requires TableAt(elf.bytes, at, rs) && forall i :: 0 <= i < |rs| ==> Reaches(pl, rs[i])
    ensures TableWrites(elf, pl, at, |rs|).Some?
    decreases |rs|
  {
    hide RelocAt, RelocWrite, Reaches;
    if rs != [] {
      var n := |rs| - 1;
      TableSucceeds(elf, pl, at, rs[..n]);
      assert EntryAt(elf.bytes, at + 24 * n, rs[n]);
      EntrySucceeds(pl, elf.bytes, at + 24 * n, rs[n]);
    }
  }

  lemma {:induction false} TableIsThere(elf: Elf, pl: Placement, at: nat, n: nat) returns (rs: seq<Rel>)
    requires TableWrites(elf, pl, at, n).Some?
    ensures |rs| == n && TableAt(elf.bytes, at, rs)
    decreases n
  {
    hide RelocAt, RelocWrite, EntryAt;
    rs := [];
    if n > 0 {
      var front := TableIsThere(elf, pl, at, n - 1);
      var r := EntryIsThere(pl, elf.bytes, at + 24 * (n - 1));
      rs := front + [r];
    }
  }

  /** Of a list without repetitions, an entry is the one looked up. */
  lemma {:induction false} LookupIsEntry(tags: seq<Tag>, tag: Tag)
    requires Unique(tags) && !tag.kind.OtherTag?
    ensures Lookup(tags, tag.kind) == Some(tag.value) <==> tag in tags
  {
    if tags != [] {
      var n := |tags| - 1;
      assert tags == tags[..n] + [tags[n]];
      LookupIsEntry(tags[..n], tag);
      if tag in tags[..n] {
        var i :| 0 <= i < n && tags[i] == tag;
        assert tags[n].kind != tag.kind;
      }
    }
  }

  lemma {:induction false} NoTable(h: Header)
    ensures Lookup(h.tags, Rela).None? <==> !HasTable(h)
  {
    LookupFinds(h.tags, Rela);
  }

  lemma {:induction false} DynamicStores(elf: Elf, pl: Placement, h: Header, rs: seq<Rel>)
    requires Asked(elf, pl, h, rs) && DynamicWrites(elf, pl, h).Some?
    ensures StoresFor(pl, rs, DynamicWrites(elf, pl, h).value)
  {
    hide TableAt, StoreFor, Lookup, TableWrites, Unique;
    NoTable(h);
    if HasTable(h) {
      hide HasTable;
      var rela: nat, total: nat :| Tag(Rela, rela) in h.tags && Tag(RelaSize, total) in h.tags
        && pl.least <= rela && |rs| == total / 24 && TableAt(elf.bytes, rela - pl.least, rs);
      LookupIsEntry(h.tags, Tag(Rela, rela));
      LookupIsEntry(h.tags, Tag(RelaSize, total));
      TableStores(elf, pl, rela - pl.least, rs);
    }
  }

  lemma {:induction false} DynamicSucceeds(elf: Elf, pl: Placement, h: Header, rs: seq<Rel>)
    requires Asked(elf, pl, h, rs) && Applicable(pl, h, rs)
    ensures DynamicWrites(elf, pl, h).Some?
  {
    hide TableAt, Lookup, TableWrites, Unique, Reaches;
    NoTable(h);
    if HasTable(h) {
      hide HasTable;
      var rela: nat, total: nat :| Tag(Rela, rela) in h.tags && Tag(RelaSize, total) in h.tags
        && pl.least <= rela && |rs| == total / 24 && TableAt(elf.bytes, rela - pl.least, rs);
      LookupIsEntry(h.tags, Tag(Rela, rela));
      LookupIsEntry(h.tags, Tag(RelaSize, total));
      LookupIsEntry(h.tags, Tag(RelaEnt, 24));
      TableSucceeds(elf, pl, rela - pl.least, rs);
    }
  }

  lemma {:induction false} DynamicIsThere(elf: Elf, pl: Placement, h: Header) returns (rs: seq<Rel>)
    requires DynamicWrites(elf, pl, h).Some?
    ensures Asked(elf, pl, h, rs)
  {
    hide TableAt, Lookup, TableWrites, Unique, HasTable;
    NoTable(h);
    if Lookup(h.tags, Rela).None? {
      rs := [];
    } else {
      var rela, total := Lookup(h.tags, Rela).value, Lookup(h.tags, RelaSize).value;
      LookupIsEntry(h.tags, Tag(Rela, rela));
      LookupIsEntry(h.tags, Tag(RelaSize, total));
      rs := TableIsThere(elf, pl, rela - pl.least, total / 24);
    }
  }

  /** The loader's stores are those the file's tables ask for, entry by entry. */
  lemma {:induction false} StoresAreAsked(elf: Elf, pl: Placement, k: nat, rs: seq<Rel>)
    requires k <= |elf.headers| && AllAsked(elf, pl, k, rs) && AllWrites(elf, pl, k).Some?
    ensures StoresFor(pl, rs, AllWrites(elf, pl, k).value)
    decreases k
  {
    hide Asked, DynamicWrites, StoreFor;
    if k > 0 {
      var h := elf.headers[k - 1];
      if IsDynamic(h) {
        var n: nat :| n <= |rs| && AllAsked(elf, pl, k - 1, rs[..n]) && Asked(elf, pl, h, rs[n..]);
        StoresAreAsked(elf, pl, k - 1, rs[..n]);
        DynamicStores(elf, pl, h, rs[n..]);
        assert rs == rs[..n] + rs[n..];
      } else {
        StoresAreAsked(elf, pl, k - 1, rs);
        assert AllWrites(elf, pl, k).value == AllWrites(elf, pl, k - 1).value + [];
      }
    }
  }

  /** And a file that is loaded has such tables: every entry is a relative
      relocation without a symbol. */
  lemma {:induction false} TablesAreThere(elf: Elf, pl: Placement, k: nat) returns (rs: seq<Rel>)
    requires k <= |elf.headers| && AllWrites(elf, pl, k).Some?
    ensures AllAsked(elf, pl, k, rs)
    decreases k
  {
    hide Asked, DynamicWrites;
    rs := [];
    if k > 0 {
      var h := elf.headers[k - 1];
      rs := TablesAreThere(elf, pl, k - 1);
      if IsDynamic(h) {
        var n := |rs|;
        var back := DynamicIsThere(elf, pl, h);
        var all := rs + back;
        assert all[..n] == rs && all[n..] == back;
        rs := all;
      }
    }
  }
}
