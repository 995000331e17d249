/** The top-level page table entries the bootloader takes, in the order it takes
    them, and the ones the kernel expects. */
module BootSlots {
  import opened Regions
  import opened PageSlots

  const SLOT_SIZE: nat := 0x80_0000_0000
  const KERNEL_SLOT: nat := 511
  const BOOTSTRAP_SLOT: nat := 510
  const STACK_SLOT: nat := 509
  const FRAMEBUFFER_SLOT: nat := 508
  const ARGUMENT_SLOT: nat := 507
  const PHYSICAL_SLOT: nat := 0
  const STACK_SIZE: nat := 4096 * 128 + 4096   // with a page to guard it
  const KERNEL_BASE: nat := 0xffff_ff80_0000_0000

  /** Look for room from the end and insist on the slot; `None` is a panic. */
  function Place(t: Option<Table>, size: nat, slot: nat): (r: Option<Table>)
    requires t.Some? ==> Shaped(t.value)
    ensures r.Some? ==> Shaped(r.value)
  {
    if t.None? then None else
      var (u, found) := Find(t.value, size, SLOT_SIZE, true);
      FindIsSound(t.value, size, SLOT_SIZE, true);
      if found.Some? && found.value.0 == slot then Some(u) else None
  }

  /** Loading the kernel marks the addresses of each of its segments again. */
  function MarkSegments(t: Table, segments: seq<Range>): (r: Table)
    requires Shaped(t) && forall i :: 0 <= i < |segments| ==> segments[i].end >= 1
    ensures Shaped(r)
    decreases |segments|
  {
    if segments == [] then t
    else MarkSegments(MarkAddresses(t, SLOT_SIZE, segments[0].start, segments[0].end), segments[1..])
  }

  function Loaded(kernel: nat, segments: seq<Range>): (r: Option<Table>)
    requires forall i :: 0 <= i < |segments| ==> segments[i].end >= 1
    ensures r.Some? ==> Shaped(r.value)
  {
    var t := Place(Some(Unmark(Fresh(), PHYSICAL_SLOT)), kernel, KERNEL_SLOT);
    if t.None? then None else Some(MarkSegments(t.value, segments))
  }

  /** All of it: physical memory, kernel, bootstrap image, stack, framebuffer if
      there is one, kernel argument. */
  function Boot(kernel: nat, segments: seq<Range>, bootstrap: nat, framebuffer: Option<nat>,
                argument: nat): (r: Option<Table>)
    requires forall i :: 0 <= i < |segments| ==> segments[i].end >= 1
  {
    var t := Place(Place(Loaded(kernel, segments), bootstrap, BOOTSTRAP_SLOT), STACK_SIZE, STACK_SLOT);
    Place(if framebuffer.Some? then Place(t, framebuffer.value, FRAMEBUFFER_SLOT) else t, argument, ARGUMENT_SLOT)
  }

  // ------------------------------------------------------------------- proofs

  /** Exactly the entries from `k` up are used. */
  function Top(k: nat): Table
    requires 1 <= k <= ENTRIES
  {
    Table(seq(ENTRIES, i => i >= k), 0, k - 1)
  }

  predicate Fits(size: nat) { 0 < size <= SLOT_SIZE }

  lemma {:induction false} MarkTop(k: nat)
    requires 2 <= k <= ENTRIES
    ensures Mark(Top(k), k - 1) == Top(k - 1) && Exact(Top(k))
  {
    var u := Top(k).used[k - 1 := true];
    assert u == Top(k - 1).used;
    if k >= 2 { assert LastFree(u, k - 1) == LastFree(u, k - 2) == k - 2; }
  }

  /** Fitting sizes take the next slot down. */
  lemma {:induction false} PlaceTop(k: nat, size: nat)
    requires 2 <= k <= ENTRIES && Fits(size)
    ensures forall slot: nat :: Place(Some(Top(k)), size, slot) == if slot == k - 1 then Some(Top(k - 1)) else None
  {
    MarkTop(k);
    hide Find, Top, Mark, Exact;
    OneEntryIsFound(Top(k), size, SLOT_SIZE, true);
  }

  /** Sizes that do not fit fail, or take nothing. */
  lemma {:induction false} MisfitTop(k: nat, size: nat)
    requires 2 <= k <= ENTRIES && !Fits(size) && size + SLOT_SIZE <= U64_LIMIT
    ensures Place(Some(Top(k)), size, k - 1) in {None, Some(Top(k))}
    ensures k == ENTRIES ==> Place(Some(Top(k)), size, k - 1) == None
  {
    RequiredCovers(size, SLOT_SIZE);
    var t, n := Top(k), Required(size, SLOT_SIZE);
    hide Required, Top;
    if n >= 2 && n < ENTRIES && Search(t.used, k - 1, n, true).Some? {
      SearchIsFree(t.used, k - 1, n, true);
    }
  }

  lemma {:induction false} SegmentsChangeNothing(t: Table, segments: seq<Range>)
    requires Shaped(t) && t.used[KERNEL_SLOT]
    requires forall i :: 0 <= i < |segments| ==>
      KERNEL_BASE <= segments[i].start < segments[i].end <= KERNEL_BASE + SLOT_SIZE
    ensures MarkSegments(t, segments) == t
    decreases |segments|
  {
    if segments != [] {
      var s := segments[0];
      assert s.start / SLOT_SIZE % ENTRIES == KERNEL_SLOT && (s.end - 1) / SLOT_SIZE % ENTRIES == KERNEL_SLOT;
      assert MarkUp(t, KERNEL_SLOT, KERNEL_SLOT + 1) == t;
      SegmentsChangeNothing(t, segments[1..]);
    }
  }

  ghost predicate InKernel(segments: seq<Range>, kernel: nat) {
    forall i :: 0 <= i < |segments| ==> KERNEL_BASE <= segments[i].start < segments[i].end <= KERNEL_BASE + kernel
  }

  lemma {:induction false} LoadedIs(kernel: nat, segments: seq<Range>)
    requires kernel + SLOT_SIZE <= U64_LIMIT && InKernel(segments, kernel)
    ensures Loaded(kernel, segments) == if Fits(kernel) then Some(Top(KERNEL_SLOT)) else None
  {
    assert Unmark(Fresh(), PHYSICAL_SLOT) == Top(ENTRIES);
    hide Place, MarkSegments;
    if Fits(kernel) {
      PlaceTop(ENTRIES, kernel);
      SegmentsChangeNothing(Top(KERNEL_SLOT), segments);
    } else {
      MisfitTop(ENTRIES, kernel);
    }
  }

  /** A misfit in one place makes the next place fail. */
  lemma {:induction false} MisfitFails(k: nat, size: nat, next: nat)
    requires 3 <= k <= ENTRIES && !Fits(size) && size + SLOT_SIZE <= U64_LIMIT && Fits(next)
    ensures Place(Place(Some(Top(k)), size, k - 1), next, k - 2) == None
  {
    hide Top, Find;
    MisfitTop(k, size);
    PlaceTop(k, next);
  }

  lemma {:induction false} UpToStack(kernel: nat, segments: seq<Range>, bootstrap: nat)
    requires kernel + SLOT_SIZE <= U64_LIMIT && bootstrap + SLOT_SIZE <= U64_LIMIT && InKernel(segments, kernel)
    ensures Place(Place(Loaded(kernel, segments), bootstrap, BOOTSTRAP_SLOT), STACK_SIZE, STACK_SLOT)
      == if Fits(kernel) && Fits(bootstrap) then Some(Top(STACK_SLOT)) else None
  {
    LoadedIs(kernel, segments);
    hide Loaded, Top, Find;
    if Fits(kernel) {
      if Fits(bootstrap) {
        PlaceTop(KERNEL_SLOT, bootstrap);
        PlaceTop(BOOTSTRAP_SLOT, STACK_SIZE);
      } else {
        MisfitFails(KERNEL_SLOT, bootstrap, STACK_SIZE);
      }
    }
  }

  /** Every slot is the expected one exactly if there is a framebuffer and each of
      the three images is nonempty and no larger than a slot; entries 507 to 511
      are then taken and no others. Without a framebuffer the argument ends up in
      the framebuffer's slot. */
  lemma {:induction false} BootSlotsAgree(kernel: nat, segments: seq<Range>, bootstrap: nat, framebuffer: Option<nat>,
                                          argument: nat)
    requires kernel + SLOT_SIZE <= U64_LIMIT && bootstrap + SLOT_SIZE <= U64_LIMIT && InKernel(segments, kernel)
    requires framebuffer.Some? ==> framebuffer.value + SLOT_SIZE <= U64_LIMIT
    requires Fits(argument)
    ensures Boot(kernel, segments, bootstrap, framebuffer, argument) ==
      if Fits(kernel) && Fits(bootstrap) && framebuffer.Some? && Fits(framebuffer.value)
      then Some(Top(ARGUMENT_SLOT)) else None
  {
    UpToStack(kernel, segments, bootstrap);
    hide Loaded, Top, Find;
    if Fits(kernel) && Fits(bootstrap) {
      if framebuffer.None? {
        PlaceTop(STACK_SLOT, argument);
      } else if Fits(framebuffer.value) {
        PlaceTop(STACK_SLOT, framebuffer.value);
        PlaceTop(FRAMEBUFFER_SLOT, argument);
      } else {
        MisfitFails(STACK_SLOT, framebuffer.value, argument);
      }
    }
  }

  /** Images of one page each, but no framebuffer: the argument is not found in its
      slot. */
  lemma {:induction false} BootWithoutFramebuffer()
    ensures Boot(0x1000, [], 0x1000, None, 0x1000) == None
    ensures Boot(0x1000, [], 0x1000, Some(0x1000), 0x1000) == Some(Top(ARGUMENT_SLOT))
  {
    hide Boot, Top;
    BootSlotsAgree(0x1000, [], 0x1000, None, 0x1000);
    BootSlotsAgree(0x1000, [], 0x1000, Some(0x1000), 0x1000);
  }
}
