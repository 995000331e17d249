/** The bootloader's frame allocator, which walks the firmware's memory map. */
module BootFrames {
  import opened Regions

  datatype Kind = Conventional | BootServicesCode | BootServicesData | Reserved

  datatype Descriptor = Descriptor(start: nat, pages: nat, kind: Kind) {
    function Length(): nat { pages * PAGE_SIZE }
    function FirstFrame(): int { start / PAGE_SIZE }
    function LastFrame(): int { (start + Length() - 1) / PAGE_SIZE }
    /** What the bootloader itself may allocate from. */
    predicate Usable() { kind.Conventional? }
    /** What the kernel may use once the bootloader has gone. */
    predicate UsableAfterExit() { kind.Conventional? || kind.BootServicesCode? || kind.BootServicesData? }
    predicate HoldsFrame(f: int) { Usable() && FirstFrame() <= f <= LastFrame() }
  }

  predicate SortedDescriptors(ds: seq<Descriptor>) {
    forall i, j :: 0 <= i < j < |ds| ==> ds[i].start <= ds[j].start
  }

  ghost predicate UsableFrame(ds: seq<Descriptor>, f: int) {
    exists i :: 0 <= i < |ds| && ds[i].HoldsFrame(f)
  }

  /** On a descriptor that starts at a page these are the frames that lie in it, if
      it is conventional memory, and otherwise none. */
  lemma {:induction false} HoldsFrameIff(d: Descriptor, f: nat)
    requires d.start % PAGE_SIZE == 0
    ensures d.HoldsFrame(f) <==>
      d.kind.Conventional? && d.start <= f * 4096 && (f + 1) * 4096 <= d.start + d.pages * 4096
  {
    assert (d.start - 1) / PAGE_SIZE == d.start / PAGE_SIZE - 1;
  }

  /** None of the first `n` descriptors has a frame at or after `next`. */
  ghost predicate Exhausted(ds: seq<Descriptor>, n: nat, next: int)
    requires n <= |ds|
  {
    forall i :: 0 <= i < n && ds[i].Usable() ==> ds[i].LastFrame() < next
  }

  /** None of the first `n` descriptors has any frame from `from` on. */
  ghost predicate NoneFrom(ds: seq<Descriptor>, n: nat, from: int)
    requires n <= |ds|
  {
    forall i, g :: 0 <= i < n && from <= g ==> !ds[i].HoldsFrame(g)
  }

  /** `next` is where the search began, or below every descriptor still ahead. */
  ghost predicate NotAhead(ds: seq<Descriptor>, n: nat, from: int, next: int)
    requires n <= |ds|
  {
    next == from || forall j :: n <= j < |ds| ==> next <= ds[j].FirstFrame()
  }

  /** The frame taken from descriptor `k` is the least usable one from `from` on. */
  lemma {:induction false} TakenIsLeast(ds: seq<Descriptor>, k: nat, from: int, next: int, g: int)
    requires k < |ds| && SortedDescriptors(ds)
    requires NoneFrom(ds, k, from) && NotAhead(ds, k, from, next) && from <= g < Max(next, ds[k].FirstFrame())
    ensures !UsableFrame(ds, g)
  {
    forall i | 0 <= i < |ds| ensures !ds[i].HoldsFrame(g) {
      if i >= k {
        assert i > k ==> ds[k].start <= ds[i].start;
        assert ds[k].FirstFrame() <= ds[i].FirstFrame();
      }
    }
  }

  lemma {:induction false} FailedIsNone(ds: seq<Descriptor>, k: nat, from: int, next: int)
    requires k < |ds| && SortedDescriptors(ds)
    requires NoneFrom(ds, k, from) && NotAhead(ds, k, from, next)
    requires ds[k].Usable() && ds[k].LastFrame() < Max(next, ds[k].FirstFrame())
    ensures NoneFrom(ds, k + 1, from) && NotAhead(ds, k + 1, from, Max(next, ds[k].FirstFrame()))
  {
    forall j | k + 1 <= j < |ds| ensures ds[k].FirstFrame() <= ds[j].FirstFrame() {
      assert ds[k].start <= ds[j].start;
    }
  }

  class LinearIncFrameAllocator {
    const original: seq<Descriptor>
    const startFrame: nat
    var position: nat                  // descriptors already taken from the map
    var current: Option<Descriptor>
    var nextFrame: nat
    ghost var handed: seq<nat>         // every frame returned so far

    /** The descriptors left behind hold nothing from `nextFrame` on. */
    ghost predicate Placed()
      reads this
    {
      && position <= |original|
      && (current.Some? ==> position > 0 && current.value == original[position - 1] && current.value.Usable())
      && Exhausted(original, if current.Some? then position - 1 else position, nextFrame)
    }

    ghost predicate Valid()
      reads this
    {
      && Placed()
      && startFrame <= nextFrame
      && (forall k :: 0 <= k < |handed| ==> startFrame <= handed[k] < nextFrame)
      && (forall j, k :: 0 <= j < k < |handed| ==> handed[j] < handed[k])
    }

    constructor (memoryMap: seq<Descriptor>)
      ensures Valid() && original == memoryMap && handed == []
      ensures startFrame == nextFrame == 0x100000 / PAGE_SIZE
    {
      original := memoryMap;
      startFrame := 0x100000 / PAGE_SIZE;
      position := 0;
      current := None;
      nextFrame := 0x100000 / PAGE_SIZE;
      handed := [];
    }

    /** Take the next frame of descriptor `d`, raising `nextFrame` into it. */
    method AllocateFromDescriptor(d: Descriptor) returns (frame: Option<nat>)
      modifies this`nextFrame
      ensures var first := Max(old(nextFrame), d.FirstFrame());
        if first <= d.LastFrame() then frame == Some(first) && nextFrame == first + 1
        else frame == None && nextFrame == first
    {
      if nextFrame < d.FirstFrame() {
        nextFrame := d.FirstFrame();
      }
      if nextFrame <= d.LastFrame() {
        frame := Some(nextFrame);
        nextFrame := nextFrame + 1;
      } else {
        frame := None;
      }
    }

    /** A frame never returned before, from a usable descriptor. On a sorted map
        it is the least usable frame not yet passed, and none is reported only
        when there is no such frame. */
    method AllocateFrame() returns (frame: Option<nat>)
      requires Valid()
      modifies this
      ensures Valid()
      ensures frame.Some? ==>
        old(nextFrame) <= frame.value && nextFrame == frame.value + 1 &&
        UsableFrame(original, frame.value) && handed == old(handed) + [frame.value]
      ensures frame.None? ==> old(nextFrame) <= nextFrame && handed == old(handed)
      ensures SortedDescriptors(original) ==>
        forall g :: old(nextFrame) <= g && (frame.Some? ==> g < frame.value) ==> !UsableFrame(original, g)
    {
      ghost var before := nextFrame;
      frame := None;
      if current.Some? {
        frame := TakeFromCurrent();
      }
      if frame.None? {
        frame := WalkMap(before);
      }
      if frame.Some? {
        handed := handed + [frame.value];
      }
    }

    method TakeFromCurrent() returns (frame: Option<nat>)
      requires Placed() && current.Some?
      modifies this`nextFrame, this`current
      ensures Placed()
      ensures frame.Some? ==>
        old(nextFrame) <= frame.value && nextFrame == frame.value + 1 && UsableFrame(original, frame.value)
      ensures frame.Some? && SortedDescriptors(original) ==>
        forall g :: old(nextFrame) <= g < frame.value ==> !UsableFrame(original, g)
      ensures frame.None? ==> current.None? && old(nextFrame) <= nextFrame
      ensures frame.None? && SortedDescriptors(original) ==>
        NoneFrom(original, position, old(nextFrame)) && NotAhead(original, position, old(nextFrame), nextFrame)
    {
      ghost var before := nextFrame;
      frame := AllocateFromDescriptor(current.value);
      if frame.Some? {
        assert original[position - 1].HoldsFrame(frame.value);
        LeastOf(position - 1, before, before, frame.value);
      } else {
        current := None;
        if SortedDescriptors(original) { FailedIsNone(original, position - 1, before, before); }
      }
    }

    /** The search over the descriptors not yet taken. */
    method WalkMap(ghost before: nat) returns (frame: Option<nat>)
      requires Placed() && current.None? && before <= nextFrame
      requires SortedDescriptors(original) ==>
        NoneFrom(original, position, before) && NotAhead(original, position, before, nextFrame)
      modifies this`nextFrame, this`current, this`position
      ensures Placed() && before <= nextFrame
      ensures frame.Some? ==>
        before <= frame.value && nextFrame == frame.value + 1 && UsableFrame(original, frame.value)
      ensures frame.None? ==> position == |original|
      ensures SortedDescriptors(original) ==>
        forall g :: before <= g && (frame.Some? ==> g < frame.value) ==> !UsableFrame(original, g)
    {
      while position < |original|
        invariant Placed() && current.None? && before <= nextFrame
        invariant SortedDescriptors(original) ==>
          NoneFrom(original, position, before) && NotAhead(original, position, before, nextFrame)
        decreases |original| - position
      {
        var d := original[position];
        ghost var next := nextFrame;
        position := position + 1;
        if !d.Usable() { continue; }
        frame := AllocateFromDescriptor(d);
        if frame.Some? {
          assert original[position - 1].HoldsFrame(frame.value);
          current := Some(d);
          LeastOf(position - 1, before, next, frame.value);
          return;
        }
        if SortedDescriptors(original) { FailedIsNone(original, position - 1, before, next); }
      }
      frame := None;
    }

    lemma {:induction false} LeastOf(k: nat, from: int, next: int, frame: int)
      requires k < |original| && frame == Max(next, original[k].FirstFrame())
      requires SortedDescriptors(original) ==> NoneFrom(original, k, from) && NotAhead(original, k, from, next)
      ensures SortedDescriptors(original) ==> forall g :: from <= g < frame ==> !UsableFrame(original, g)
    {
      if SortedDescriptors(original) {
        forall g | from <= g < frame ensures !UsableFrame(original, g) {
          TakenIsLeast(original, k, from, next, g);
        }
      }
    }

    /** The region of all memory allocated so far: it holds every byte of every
        frame ever returned. */
    method AllocatedRegion() returns (r: Region)
      requires Valid()
      ensures r == Allocated()
      ensures forall k, a :: 0 <= k < |handed| && handed[k] * PAGE_SIZE <= a < (handed[k] + 1) * PAGE_SIZE ==>
        r.Holds(a)
    {
      r := Region(startFrame * PAGE_SIZE, nextFrame * PAGE_SIZE - startFrame * PAGE_SIZE);
    }

    ghost function Allocated(): (r: Region)
      requires Valid()
      reads this
      ensures forall k, a :: 0 <= k < |handed| && handed[k] * PAGE_SIZE <= a < (handed[k] + 1) * PAGE_SIZE ==>
        r.Holds(a)
    {
      Region(startFrame * PAGE_SIZE, (nextFrame - startFrame) * PAGE_SIZE)
    }

    /** The largest address any descriptor reaches. */
    method MaxPhysAddr() returns (m: nat)
      requires |original| >= 1
      ensures exists i :: 0 <= i < |original| && m == original[i].start + original[i].Length()
      ensures forall i :: 0 <= i < |original| ==> original[i].start + original[i].Length() <= m
    {
      m := original[0].start + original[0].Length();
      for n := 1 to |original|
        invariant exists i :: 0 <= i < |original| && m == original[i].start + original[i].Length()
        invariant forall i :: 0 <= i < n ==> original[i].start + original[i].Length() <= m
      {
        m := Max(m, original[n].start + original[n].Length());
      }
    }
  }
}
