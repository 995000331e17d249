/** The bootloader's bookkeeping of which entries of a page table are taken, with
    two hints that bound the free ones. */
module PageSlots {
  import opened Regions

  const ENTRIES: nat := 512

  // ---------------------------------------------------------------- the table

  datatype Table = Table(used: seq<bool>, first: nat, last: nat)

  predicate Shaped(t: Table) { |t.used| == ENTRIES && t.first <= ENTRIES && t.last < ENTRIES }

  function Fresh(): Table { Table(seq(ENTRIES, _ => false), 0, ENTRIES - 1) }

  /** The first free entry from `k` on, the end if there is none. */
  function FirstFree(used: seq<bool>, k: nat): (f: nat)
    requires k <= |used|
    ensures k <= f <= |used|
    decreases |used| - k
  {
    if k < |used| && used[k] then FirstFree(used, k + 1) else k
  }

  /** The last free entry up to `k`, zero if there is none. */
  function LastFree(used: seq<bool>, k: nat): (f: nat)
    requires k < |used|
    ensures f <= k
  {
    if k > 0 && used[k] then LastFree(used, k - 1) else k
  }

  function Mark(t: Table, i: nat): (r: Table)
    requires Shaped(t) && i < ENTRIES
    ensures Shaped(r)
  {
    if t.used[i] then t else
      var u := t.used[i := true];
      if t.first == i then Table(u, FirstFree(u, i), t.last)
      else if t.last == i then Table(u, t.first, LastFree(u, i))
      else Table(u, t.first, t.last)
  }

  function Unmark(t: Table, i: nat): (r: Table)
    requires Shaped(t) && i < ENTRIES
    ensures Shaped(r)
  {
    var u := t.used[i := false];
    if t.first > i then Table(u, i, t.last)
    else if t.last < i then Table(u, t.first, i)
    else Table(u, t.first, t.last)
  }

  lemma {:induction false} FirstFreeIs(used: seq<bool>, k: nat)
    requires k <= |used|
    ensures var f := FirstFree(used, k);
      k <= f <= |used| && (f < |used| ==> !used[f]) && forall j :: k <= j < f ==> used[j]
    decreases |used| - k
  {
    if k < |used| && used[k] { FirstFreeIs(used, k + 1); }
  }

  lemma {:induction false} LastFreeIs(used: seq<bool>, k: nat)
    requires k < |used|
    ensures var f := LastFree(used, k);
      f <= k && (f > 0 ==> !used[f]) && forall j :: f < j <= k ==> used[j]
  {
    if k > 0 && used[k] { LastFreeIs(used, k - 1); }
  }

  lemma {:induction false} MarkIs(t: Table, i: nat)
    requires Shaped(t) && i < ENTRIES
    ensures Shaped(Mark(t, i)) && Mark(t, i).used == t.used[i := true]
  {
    FirstFreeIs(t.used[i := true], i);
    LastFreeIs(t.used[i := true], i);
    if t.used[i] { assert t.used[i := true] == t.used; }
  }

  // ---------------------------------------------------------------- the hints

  predicate Free(t: Table, i: nat) { i < |t.used| && !t.used[i] }

  /** The hints are the least and the greatest free entry. */
  ghost predicate Exact(t: Table) {
    && Shaped(t) && Free(t, t.first) && Free(t, t.last)
    && (forall j: nat :: Free(t, j) ==> t.first <= j <= t.last)
  }

  lemma {:induction false} MarkKeepsExact(t: Table, i: nat, j: nat)
    requires Exact(t) && i < ENTRIES && Free(Mark(t, i), j)
    ensures Exact(Mark(t, i))
  {
    MarkIs(t, i);
    var u := t.used[i := true];
    FirstFreeIs(u, i);
    LastFreeIs(u, i);
    assert Free(t, j) && j != i;
    hide FirstFree, LastFree;
    forall k: nat | Free(Mark(t, i), k) ensures Mark(t, i).first <= k <= Mark(t, i).last {
      assert Free(t, k) && k != i;
    }
    if i == t.last && i != t.first { assert LastFree(u, i) >= t.first; }
  }

  lemma {:induction false} UnmarkKeepsExact(t: Table, i: nat)
    requires Exact(t) && i < ENTRIES
    ensures Exact(Unmark(t, i))
  {
    forall k: nat | Free(Unmark(t, i), k) ensures Unmark(t, i).first <= k <= Unmark(t, i).last {
      if k != i { assert Free(t, k); }
    }
  }

  /** Filling the table leaves the upper hint behind: freeing an entry then makes
      both hints right only for the entry that was taken last, and an entry above
      that one is not found again. */
  lemma {:induction false} FillingLosesTheHint(t: Table, k: nat, i: nat)
    requires Exact(t) && t.first == t.last == k && i < ENTRIES
    ensures var r := Unmark(Mark(t, k), i);
      && Free(r, i) && (Exact(r) <==> i == k)
      && (Find(r, 1, 4096, false).1.None? <==> i > k)
  {
    MarkIs(t, k);
    FirstFreeIs(t.used[k := true], k);
    var m := Mark(t, k);
    forall j: nat | j < ENTRIES ensures m.used[j] {
      if j != k { assert !Free(t, j); }
    }
    hide FirstFree, LastFree;
    assert m.first == ENTRIES && m.last == k;
    var r := Unmark(m, i);
    assert forall j: nat :: Free(r, j) <==> j == i;
    hide Search;
  }

  // --------------------------------------------------------------- many entries

  function MarkUp(t: Table, lo: nat, hi: nat): (r: Table)
    requires Shaped(t) && lo <= hi <= ENTRIES
    ensures Shaped(r)
    decreases hi - lo
  {
    if lo == hi then t else MarkUp(Mark(t, lo), lo + 1, hi)
  }

  function MarkDown(t: Table, lo: nat, hi: nat): (r: Table)
    requires Shaped(t) && lo <= hi <= ENTRIES
    ensures Shaped(r)
    decreases hi - lo
  {
    if lo == hi then t else MarkDown(Mark(t, hi - 1), lo, hi - 1)
  }

  /** Exactly the entries of the span have become used. */
  ghost predicate Taken(t: Table, r: Table, lo: nat, hi: nat) {
    && Shaped(t) && Shaped(r)
    && forall j :: 0 <= j < ENTRIES ==> r.used[j] == (lo <= j < hi || t.used[j])
  }

  lemma {:induction false} MarkUpTakes(t: Table, lo: nat, hi: nat)
    requires Shaped(t) && lo <= hi <= ENTRIES
    ensures Taken(t, MarkUp(t, lo, hi), lo, hi)
    ensures Exact(t) && (exists j: nat :: Free(MarkUp(t, lo, hi), j)) ==> Exact(MarkUp(t, lo, hi))
    decreases hi - lo
  {
    hide Mark, Exact;
    if lo < hi {
      MarkIs(t, lo);
      MarkUpTakes(Mark(t, lo), lo + 1, hi);
      if j: nat :| Exact(t) && Free(MarkUp(t, lo, hi), j) {
        MarkKeepsExact(t, lo, j);
      }
    }
  }

  lemma {:induction false} MarkDownTakes(t: Table, lo: nat, hi: nat)
    requires Shaped(t) && lo <= hi <= ENTRIES
    ensures Taken(t, MarkDown(t, lo, hi), lo, hi)
    ensures Exact(t) && (exists j: nat :: Free(MarkDown(t, lo, hi), j)) ==> Exact(MarkDown(t, lo, hi))
    decreases hi - lo
  {
    hide Mark, Exact;
    if lo < hi {
      MarkIs(t, hi - 1);
      MarkDownTakes(Mark(t, hi - 1), lo, hi - 1);
      if j: nat :| Exact(t) && Free(MarkDown(t, lo, hi), j) {
        MarkKeepsExact(t, hi - 1, j);
      }
    }
  }

  /** The entries for the addresses from `start` to just below `end`. */
  function MarkAddresses(t: Table, each: nat, start: nat, end: nat): (r: Table)
    requires Shaped(t) && each > 0 && end >= 1
    ensures Shaped(r)
  {
    var lo, hi := start / each % ENTRIES, (end - 1) / each % ENTRIES;
    if lo <= hi then MarkUp(t, lo, hi + 1) else t
  }

  lemma {:induction false} Times(q: nat, j: nat, each: nat)
    requires each > 0
    ensures q <= j ==> q * each <= j * each
    ensures q < j ==> q * each + each <= j * each
  {
    if q < j {
      var d := j - q - 1;
      assert j * each == q * each + each + d * each;
    }
  }

  /** Which entry an address is in. */
  lemma {:induction false} EntryOf(a: nat, each: nat, j: nat)
    requires each > 0
    ensures a / each <= j <==> a < j * each + each
    ensures j <= a / each <==> j * each <= a
  {
    var q := a / each;
    assert q * each <= a < q * each + each;
    if q <= j { Times(q, j, each); }
    if j < q { Times(j, q, each); }
    if q < j { Times(q, j, each); }
  }

  lemma {:induction false} SpanOf(each: nat, start: nat, end: nat)
    requires each > 0 && start < end <= ENTRIES * each
    ensures start / each <= (end - 1) / each < ENTRIES
  {
    EntryOf(end - 1, each, ENTRIES - 1);
    EntryOf(start, each, (end - 1) / each);
    EntryOf(end - 1, each, (end - 1) / each);
    assert (ENTRIES - 1) * each + each == ENTRIES * each;
  }

  lemma {:induction false} MarkAddressesIs(t: Table, each: nat, start: nat, end: nat)
    requires Shaped(t) && each > 0 && start < end && start / each <= (end - 1) / each < ENTRIES
    ensures MarkAddresses(t, each, start, end) == MarkUp(t, start / each, (end - 1) / each + 1)
  {
    hide MarkUp;
  }

  /** The entries marked for a range of addresses are those with an address in it. */
  lemma {:induction false} AddressesAreTaken(t: Table, each: nat, start: nat, end: nat, j: nat)
    requires Shaped(t) && each > 0 && start < end <= ENTRIES * each && j < ENTRIES
    ensures MarkAddresses(t, each, start, end).used[j] <==>
      t.used[j] || (start < j * each + each && j * each < end)
  {
    hide MarkAddresses, MarkUp;
    SpanOf(each, start, end);
    MarkAddressesIs(t, each, start, end);
    MarkUpTakes(t, start / each, (end - 1) / each + 1);
    EntryOf(start, each, j);
    EntryOf(end - 1, each, j);
  }

  // ----------------------------------------------------------------- searching

  predicate AllFree(used: seq<bool>, lo: nat, hi: nat) {
    hi <= |used| && forall j :: lo <= j < hi ==> !used[j]
  }

  /** The positions at which the search looks at all. */
  predicate InReach(curr: nat, n: nat) { n <= curr < ENTRIES - n - 1 }

  /** Where the search starting at `curr` stops with a free span, if anywhere. */
  function Search(used: seq<bool>, curr: nat, n: nat, reverse: bool): Option<nat>
    requires |used| == ENTRIES && n < ENTRIES
    decreases if reverse then curr else ENTRIES - curr
  {
    if !InReach(curr, n) then None
    else if !used[curr] && (if reverse then AllFree(used, curr - n, curr) else AllFree(used, curr, curr + n))
    then Some(curr)
    else if !reverse then Search(used, curr + 1, n, reverse)
    else if curr == 0 then None
    else Search(used, curr - 1, n, reverse)
  }

  function Required(size: nat, each: nat): nat
    requires each > 0
  {
    (size + each - 1) % U64_LIMIT / each
  }

  /** Free entries spanning `size` bytes at `each` per entry, marked as used. The
      count is compared in sixteen bits. From 512 entries on the upper bound of the
      search wraps around, and the lower one is out of reach. */
  function Find(t: Table, size: nat, each: nat, reverse: bool): (r: (Table, Option<(nat, nat)>))
    requires Shaped(t) && each > 0
  {
    var n := Required(size, each);
    var curr := if reverse then t.last else t.first;
    if t.last - t.first + 1 < n % 0x1_0000 then (t, None)
    else if n == 1 then (if t.used[curr] then (t, None) else (Mark(t, curr), Some((curr, 1))))
    else if n >= ENTRIES then (t, None)
    else match Search(t.used, curr, n, reverse)
      case None => (t, None)
      case Some(c) =>
        SearchIsFree(t.used, curr, n, reverse);
        if reverse then (MarkDown(t, c - n, c), Some((c - n, n))) else (MarkUp(t, c, c + n), Some((c, n)))
  }

  lemma {:induction false} SearchIsFree(used: seq<bool>, curr: nat, n: nat, reverse: bool)
    requires |used| == ENTRIES && n < ENTRIES && Search(used, curr, n, reverse).Some?
    ensures var c := Search(used, curr, n, reverse).value;
      && InReach(c, n) && !used[c] && c + n <= ENTRIES && n <= c
      && (if reverse then c <= curr && AllFree(used, c - n, c) else curr <= c && AllFree(used, c, c + n))
    decreases if reverse then curr else ENTRIES - curr
  {
    var free := if reverse then AllFree(used, curr - n, curr) else AllFree(used, curr, curr + n);
    if InReach(curr, n) && !(!used[curr] && free) {
      if !reverse { SearchIsFree(used, curr + 1, n, reverse); }
      else if curr > 0 { SearchIsFree(used, curr - 1, n, reverse); }
    }
  }

  /** What is found was free, is used now, is as long as promised, and nothing
      else has changed; finding nothing changes nothing. True of any hints. */
  lemma {:induction false} FindIsSound(t: Table, size: nat, each: nat, reverse: bool)
    requires Shaped(t) && each > 0
    ensures var (r, found) := Find(t, size, each, reverse);
      match found
      case None => r == t
      case Some((i, n)) =>
        && i + n <= ENTRIES && AllFree(t.used, i, i + n) && Taken(t, r, i, i + n)
        && n == Required(size, each)
  {
    var n, curr := Required(size, each), if reverse then t.last else t.first;
    hide Required, Mark, MarkUp, MarkDown, Search, AllFree, InReach;
    if t.last - t.first + 1 < n % 0x1_0000 || n >= ENTRIES {
    } else if n == 1 {
      if !t.used[curr] { MarkIs(t, curr); }
    } else if Search(t.used, curr, n, reverse).Some? {
      SearchIsFree(t.used, curr, n, reverse);
      var c := Search(t.used, curr, n, reverse).value;
      if reverse { MarkDownTakes(t, c - n, c); } else { MarkUpTakes(t, c, c + n); }
    }
  }

  /** The entries found span the bytes asked for, with less than one to spare,
      unless the sum forming their number wraps around. */
  lemma {:induction false} FoundSpans(t: Table, size: nat, each: nat, reverse: bool)
    requires Shaped(t) && each > 0 && size + each <= U64_LIMIT && Find(t, size, each, reverse).1.Some?
    ensures var n := Find(t, size, each, reverse).1.value.1;
      size <= n * each < size + each
  {
    hide Find, Required;
    FindIsSound(t, size, each, reverse);
    RequiredCovers(size, each);
  }

  lemma {:induction false} RequiredCovers(size: nat, each: nat)
    requires each > 0
    ensures size + each <= U64_LIMIT ==> size <= Required(size, each) * each < size + each
    ensures 0 < size <= each && size + each <= U64_LIMIT ==> Required(size, each) == 1
  {
    if size + each <= U64_LIMIT {
      var x := size + each - 1;
      assert x % U64_LIMIT == x;
      assert x == x / each * each + x % each;
      if 0 < size <= each { DivideOnce(x, each); }
    }
  }

  lemma {:induction false} DivideOnce(x: nat, each: nat)
    requires 0 < each <= x < 2 * each
    ensures x / each == 1
  {
    var q := x / each;
    assert x == each * q + x % each;
    Products(each, q);
  }

  lemma {:induction false} Products(a: nat, q: nat)
    ensures q >= 2 ==> a * q >= 2 * a
    ensures q == 0 ==> a * q == 0
  {
    if q >= 2 { assert a * q == 2 * a + a * (q - 2); }
  }

  lemma {:induction false} FindKeepsExact(t: Table, size: nat, each: nat, reverse: bool, j: nat)
    requires Exact(t) && each > 0 && Free(Find(t, size, each, reverse).0, j)
    ensures Exact(Find(t, size, each, reverse).0)
  {
    var n, curr := Required(size, each), if reverse then t.last else t.first;
    hide Required, Mark, MarkUp, MarkDown, Search, AllFree, InReach, Taken;
    if t.last - t.first + 1 < n % 0x1_0000 || n >= ENTRIES {
    } else if n == 1 {
      MarkKeepsExact(t, curr, j);
    } else if Search(t.used, curr, n, reverse).Some? {
      SearchIsFree(t.used, curr, n, reverse);
      var c := Search(t.used, curr, n, reverse).value;
      if reverse { MarkDownTakes(t, c - n, c); } else { MarkUpTakes(t, c, c + n); }
    }
  }

  /** With exact hints a single entry is always found: the least, or the greatest. */
  lemma {:induction false} OneEntryIsFound(t: Table, size: nat, each: nat, reverse: bool)
    requires Exact(t) && 0 < size <= each && size + each <= U64_LIMIT
    ensures var i := if reverse then t.last else t.first;
      Find(t, size, each, reverse) == (Mark(t, i), Some((i, 1)))
  {
    RequiredCovers(size, each);
    assert t.first <= t.last;
    hide Required;
  }

  /** The search stops at the first place where it can: no place it passed over
      would have done. */
  lemma {:induction false} SearchIsNearest(used: seq<bool>, curr: nat, n: nat, reverse: bool, w: nat)
    requires |used| == ENTRIES && n < ENTRIES && InReach(curr, n) && InReach(w, n) && !used[w]
    requires if reverse then w <= curr && AllFree(used, w - n, w) else curr <= w && AllFree(used, w, w + n)
    ensures var found := Search(used, curr, n, reverse);
      found.Some? && if reverse then w <= found.value else found.value <= w
    decreases if reverse then curr else ENTRIES - curr
  {
    if !(!used[curr] && (if reverse then AllFree(used, curr - n, curr) else AllFree(used, curr, curr + n))) {
      assert w != curr;
      SearchIsNearest(used, if reverse then curr - 1 else curr + 1, n, reverse, w);
    }
  }

  predicate FreeSpan(t: Table, w: nat, n: nat) { AllFree(t.used, w, w + n) }

  /** From the front several entries at once are found exactly if the first free
      entry is far enough from both ends of the table and a free span starts above
      it, short of the end. */
  lemma {:induction false} SpanFoundForward(t: Table, size: nat, each: nat)
    requires Exact(t) && each > 0 && 2 <= Required(size, each)
    ensures var n := Required(size, each);
      Find(t, size, each, false).1.Some? <==>
      n <= t.first && exists w: nat :: t.first <= w < ENTRIES - n - 1 && FreeSpan(t, w, n)
  {
    var n := Required(size, each);
    hide Required;
    if n < ENTRIES {
      if Search(t.used, t.first, n, false).Some? {
        SearchIsFree(t.used, t.first, n, false);
        SearchStarts(t.used, t.first, n, false);
        assert FreeSpan(t, Search(t.used, t.first, n, false).value, n);
      }
      if w: nat :| n <= t.first <= w < ENTRIES - n - 1 && FreeSpan(t, w, n) {
        assert Free(t, w) && Free(t, w + n - 1);
        SearchIsNearest(t.used, t.first, n, false, w);
      }
    }
  }

  /** From the end, where every caller starts, exactly if the last free entry is far
      enough from both ends and a free span lies below a free entry up to it. */
  lemma {:induction false} SpanFoundReverse(t: Table, size: nat, each: nat)
    requires Exact(t) && each > 0 && 2 <= Required(size, each)
    ensures var n := Required(size, each);
      Find(t, size, each, true).1.Some? <==>
      n <= t.last < ENTRIES - n - 1 && exists w: nat :: n <= w <= t.last && Free(t, w) && FreeSpan(t, w - n, n)
  {
    var n := Required(size, each);
    FindReverseIs(t, size, each);
    hide Required, Search, Find;
    if n < ENTRIES && Search(t.used, t.last, n, true).Some? {
      SearchIsFree(t.used, t.last, n, true);
      SearchStarts(t.used, t.last, n, true);
      var w := Search(t.used, t.last, n, true).value;
      assert Free(t, w) && FreeSpan(t, w - n, n);
    }
    if n <= t.last < ENTRIES - n - 1 {
      if w: nat :| n <= w <= t.last && Free(t, w) && FreeSpan(t, w - n, n) {
        assert Free(t, w - n);
        SearchIsNearest(t.used, t.last, n, true, w);
      }
    }
  }

  /** The early comparison with the hints refuses nothing the search would find. */
  lemma {:induction false} FindReverseIs(t: Table, size: nat, each: nat)
    requires Exact(t) && each > 0 && 2 <= Required(size, each)
    ensures var n := Required(size, each);
      Find(t, size, each, true).1.Some? <==> n < ENTRIES && Search(t.used, t.last, n, true).Some?
  {
    var n := Required(size, each);
    hide Required, Search;
    if n < ENTRIES && Search(t.used, t.last, n, true).Some? {
      SearchIsFree(t.used, t.last, n, true);
      assert Free(t, Search(t.used, t.last, n, true).value - n);
    }
  }

  /** Whether a span of several entries is found, from either end: free spans
      elsewhere are missed. */
  lemma {:induction false} SpanIsFoundIff(t: Table, size: nat, each: nat, reverse: bool)
    requires Exact(t) && each > 0 && 2 <= Required(size, each)
    ensures var n := Required(size, each);
      Find(t, size, each, reverse).1.Some? <==>
      if reverse then
        n <= t.last < ENTRIES - n - 1 && exists w: nat :: n <= w <= t.last && Free(t, w) && FreeSpan(t, w - n, n)
      else
        n <= t.first && exists w: nat :: t.first <= w < ENTRIES - n - 1 && FreeSpan(t, w, n)
  {
    hide Required, Find, FreeSpan;
    if reverse { SpanFoundReverse(t, size, each); } else { SpanFoundForward(t, size, each); }
  }

  lemma {:induction false} SearchStarts(used: seq<bool>, curr: nat, n: nat, reverse: bool)
    requires |used| == ENTRIES && n < ENTRIES && Search(used, curr, n, reverse).Some?
    ensures InReach(curr, n)
  {
  }

  /** So an empty table has no room for two entries, from either end. */
  lemma {:induction false} EmptyTableRefusesSpans(size: nat, each: nat, reverse: bool)
    requires each > 0 && 2 <= Required(size, each)
    ensures Find(Fresh(), size, each, reverse) == (Fresh(), None)
  {
    hide Required;
  }

  // --------------------------------------------------------------------- runs

  datatype Op =
    | MarkOne(i: nat)
    | UnmarkOne(i: nat)
    | MarkRange(lo: nat, hi: nat)
    | FindSpace(size: nat, each: nat, reverse: bool)

  predicate InTable(op: Op) {
    match op
    case MarkOne(i) => i < ENTRIES
    case UnmarkOne(i) => i < ENTRIES
    case MarkRange(lo, hi) => lo <= hi <= ENTRIES
    case FindSpace(_, each, _) => each > 0
  }

  function After(t: Table, op: Op): (r: Table)
    requires Shaped(t) && InTable(op)
    ensures Shaped(r)
  {
    match op
    case MarkOne(i) => Mark(t, i)
    case UnmarkOne(i) => Unmark(t, i)
    case MarkRange(lo, hi) => MarkUp(t, lo, hi)
    case FindSpace(size, each, reverse) => FindIsSound(t, size, each, reverse); Find(t, size, each, reverse).0
  }

  ghost predicate HasFree(t: Table) { exists j: nat :: Free(t, j) }

  lemma {:induction false} OpKeepsExact(t: Table, op: Op)
    requires Exact(t) && InTable(op) && HasFree(After(t, op))
    ensures Exact(After(t, op))
  {
    var j: nat :| Free(After(t, op), j);
    hide Exact, Mark, Unmark, Find;
    match op
    case MarkOne(i) => MarkKeepsExact(t, i, j);
    case UnmarkOne(i) => UnmarkKeepsExact(t, i);
    case MarkRange(lo, hi) => MarkUpTakes(t, lo, hi);
    case FindSpace(size, each, reverse) => FindKeepsExact(t, size, each, reverse, j);
  }

  /** Over every run that never fills the table, the hints are exactly the least
      and the greatest free entry. */
  lemma {:induction false} HintsStayExact(tables: seq<Table>, ops: seq<Op>, k: nat)
    requires |tables| == |ops| + 1 && tables[0] == Fresh() && k < |tables|
    requires forall i :: 0 <= i < |ops| ==>
      InTable(ops[i]) && Shaped(tables[i]) && tables[i + 1] == After(tables[i], ops[i])
    requires forall i :: 0 <= i < |tables| ==> HasFree(tables[i])
    ensures Exact(tables[k])
    decreases k
  {
    hide HasFree, After, InTable, Shaped;
    if k == 0 {
      FreshIsExact();
    } else {
      HintsStayExact(tables, ops, k - 1);
      assert tables[k - 1 + 1] == After(tables[k - 1], ops[k - 1]);
      assert HasFree(tables[k]);
      OpKeepsExact(tables[k - 1], ops[k - 1]);
    }
  }

  lemma {:induction false} FreshIsExact()
    ensures Exact(Fresh())
  {
  }

  // ---------------------------------------------------------------- the mapper

  /** The table in place. */
  class TrackedMapper {
    const used: array<bool>
    var first: nat
    var last: nat
    const each: nat

    ghost predicate Valid()
      reads this, used
    {
      each > 0 && used.Length == ENTRIES && Shaped(View())
    }

    ghost function View(): Table
      reads this, used
    {
      Table(used[..], first, last)
    }

    /** `bytes` is what one entry of a table of this level spans. */
    constructor (bytes: nat)
      requires bytes > 0
      ensures Valid() && fresh(used) && each == bytes && View() == Fresh()
    {
      used := new bool[ENTRIES](_ => false);
      first, last := 0, ENTRIES - 1;
      each := bytes;
      new;
      assert used[..] == Fresh().used;
    }

    /** Index 512 passes the source's bound check and then faults. */
    method MarkAsUsed(index: nat) returns (marked: Option<nat>)
      requires Valid() && index != ENTRIES
      modifies this, used
      ensures Valid()
      ensures index > ENTRIES ==> View() == old(View())
      ensures index < ENTRIES ==> View() == Mark(old(View()), index)
      ensures marked == if Free(old(View()), index) then Some(index) else None
      ensures marked.None? ==> View() == old(View())
    {
      if index > ENTRIES || used[index] { return None; }
      ghost var u := used[..][index := true];
      used[index] := true;
      assert used[..] == u;
      if first == index {
        var curr: nat := first;
        while curr < ENTRIES && used[curr]
          invariant first <= curr <= ENTRIES && FirstFree(u, curr) == FirstFree(u, first)
        {
          curr := curr + 1;
        }
        first := curr;
      } else if last == index {
        var curr: nat := last;
        while curr > 0 && used[curr]
          invariant curr <= last && LastFree(u, curr) == LastFree(u, last)
        {
          curr := curr - 1;
        }
        last := curr;
      }
      return Some(index);
    }

    method MarkAsUnused(index: nat)
      requires Valid() && index != ENTRIES
      modifies this, used
      ensures Valid()
      ensures View() == if index < ENTRIES then Unmark(old(View()), index) else old(View())
    {
      if index > ENTRIES { return; }
      used[index] := false;
      assert used[..] == old(used[..])[index := false];
      if first > index {
        first := index;
      } else if last < index {
        last := index;
      }
    }

    /** Mark the entries for the addresses from `start` to just below `end`. */
    method MarkRangeAsUsed(start: nat, end: nat) returns (marked: Option<(nat, nat)>)
      requires Valid() && end >= 1
      modifies this, used
      ensures Valid()
      ensures View() == MarkAddresses(old(View()), each, start, end)
      ensures var lo, hi := start / each % ENTRIES, (end - 1) / each % ENTRIES;
        marked == if exists j :: lo <= j <= hi && Free(old(View()), j) then Some((lo, hi - lo + 1)) else None
    {
      var lo, hi := start / each % ENTRIES, (end - 1) / each % ENTRIES;
      var some := MarkIndices(lo, hi);
      return if some then Some((lo, hi - lo + 1)) else None;
    }

    /** Mark the entries from `lo` to `hi`, both included; `some` tells whether any
        of them was free. */
    method MarkIndices(lo: nat, hi: nat) returns (some: bool)
      requires Valid() && hi < ENTRIES
      modifies this, used
      ensures Valid()
      ensures View() == if lo <= hi then MarkUp(old(View()), lo, hi + 1) else old(View())
      ensures some <==> exists j :: lo <= j <= hi && Free(old(View()), j)
    {
      some := false;
      var i := lo;
      ghost var t := View();
      while i <= hi
        invariant Valid() && lo <= i && (lo <= hi ==> i <= hi + 1)
        invariant lo <= hi ==> MarkUp(View(), i, hi + 1) == MarkUp(t, lo, hi + 1)
        invariant lo > hi ==> View() == t
        invariant Shaped(t) && Taken(t, View(), lo, i)
        invariant some <==> exists j :: lo <= j < i && Free(t, j)
      {
        ghost var before := View();
        MarkIs(before, i);
        var one := MarkAsUsed(i);
        assert Free(before, i) <==> Free(t, i);
        some := some || one.Some?;
        i := i + 1;
      }
    }

    method IsFree(lo: nat, hi: nat) returns (free: bool)
      requires Valid() && lo <= hi <= ENTRIES
      ensures free <==> AllFree(View().used, lo, hi)
    {
      var j := lo;
      while j < hi
        invariant lo <= j <= hi && AllFree(View().used, lo, j)
      {
        if used[j] { return false; }
        j := j + 1;
      }
      return true;
    }

    method SearchFrom(start: nat, n: nat, reverse: bool) returns (found: Option<nat>)
      requires Valid() && n < ENTRIES
      ensures found == Search(View().used, start, n, reverse)
    {
      ghost var u := View().used;
      var curr := start;
      while n <= curr < ENTRIES - n - 1
        invariant curr >= 0 && Search(u, curr, n, reverse) == Search(u, start, n, reverse)
        decreases if reverse then curr else ENTRIES - curr
      {
        if !used[curr] {
          var free := IsFree(if reverse then curr - n else curr, if reverse then curr else curr + n);
          if free { return Some(curr); }
        }
        if !reverse {
          curr := curr + 1;
        } else if curr == 0 {
          return None;
        } else {
          curr := curr - 1;
        }
      }
      return None;
    }

    /** All sums and differences wrap as in the source. */
    method FindFreeSpaceAndMark(size: nat, reverse: bool) returns (found: Option<(nat, nat)>)
      requires Valid() && size < U64_LIMIT
      modifies this, used
      ensures Valid()
      ensures (View(), found) == Find(old(View()), size, each, reverse)
    {
      ghost var t := View();
      hide Search, Mark, MarkUp, MarkDown;
      var n := (size + each - 1) % U64_LIMIT / each;
      assert n == Required(size, each);
      hide Required;
      if last - first + 1 < n % 0x1_0000 { return None; }
      var curr := if reverse then last else first;
      if n == 1 {
        var one := MarkAsUsed(curr);
        if one.None? { return None; }
        return Some((curr, 1));
      }
      if n >= ENTRIES { return None; }
      var at := SearchFrom(curr, n, reverse);
      if at.None? { return None; }
      SearchIsFree(t.used, curr, n, reverse);
      if reverse {
        MarkEachDown(at.value - n, at.value);
        return Some((at.value - n, n));
      }
      MarkEachUp(at.value, at.value + n);
      return Some((at.value, n));
    }

    method MarkEachUp(lo: nat, hi: nat)
      requires Valid() && lo <= hi <= ENTRIES
      modifies this, used
      ensures Valid() && View() == MarkUp(old(View()), lo, hi)
    {
      var i := lo;
      while i < hi
        invariant Valid() && lo <= i <= hi && MarkUp(View(), i, hi) == MarkUp(old(View()), lo, hi)
      {
        var _ := MarkAsUsed(i);
        i := i + 1;
      }
    }

    method MarkEachDown(lo: nat, hi: nat)
      requires Valid() && lo <= hi <= ENTRIES
      modifies this, used
      ensures Valid() && View() == MarkDown(old(View()), lo, hi)
    {
      var i := hi;
      while i > lo
        invariant Valid() && lo <= i <= hi && MarkDown(View(), lo, i) == MarkDown(old(View()), lo, hi)
      {
        i := i - 1;
        var _ := MarkAsUsed(i);
      }
    }
  }
}
