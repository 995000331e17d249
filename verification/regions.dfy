/** Physical memory regions, the half-open ranges they merge into, and what it
    means for either to cover an address. */
module Regions {

  const PAGE_SIZE: nat := 4096

  /** The start of the page that contains `v`. */
  function PageDown(v: nat): nat { v - v % PAGE_SIZE }
  const U64_LIMIT: nat := 0x1_0000_0000_0000_0000

  newtype u64 = x: int | 0 <= x < 0x1_0000_0000_0000_0000

  datatype Option<+T> = None | Some(value: T)

  /** An entry of the unavailable-memory list handed to the kernel. */
  datatype Region = Region(start: nat, length: nat) {
    function End(): nat { start + length }
    predicate Holds(a: int) { start <= a < start + length }
  }

  /** A half-open range of addresses. */
  datatype Range = Range(start: nat, end: nat) {
    predicate Contains(a: int) { start <= a < end }
  }

  predicate SortedByStart(rs: seq<Region>) {
    forall i, j :: 0 <= i < j < |rs| ==> rs[i].start <= rs[j].start
  }

  ghost predicate InSome(rs: seq<Region>, a: int) {
    exists i :: 0 <= i < |rs| && rs[i].Holds(a)
  }

  ghost predicate Covered(ms: seq<Range>, a: int) {
    exists i :: 0 <= i < |ms| && ms[i].Contains(a)
  }

  /** In ascending order with a gap of at least one address between any two. */
  ghost predicate Separated(ms: seq<Range>) {
    && (forall i :: 0 <= i < |ms| ==> ms[i].start <= ms[i].end)
    && (forall i, j :: 0 <= i < j < |ms| ==> ms[i].end < ms[j].start)
  }

  /** [lo, hi) shares no address with any of the ranges. */
  ghost predicate Clear(ms: seq<Range>, lo: int, hi: int) {
    forall a :: lo <= a < hi ==> !Covered(ms, a)
  }

  function Max(x: int, y: int): int { if x < y then y else x }
}
