/** The code of a context switch: the search for a candidate, and the routine
    that exchanges the registers. */
module SwitchCode {
  import opened Regions
  import opened Scheduler

  // ------------------------------------------------------------------ the order

  predicate Ascending(keys: seq<nat>) {
    forall i, j :: 0 <= i < j < |keys| ==> keys[i] < keys[j]
  }

  /** The ids of a table in order, without those outside the bounds. */
  function Above(keys: seq<nat>, prev: nat): (ks: seq<nat>)
    ensures forall k :: k in ks <==> k in keys && k > prev
    ensures Ascending(keys) ==> Ascending(ks)
  {
    if keys == [] then [] else
      var rest := Above(keys[1..], prev);
      assert forall i :: 0 <= i < |rest| ==> rest[i] in rest;
      if keys[0] > prev then [keys[0]] + rest else rest
  }

  function Below(keys: seq<nat>, prev: nat): (ks: seq<nat>)
    ensures forall k :: k in ks <==> k in keys && k < prev
    ensures Ascending(keys) ==> Ascending(ks)
  {
    if keys == [] then [] else
      var rest := Below(keys[1..], prev);
      assert forall i :: 0 <= i < |rest| ==> rest[i] in rest;
      if keys[0] < prev then [keys[0]] + rest else rest
  }

  /** The two ranges chained: the third, from the idle id to itself, is empty. */
  function Candidates(keys: seq<nat>, prev: nat): seq<nat> { Above(keys, prev) + Below(keys, prev) }

  /** That is the cyclic order the scheduler's model searches in. */
  lemma {:induction false} CandidatesAreInOrder(keys: seq<nat>, ids: set<nat>, prev: nat)
    requires Ascending(keys) && forall k :: k in keys <==> k in ids
    ensures IsOrder(Candidates(keys, prev), ids, prev)
  {
    var up, down := Above(keys, prev), Below(keys, prev);
    var order := Candidates(keys, prev);
    forall a, b | 0 <= a < b < |order| ensures order[a] != order[b] && InArc(prev, order[a], order[b]) {
      assert if a < |up| then order[a] in up else down[a - |up|] in down;
      assert if b < |up| then order[b] in up else down[b - |up|] in down;
    }
  }

  /** The first eligible candidate is the nearest one going up and around. */
  lemma {:induction false} FirstIsNearest(contexts: map<nat, Context>, order: seq<nat>, prev: nat, cpu: nat, k: nat)
    requires IsOrder(order, contexts.Keys, prev) && k < |order|
    requires forall j :: 0 <= j < k ==> order[j] in contexts && !Eligible(contexts[order[j]], cpu)
    ensures order[k] in contexts && order[k] != prev
    ensures forall c :: c in contexts && c != prev && c != order[k] && InArc(prev, c, order[k]) ==>
      !Eligible(contexts[c], cpu)
  {
    hide Eligible;
    assert order[k] in order;
    forall c | c in contexts && c != prev && c != order[k] && InArc(prev, c, order[k])
      ensures !Eligible(contexts[c], cpu)
    {
      assert c in order;
      var j :| 0 <= j < |order| && order[j] == c;
      assert j < k;
    }
  }

  /** The context table of the search, with contexts changed in place. */
  class ContextTable {
    var contexts: map<nat, Context>

    constructor (contexts: map<nat, Context>)
      ensures this.contexts == contexts
    {
      this.contexts := contexts;
    }

    /** Whether `id` may be switched to; a soft-blocked context with a deliverable
        signal is unblocked on the way. */
    method UpgradeRunnable(id: nat, cpu: nat) returns (r: Option<bool>)
      requires id in contexts
      modifies this
      ensures r.Some? <==> Eligible(old(contexts[id]), cpu)
      ensures r.Some? ==> r.value == old(contexts[id].signal)
      ensures contexts == if r.Some? then old(contexts)[id := old(contexts[id]).(status := Runnable)] else old(contexts)
    {
      var context := contexts[id];
      if context.running { return None; }
      if !(context.cpu.None? || context.cpu.value == cpu) { return None; }
      var deliverable := context.signal;
      if context.status.SoftBlocked? && deliverable {
        contexts := contexts[id := contexts[id].(status := Runnable)];
      }
      if contexts[id].status.Runnable? {
        assert contexts == old(contexts)[id := old(contexts[id]).(status := Runnable)];
        return Some(deliverable);
      }
      return None;
    }

    /** Take the first eligible candidate in the order given. */
    method Select(order: seq<nat>, cpu: nat) returns (found: Option<nat>, signal: bool)
      requires forall c :: c in order ==> c in contexts
      modifies this
      ensures found.None? ==> contexts == old(contexts)
      ensures found.None? ==> forall k :: 0 <= k < |order| ==> !Eligible(contexts[order[k]], cpu)
      ensures found.Some? ==>
        exists k :: 0 <= k < |order| && order[k] == found.value && Eligible(old(contexts)[order[k]], cpu) &&
          forall j :: 0 <= j < k ==> !Eligible(old(contexts)[order[j]], cpu)
      ensures found.Some? ==>
        signal == old(contexts)[found.value].signal &&
        contexts == old(contexts)[found.value := old(contexts)[found.value].(status := Runnable)]
    {
      found, signal := None, false;
      for k := 0 to |order|
        invariant contexts == old(contexts)
        invariant forall j :: 0 <= j < k ==> !Eligible(contexts[order[j]], cpu)
      {
        var r := UpgradeRunnable(order[k], cpu);
        if r.Some? {
          return Some(order[k]), r.value;
        }
      }
    }

    /** Take the eligible context that comes first going up from `prev` and around;
        `keys` are the table's ids in order, as the map iterates over them. */
    method SelectNext(keys: seq<nat>, prev: nat, cpu: nat) returns (found: Option<nat>, signal: bool)
      requires Ascending(keys) && forall k :: k in keys <==> k in contexts.Keys
      modifies this
      ensures found.None? ==> contexts == old(contexts)
      ensures found.None? ==> forall c :: c in contexts && c != prev ==> !Eligible(contexts[c], cpu)
      ensures found.Some? ==>
        && found.value in old(contexts) && found.value != prev && Eligible(old(contexts)[found.value], cpu)
        && signal == old(contexts)[found.value].signal
        && contexts == old(contexts)[found.value := old(contexts)[found.value].(status := Runnable)]
        && (found.value > prev ==>
              forall c :: c in old(contexts) && prev < c < found.value ==> !Eligible(old(contexts)[c], cpu))
        && (found.value < prev ==>
              forall c :: c in old(contexts) && (prev < c || c < found.value) ==> !Eligible(old(contexts)[c], cpu))
    {
      ghost var before := contexts;
      CandidatesAreInOrder(keys, contexts.Keys, prev);
      var order := Candidates(keys, prev);
      found, signal := Select(order, cpu);
      hide Candidates, Eligible;
      if found.Some? {
        ghost var k :| 0 <= k < |order| && order[k] == found.value && Eligible(before[order[k]], cpu) &&
          forall j :: 0 <= j < k ==> !Eligible(before[order[j]], cpu);
        FirstIsNearest(before, order, prev, cpu, k);
      } else {
        forall c | c in before && c != prev ensures !Eligible(before[c], cpu) {
          assert c in order;
        }
      }
    }
  }

  /** The block a context's registers are kept in. */
  class RegisterBlock {
    var rflags: int
    var rbx: int
    var r12: int
    var r13: int
    var r14: int
    var r15: int
    var rbp: int
    var rsp: int

    ghost function Values(): Registers
      reads this
    {
      Registers(rflags, rbx, r12, r13, r14, r15, rbp, rsp)
    }
  }

  /** A processor's registers and the stack memory it pushes to. */
  class Core {
    var rflags: int
    var rbx: int
    var r12: int
    var r13: int
    var r14: int
    var r15: int
    var rbp: int
    var rsp: int
    var stack: map<int, int>

    ghost function Values(): Registers
      reads this
    {
      Registers(rflags, rbx, r12, r13, r14, r15, rbp, rsp)
    }

    method Push(v: int)
      modifies this
      ensures rsp == old(rsp) - 8 && stack == old(stack)[rsp := v]
      ensures rflags == old(rflags) && rbx == old(rbx) && r12 == old(r12) && r13 == old(r13)
      ensures r14 == old(r14) && r15 == old(r15) && rbp == old(rbp)
    {
      rsp := rsp - 8;
      stack := stack[rsp := v];
    }

    method Pop() returns (v: int)
      requires rsp in stack
      modifies this`rsp
      ensures rsp == old(rsp) + 8 && v == stack[old(rsp)]
    {
      v := stack[rsp];
      rsp := rsp + 8;
    }

    /** Exchange registers: afterwards `prev` holds what the processor held, the
        processor holds what `next` held, and of the stack only the word below
        the new stack pointer has been touched. This is the Swap step. */
    method SwitchInner(prev: RegisterBlock, next: RegisterBlock)
      requires prev != next
      modifies this, prev
      ensures prev.Values() == old(Values())
      ensures Values() == next.Values() == old(next.Values())
      ensures forall a :: a != rsp - 8 ==>
        (a in stack <==> a in old(stack)) && (a in stack ==> stack[a] == old(stack)[a])
    {
      prev.rbx := rbx;
      rbx := next.rbx;
      prev.r12 := r12;
      r12 := next.r12;
      prev.r13 := r13;
      r13 := next.r13;
      prev.r14 := r14;
      r14 := next.r14;
      prev.r15 := r15;
      r15 := next.r15;
      prev.rbp := rbp;
      rbp := next.rbp;
      prev.rsp := rsp;
      rsp := next.rsp;
      Push(rflags);
      prev.rflags := Pop();
      Push(next.rflags);
      rflags := Pop();
    }
  }
}
