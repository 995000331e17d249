/** Context ids: a counter, a queue of ids given back, and the contexts that carry
    them. */
module ContextIds {

  // -------------------------------------------------------------- the allocator

  datatype Ids = Ids(head: nat, recycled: seq<nat>)

  /** The id handed out next, and the state after. */
  function Alloc(s: Ids): (Ids, nat) {
    if s.recycled == [] then (s.(head := s.head + 1), s.head + 1)
    else (s.(recycled := s.recycled[1..]), s.recycled[0])
  }

  /** Giving an id back; zero if it has been given back before. */
  function Dealloc(s: Ids, id: nat): (Ids, nat) {
    if id in s.recycled then (s, 0) else (s.(recycled := s.recycled + [id]), id)
  }

  /** The ids handed out so far are the live and the recycled ones, each once. */
  ghost predicate Partition(init: nat, s: Ids, live: set<nat>) {
    && init <= s.head
    && (forall i, j :: 0 <= i < j < |s.recycled| ==> s.recycled[i] != s.recycled[j])
    && (forall id :: id in live ==> id !in s.recycled)
    && (forall id: nat :: init < id <= s.head <==> id in live || id in s.recycled)
  }

  /** What is handed out was not live. */
  lemma {:induction false} AllocKeepsPartition(init: nat, s: Ids, live: set<nat>)
    requires Partition(init, s, live)
    ensures var (t, id) := Alloc(s);
      id !in live && id > init && Partition(init, t, live + {id})
  {
    var (t, id) := Alloc(s);
    if s.recycled != [] {
      assert s.recycled == [s.recycled[0]] + s.recycled[1..];
      assert forall x :: x in s.recycled <==> x == s.recycled[0] || x in s.recycled[1..];
    }
  }

  /** Giving an id back keeps this exactly if the id has ever been handed out. */
  lemma {:induction false} DeallocKeepsPartitionIff(init: nat, s: Ids, live: set<nat>, id: nat)
    requires Partition(init, s, live)
    ensures Partition(init, Dealloc(s, id).0, live - {id}) <==> init < id <= s.head
    ensures Dealloc(s, id).1 == if id in live || id > s.head || id <= init then id else 0
  {
    var t := Dealloc(s, id).0;
    assert t.recycled == s.recycled || t.recycled == s.recycled + [id];
    if id !in s.recycled {
      assert id in t.recycled;
    }
  }

  // --------------------------------------------------------------------- runs

  datatype Step = Take | Give(id: nat)

  /** The ids alive after the steps; only live ids are given back. */
  datatype World = World(ids: Ids, live: set<nat>)

  function After(w: World, step: Step): World {
    match step
    case Take => World(Alloc(w.ids).0, w.live + {Alloc(w.ids).1})
    case Give(id) => World(Dealloc(w.ids, id).0, w.live - {id})
  }

  ghost predicate IsRun(init: nat, worlds: seq<World>, steps: seq<Step>) {
    && |worlds| == |steps| + 1 && worlds[0] == World(Ids(init, []), {})
    && forall k :: 0 <= k < |steps| ==>
      worlds[k + 1] == After(worlds[k], steps[k]) && (steps[k].Give? ==> steps[k].id in worlds[k].live)
  }

  /** Over every run that gives back live ids only, live and recycled ids are
      exactly the ids above the initial one up to the counter, without duplicates,
      and no id is handed out while it is live. */
  lemma {:induction false} IdsAreConserved(init: nat, worlds: seq<World>, steps: seq<Step>, k: nat)
    requires IsRun(init, worlds, steps) && k < |worlds|
    ensures Partition(init, worlds[k].ids, worlds[k].live) && Alloc(worlds[k].ids).1 !in worlds[k].live
    decreases k
  {
    hide Partition, Alloc, Dealloc;
    if k == 0 {
      Fresh(init);
    } else {
      IdsAreConserved(init, worlds, steps, k - 1);
      var w := worlds[k - 1];
      assert worlds[k - 1 + 1] == After(w, steps[k - 1]);
      AllocKeepsPartition(init, w.ids, w.live);
      if steps[k - 1].Give? {
        LiveIsHandedOut(init, w.ids, w.live, steps[k - 1].id);
        DeallocKeepsPartitionIff(init, w.ids, w.live, steps[k - 1].id);
      }
    }
    AllocKeepsPartition(init, worlds[k].ids, worlds[k].live);
  }

  lemma {:induction false} Fresh(init: nat)
    ensures Partition(init, Ids(init, []), {})
  {
  }

  lemma {:induction false} LiveIsHandedOut(init: nat, s: Ids, live: set<nat>, id: nat)
    requires Partition(init, s, live) && id in live
    ensures init < id <= s.head
  {
  }

  /** The ids given back, oldest first. */
  function Given(steps: seq<Step>): seq<nat> {
    if steps == [] then [] else
      var n := |steps| - 1;
      if steps[n].Give? then Given(steps[..n]) + [steps[n].id] else Given(steps[..n])
  }

  function Takes(steps: seq<Step>): nat {
    if steps == [] then 0 else Takes(steps[..|steps| - 1]) + if steps[|steps| - 1].Take? then 1 else 0
  }

  /** How many of the ids handed out had been given back before: a new one is only
      handed out when none is left. */
  function Reused(steps: seq<Step>): (r: nat)
    ensures r <= |Given(steps)| && r <= Takes(steps)
  {
    if steps == [] then 0 else
      var n := |steps| - 1;
      var before := Reused(steps[..n]);
      if steps[n].Take? && before < |Given(steps[..n])| then before + 1 else before
  }

  /** The id handed out after the steps, from the steps alone: the oldest one given
      back and not handed out again, or else the first one never handed out. */
  function NextId(init: nat, steps: seq<Step>): nat {
    var r := Reused(steps);
    if r < |Given(steps)| then Given(steps)[r] else init + Takes(steps) - r + 1
  }

  /** The allocator after the steps, from the steps alone. */
  function Kept(init: nat, steps: seq<Step>): Ids {
    Ids(init + Takes(steps) - Reused(steps), Given(steps)[Reused(steps)..])
  }

  lemma {:induction false} KeptNext(init: nat, steps: seq<Step>)
    ensures Alloc(Kept(init, steps)).1 == NextId(init, steps)
  {
    hide Given, Takes, Reused;
  }

  lemma {:induction false} Unfold(steps: seq<Step>, step: Step)
    ensures Given(steps + [step]) == if step.Give? then Given(steps) + [step.id] else Given(steps)
    ensures Takes(steps + [step]) == Takes(steps) + if step.Take? then 1 else 0
    ensures Reused(steps + [step]) ==
      Reused(steps) + if step.Take? && Reused(steps) < |Given(steps)| then 1 else 0
  {
    assert (steps + [step])[..|steps|] == steps;
  }

  lemma {:induction false} KeptAfterTake(init: nat, steps: seq<Step>)
    ensures Alloc(Kept(init, steps)).0 == Kept(init, steps + [Take])
  {
    Unfold(steps, Take);
    hide Given, Takes, Reused;
  }

  lemma {:induction false} KeptAfterGive(init: nat, steps: seq<Step>, id: nat)
    requires id !in Kept(init, steps).recycled
    ensures Dealloc(Kept(init, steps), id).0 == Kept(init, steps + [Give(id)])
  {
    Unfold(steps, Give(id));
    hide Given, Takes, Reused;
  }

  /** Over every run that gives back live ids only, each id handed out is that one. */
  lemma {:induction false} IdsComeInOrder(init: nat, worlds: seq<World>, steps: seq<Step>, k: nat)
    requires IsRun(init, worlds, steps) && k < |worlds|
    ensures worlds[k].ids == Kept(init, steps[..k])
    ensures Alloc(worlds[k].ids).1 == NextId(init, steps[..k])
    decreases k
  {
    hide Kept, Given, Takes, Reused, NextId, Alloc, Dealloc, Partition;
    if k == 0 {
      KeptStart(init);
    } else {
      var before, step := steps[..k - 1], steps[k - 1];
      assert steps[..k] == before + [step] && worlds[k - 1 + 1] == After(worlds[k - 1], step);
      IdsComeInOrder(init, worlds, steps, k - 1);
      IdsAreConserved(init, worlds, steps, k - 1);
      match step
      case Take => KeptAfterTake(init, before);
      case Give(id) =>
        LiveIsNotRecycled(init, worlds[k - 1].ids, worlds[k - 1].live, id);
        KeptAfterGive(init, before, id);
    }
    KeptNext(init, steps[..k]);
  }

  lemma {:induction false} KeptStart(init: nat)
    ensures Kept(init, []) == Ids(init, [])
  {
  }

  lemma {:induction false} LiveIsNotRecycled(init: nat, s: Ids, live: set<nat>, id: nat)
    requires Partition(init, s, live) && id in live
    ensures id !in s.recycled
  {
  }

  function AllocTimes(s: Ids, n: nat): Ids
    decreases n
  {
    if n == 0 then s else AllocTimes(Alloc(s).0, n - 1)
  }

  lemma {:induction false} AllocTimesCounts(s: Ids, n: nat)
    requires s.recycled == []
    ensures AllocTimes(s, n) == Ids(s.head + n, [])
    decreases n
  {
    if n > 0 { AllocTimesCounts(Alloc(s).0, n - 1); }
  }

  /** Giving back an id that was never handed out: from nine ids handed out, giving
      back the tenth succeeds, and the next two allocations both return it. */
  lemma {:induction false} UnallocatedIdsComeTwice()
    ensures var s := AllocTimes(Ids(0, []), 9);
      var (t, given) := Dealloc(s, 10);
      given == 10 && Alloc(t).1 == 10 && Alloc(Alloc(t).0).1 == 10
  {
    AllocTimesCounts(Ids(0, []), 9);
    hide AllocTimes;
  }

  // ---------------------------------------------------------------- in place

  class ContextIdAllocator {
    var head: nat
    var recycled: seq<nat>

    ghost function View(): Ids
      reads this
    {
      Ids(head, recycled)
    }

    constructor (initIdExclusive: nat)
      ensures View() == Ids(initIdExclusive, [])
    {
      head, recycled := initIdExclusive, [];
    }

    method AllocId() returns (id: nat)
      modifies this
      ensures (View(), id) == Alloc(old(View()))
    {
      if recycled == [] {
        head := head + 1;
        return head;
      }
      id := recycled[0];
      recycled := recycled[1..];
    }

    method DeallocId(id: nat) returns (result: nat)
      modifies this
      ensures (View(), result) == Dealloc(old(View()), id)
    {
      var i := 0;
      while i < |recycled|
        invariant 0 <= i <= |recycled| && id !in recycled[..i]
        invariant View() == old(View())
      {
        if recycled[i] == id { return 0; }
        i := i + 1;
      }
      recycled := recycled + [id];
      return id;
    }
  }

  /** The contexts by id; each creation gets a serial number. */
  class ContextStorage {
    const init: nat
    const ids: ContextIdAllocator
    var contexts: map<nat, nat>
    var created: nat

    /** Every context is an idle one, whose id is at most the initial id, or carries
        a live id. */
    ghost predicate Valid()
      reads this, ids
    {
      Partition(init, ids.View(), set id | id in contexts && id > init)
    }

    constructor (initIdExclusive: nat)
      ensures Valid() && contexts == map[] && init == initIdExclusive && fresh(ids)
    {
      init := initIdExclusive;
      ids := new ContextIdAllocator(initIdExclusive);
      contexts, created := map[], 0;
      new;
      assert (set id | id in contexts && id > init) == {};
    }

    /** A duplicate id is reported, but the context has been replaced by then. */
    method InsertContext(id: nat) returns (ok: bool)
      modifies this
      ensures ok <==> id !in old(contexts)
      ensures contexts == old(contexts)[id := old(created)] && created == old(created) + 1
    {
      ok := id !in contexts;
      contexts := contexts[id := created];
      created := created + 1;
    }

    /** The idle context of a processor. */
    method InitContext(cpu: nat) returns (ok: bool)
      requires Valid() && cpu <= init
      modifies this
      ensures Valid() && (ok <==> cpu !in old(contexts)) && contexts == old(contexts)[cpu := old(created)]
    {
      ok := InsertContext(cpu);
      assert (set id | id in contexts && id > init) == (set id | id in old(contexts) && id > init);
    }

    /** A new context never clashes with another. */
    method NewContext() returns (id: nat, ok: bool)
      requires Valid()
      modifies this, ids
      ensures Valid() && ok && id !in old(contexts) && id > init
      ensures contexts == old(contexts)[id := old(created)]
    {
      ghost var live := set i | i in contexts && i > init;
      AllocKeepsPartition(init, ids.View(), live);
      id := ids.AllocId();
      ok := InsertContext(id);
      assert (set i | i in contexts && i > init) == live + {id};
    }

    /** A context goes, and its id with it. */
    method Remove(id: nat)
      requires Valid() && id in contexts && id > init
      modifies this, ids
      ensures Valid() && contexts == old(contexts) - {id} && id in ids.recycled
    {
      ghost var live := set i | i in contexts && i > init;
      assert id in live;
      LiveIsHandedOut(init, ids.View(), live, id);
      DeallocKeepsPartitionIff(init, ids.View(), live, id);
      contexts := contexts - {id};
      var given := ids.DeallocId(id);
      assert (set i | i in contexts && i > init) == live - {id};
    }
  }
}
