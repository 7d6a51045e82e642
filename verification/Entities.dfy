/** The generational entity table (src/kernel/ecs/entity.rs). */
module Entities {
  import opened Wrappers
  import opened Sequences

  const U32_LIMIT: nat := 0x1_0000_0000

  datatype Entity = Entity(index: nat, generation: nat)

  datatype EntityError = IndexOverflow

  /** Per-slot generations and the free list; `epochs` counts, without wrapping, how often each slot was handed out. */
  datatype Table = Table(generations: seq<nat>, free: seq<nat>, epochs: seq<nat>)

  /** The slot is handed out at present. */
  predicate Occupied(t: Table, index: nat) {
    index < |t.generations| && index !in t.free
  }

  predicate IsAlive(t: Table, e: Entity) {
    e.index < |t.generations| && t.generations[e.index] == e.generation && e.index !in t.free
  }

  ghost predicate TableOk(t: Table) {
    && |t.generations| < U32_LIMIT && |t.epochs| == |t.generations|
    && (forall i :: 0 <= i < |t.generations| ==> t.epochs[i] >= 1 && t.generations[i] == (t.epochs[i] - 1) % U32_LIMIT)
    && Distinct(t.free) && (forall i :: 0 <= i < |t.free| ==> t.free[i] < |t.generations|)
  }

  /** A recycled slot with the next generation, or a new slot. */
  function Create(t: Table): Result<(Table, Entity), EntityError>
    requires TableOk(t)
  {
    if t.free != [] then
      var last := |t.free| - 1;
      var slot := t.free[last];
      var generation := if t.generations[slot] + 1 < U32_LIMIT then t.generations[slot] + 1 else 0;
      Ok((Table(t.generations[slot := generation], t.free[..last], t.epochs[slot := t.epochs[slot] + 1]), Entity(slot, generation)))
    else if |t.generations| >= U32_LIMIT - 1 then Err(IndexOverflow)
    else Ok((Table(t.generations + [0], [], t.epochs + [1]), Entity(|t.generations|, 0)))
  }

  function Destroy(t: Table, e: Entity): (Table, bool) {
    if IsAlive(t, e) then (t.(free := t.free + [e.index]), true) else (t, false)
  }

  /** Creation adds exactly one live handle, whose slot was not occupied. */
  lemma CreateAddsOne(t: Table)
    requires TableOk(t) && Create(t).Ok?
    ensures var (t', e) := Create(t).value;
            && TableOk(t') && !Occupied(t, e.index)
            && (forall f :: IsAlive(t', f) <==> f == e || IsAlive(t, f))
            && (forall i: nat :: Occupied(t', i) <==> i == e.index || Occupied(t, i))
            && (forall i: nat :: Occupied(t, i) ==> i < |t'.generations| && t'.generations[i] == t.generations[i])
            && |t'.epochs| >= |t.epochs| && t'.epochs[e.index] == (if e.index < |t.epochs| then t.epochs[e.index] else 0) + 1
  {
    if t.free != [] {
      var last := |t.free| - 1;
      assert forall i: nat :: i in t.free <==> i in t.free[..last] || i == t.free[last];
      NextGeneration(t.epochs[t.free[last]]);
    }
  }

  /** Creation takes a slot given back, and fails exactly if there is none and 2^32 - 1 slots are in use. */
  lemma CreateFailsExactly(t: Table)
    requires TableOk(t)
    ensures Create(t).Err? <==> t.free == [] && |t.generations| == 0xFFFF_FFFF
    ensures Create(t).Ok? && t.free != [] ==> Create(t).value.1.index in t.free
  {
  }

  /** Destruction removes exactly that live handle, or nothing. */
  lemma DestroyRemovesOne(t: Table, e: Entity)
    requires TableOk(t)
    ensures var (t', removed) := Destroy(t, e);
            && TableOk(t') && removed == IsAlive(t, e) && t'.generations == t.generations
            && (forall f :: IsAlive(t', f) <==> f != e && IsAlive(t, f))
            && (forall i: nat :: Occupied(t', i) <==> !(removed && i == e.index) && Occupied(t, i))
  {
  }

  lemma NextGeneration(epoch: nat)
    requires epoch >= 1
    ensures epoch % U32_LIMIT == (if (epoch - 1) % U32_LIMIT + 1 < U32_LIMIT then (epoch - 1) % U32_LIMIT + 1 else 0)
  {
  }

  lemma SameResidue(a: nat, b: nat)
    requires b <= a
    ensures a % U32_LIMIT == b % U32_LIMIT <==> (a - b) % U32_LIMIT == 0
  {
  }

  /**
   A handle issued when its slot was handed out for the `issued`-th time is alive exactly when the slot
   is occupied and has since been handed out a multiple of 2^32 times: a stale handle stays dead until then.
   */
  lemma HandleIsAliveExactly(t: Table, e: Entity, issued: nat)
    requires TableOk(t) && e.index < |t.generations| && 1 <= issued <= t.epochs[e.index]
    requires e.generation == (issued - 1) % U32_LIMIT
    ensures IsAlive(t, e) <==> Occupied(t, e.index) && (t.epochs[e.index] - issued) % U32_LIMIT == 0
    ensures IsAlive(t, e) && t.epochs[e.index] - issued < U32_LIMIT ==> t.epochs[e.index] == issued
  {
    SameResidue(t.epochs[e.index] - 1, issued - 1);
  }

  // ---- Handles over whole runs ----

  datatype TableOp = CreateOp | DestroyOp(e: Entity)

  function After(t: Table, op: TableOp): Table
    requires TableOk(t)
  {
    match op
    case CreateOp => if Create(t).Ok? then Create(t).value.0 else t
    case DestroyOp(e) => Destroy(t, e).0
  }

  lemma AfterIsOk(t: Table, op: TableOp)
    requires TableOk(t)
    ensures TableOk(After(t, op))
  {
    match op
    case CreateOp => if Create(t).Ok? { CreateAddsOne(t); }
    case DestroyOp(e) => DestroyRemovesOne(t, e);
  }

  ghost predicate IsStep(t: Table, op: TableOp, t': Table) { TableOk(t) ==> t' == After(t, op) }

  ghost predicate IsHistory(tables: seq<Table>, ops: seq<TableOp>) {
    && |tables| == |ops| + 1 && TableOk(tables[0])
    && forall k :: 0 <= k < |ops| ==> IsStep(tables[k], ops[k], tables[k + 1])
  }

  lemma {:induction false} HistoryIsOk(tables: seq<Table>, ops: seq<TableOp>, k: nat)
    requires IsHistory(tables, ops) && k <= |ops|
    ensures TableOk(tables[k])
  {
    if k > 0 {
      HistoryIsOk(tables, ops, k - 1);
      assert IsStep(tables[k - 1], ops[k - 1], tables[k]);
      AfterIsOk(tables[k - 1], ops[k - 1]);
    }
  }

  lemma HistoryPart(tables: seq<Table>, ops: seq<TableOp>, from: nat, to: nat)
    requires IsHistory(tables, ops) && from <= to <= |ops|
    ensures IsHistory(tables[from..to + 1], ops[from..to])
  {
    HistoryIsOk(tables, ops, from);
    forall k | 0 <= k < to - from ensures IsStep(tables[from..to + 1][k], ops[from..to][k], tables[from..to + 1][k + 1]) {
      assert IsStep(tables[from + k], ops[from + k], tables[from + k + 1]);
    }
  }

  /** A slot is handed out only by moving on its epoch. */
  lemma StepMovesEpoch(t: Table, op: TableOp, index: nat)
    requires TableOk(t) && index < |t.generations|
    ensures var t' := After(t, op);
      && index < |t'.generations| && t.epochs[index] <= t'.epochs[index]
      && (t'.epochs[index] == t.epochs[index] && Occupied(t', index) ==> Occupied(t, index))
  {
    match op
    case CreateOp => if Create(t).Ok? { CreateAddsOne(t); }
    case DestroyOp(e) => DestroyRemovesOne(t, e);
  }

  lemma {:induction false} RunMovesEpoch(tables: seq<Table>, ops: seq<TableOp>, index: nat)
    requires IsHistory(tables, ops) && index < |tables[0].generations|
    ensures var last := tables[|ops|];
      && index < |last.generations| == |last.epochs| && tables[0].epochs[index] <= last.epochs[index]
      && (last.epochs[index] == tables[0].epochs[index] && Occupied(last, index) ==> Occupied(tables[0], index))
    decreases |ops|
  {
    if ops != [] {
      var n := |ops| - 1;
      HistoryIsOk(tables, ops, n);
      HistoryPart(tables, ops, 0, n);
      RunMovesEpoch(tables[0..n + 1], ops[0..n], index);
      assert IsStep(tables[n], ops[n], tables[n + 1]);
      StepMovesEpoch(tables[n], ops[n], index);
    }
  }

  /** A created handle carries the epoch at which its slot was handed out. */
  lemma CreatedHandle(t: Table)
    requires TableOk(t) && Create(t).Ok?
    ensures var (t', e) := Create(t).value;
      && IsAlive(t', e) && e.index < |t'.epochs| && 1 <= t'.epochs[e.index] && e.generation == (t'.epochs[e.index] - 1) % U32_LIMIT
  {
    CreateAddsOne(t);
  }

  /**
    * A handle returned by a creation, once it is dead, stays dead for the rest of the run, however slots are
    * reused, as long as its own slot is handed out fewer than 2^32 more times.
    */
  lemma StaleHandleStaysDead(before: Table, tables: seq<Table>, ops: seq<TableOp>, dead: nat, later: nat)
    requires TableOk(before) && Create(before).Ok? && IsHistory(tables, ops) && tables[0] == Create(before).value.0
    requires dead <= later <= |ops| && !IsAlive(tables[dead], Create(before).value.1)
    ensures var e := Create(before).value.1;
      && e.index < |tables[0].epochs| && e.index < |tables[later].epochs|
      && (tables[later].epochs[e.index] - tables[0].epochs[e.index] < U32_LIMIT ==> !IsAlive(tables[later], e))
  {
    var e := Create(before).value.1;
    CreatedHandle(before);
    var issued := tables[0].epochs[e.index];
    HistoryIsOk(tables, ops, dead);
    HistoryIsOk(tables, ops, later);
    HistoryPart(tables, ops, 0, dead);
    HistoryPart(tables, ops, dead, later);
    RunMovesEpoch(tables[0..dead + 1], ops[0..dead], e.index);
    RunMovesEpoch(tables[dead..later + 1], ops[dead..later], e.index);
    HandleIsAliveExactly(tables[dead], e, issued);
    HandleIsAliveExactly(tables[later], e, issued);
  }

  // ---- ... until its generation comes round ----

  /** The table after slot `i` was given back and handed out `n` times. */
  function Cycled(t: Table, i: nat, n: nat): Table
    requires TableOk(t) && i < |t.generations|
  {
    var epoch := t.epochs[i] + n;
    Table(t.generations[i := (epoch - 1) % U32_LIMIT], t.free, t.epochs[i := epoch])
  }

  /** The handle that slot `i` has then. */
  function HandleAfter(t: Table, i: nat, n: nat): Entity
    requires TableOk(t) && i < |t.generations|
  {
    Entity(i, (t.epochs[i] + n - 1) % U32_LIMIT)
  }

  lemma CycledIsOk(t: Table, i: nat, n: nat)
    requires TableOk(t) && Occupied(t, i)
    ensures TableOk(Cycled(t, i, n)) && IsAlive(Cycled(t, i, n), HandleAfter(t, i, n))
  {
  }

  ghost predicate IsCycle(t: Table, give: TableOp, given: Table, t': Table, i: nat) {
    && TableOk(t) && TableOk(given) && !Occupied(given, i)
    && given == After(t, give) && t' == After(given, CreateOp)
  }

  /** A slot given back is the next one handed out. */
  lemma OneCycle(t: Table, i: nat, n: nat) returns (give: TableOp, given: Table)
    requires TableOk(t) && Occupied(t, i)
    ensures IsCycle(Cycled(t, i, n), give, given, Cycled(t, i, n + 1), i)
  {
    var was, e, epoch := Cycled(t, i, n), HandleAfter(t, i, n), t.epochs[i] + n;
    CycledIsOk(t, i, n);
    give, given := DestroyOp(e), Destroy(was, e).0;
    DestroyRemovesOne(was, e);
    NextGeneration(epoch);
    assert given.free[|given.free| - 1] == i && given.free[..|given.free| - 1] == t.free;
    assert was.generations[i := epoch % U32_LIMIT] == t.generations[i := epoch % U32_LIMIT];
    assert was.epochs[i := epoch + 1] == t.epochs[i := epoch + 1];
  }

  lemma HistoryGrowsByCycle(tables: seq<Table>, ops: seq<TableOp>, give: TableOp, given: Table, t': Table, i: nat)
    requires IsHistory(tables, ops) && IsCycle(tables[|ops|], give, given, t', i)
    ensures IsHistory(tables + [given, t'], ops + [give, CreateOp])
  {
    var grown, more := tables + [given, t'], ops + [give, CreateOp];
    forall k | 0 <= k < |more| ensures IsStep(grown[k], more[k], grown[k + 1]) {
      assert k < |ops| ==> IsStep(tables[k], ops[k], tables[k + 1]);
    }
  }

  lemma {:induction false} Cycles(t: Table, i: nat, n: nat) returns (tables: seq<Table>, ops: seq<TableOp>)
    requires TableOk(t) && Occupied(t, i)
    ensures IsHistory(tables, ops) && |ops| == 2 * n && tables[0] == t && tables[|ops|] == Cycled(t, i, n)
    ensures n > 0 ==> !Occupied(tables[1], i)
  {
    if n == 0 {
      assert Cycled(t, i, 0) == t;
      return [t], [];
    }
    var before, done := Cycles(t, i, n - 1);
    var give, given := OneCycle(t, i, n - 1);
    HistoryGrowsByCycle(before, done, give, given, Cycled(t, i, n), i);
    tables, ops := before + [given, Cycled(t, i, n)], done + [give, CreateOp];
  }

  /** Every live handle can die and, after its slot was handed out 2^32 more times, be alive again. */
  lemma StaleHandleComesBack(t: Table, e: Entity) returns (tables: seq<Table>, ops: seq<TableOp>)
    requires TableOk(t) && IsAlive(t, e)
    ensures IsHistory(tables, ops) && |ops| > 1 && tables[0] == t && |tables[|ops|].epochs| == |t.epochs|
    ensures !IsAlive(tables[1], e) && IsAlive(tables[|ops|], e)
    ensures tables[|ops|].epochs[e.index] == t.epochs[e.index] + 0x1_0000_0000
  {
    var n := U32_LIMIT;
    tables, ops := Cycles(t, e.index, n);
    CycledIsOk(t, e.index, n);
    SameResidue(t.epochs[e.index] + n - 1, t.epochs[e.index] - 1);
    assert HandleAfter(t, e.index, n) == e;
  }

  /** The table object. */
  class Entities {
    var generations: seq<nat>
    var free: seq<nat>
    var live: nat
    ghost var epochs: seq<nat>

    constructor ()
      ensures Valid() && View() == Table([], [], [])
    {
      generations, free, live, epochs := [], [], 0, [];
    }

    ghost function View(): Table
      reads this
    {
      Table(generations, free, epochs)
    }

    ghost predicate Valid()
      reads this
    {
      TableOk(View()) && live + |free| == |generations|
    }

    method TryCreate() returns (r: Result<Entity, EntityError>)
      requires Valid()
      modifies this
      ensures Valid()
      ensures var expected := Create(old(View()));
              if expected.Err? then r == Err(expected.error) && View() == old(View())
              else r == Ok(expected.value.1) && View() == expected.value.0 && live == old(live) + 1
    {
      if Create(View()).Ok? {
        CreateAddsOne(View());
      }
      if free == [] {
        if |generations| >= U32_LIMIT - 1 {
          return Err(IndexOverflow);
        }
        var index := |generations|;
        generations := generations + [0];
        epochs := epochs + [1];
        live := live + 1;
        return Ok(Entity(index, 0));
      }
      var last := |free| - 1;
      var slot := free[last];
      free := free[..last];
      var generation := if generations[slot] + 1 < U32_LIMIT then generations[slot] + 1 else 0;
      generations := generations[slot := generation];
      epochs := epochs[slot := epochs[slot] + 1];
      live := live + 1;
      return Ok(Entity(slot, generation));
    }

    method TryDestroy(e: Entity) returns (r: bool)
      requires Valid()
      modifies this
      ensures Valid()
      ensures (View(), r) == Destroy(old(View()), e) && live == old(live) - if r then 1 else 0
    {
      DestroyRemovesOne(View(), e);
      if e.index >= |generations| || generations[e.index] != e.generation || e.index in free {
        return false;
      }
      assert forall i :: 0 <= i < |free| ==> free[i] in free;
      DistinctIsBounded(free + [e.index], |generations|);
      free := free + [e.index];
      live := live - 1;
      return true;
    }
  }
}
