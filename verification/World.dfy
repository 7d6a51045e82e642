/** The ECS world: entity table, component storages and queries (src/kernel/ecs/world.rs, query.rs). */
module World {
  import opened Wrappers
  import opened Entities
  import opened Bitset
  import opened Storage

  type TypeId = nat

  datatype WorldError = NoSlotLeft | EntityNotAlive

  /** What a world means: a plain map from component type and live handle to value. */
  type Contents<V> = map<(TypeId, Entity), V>

  ghost function Meaning<V>(contents: Contents<V>, t: TypeId, e: Entity): Option<V> {
    if (t, e) in contents then Some(contents[(t, e)]) else None
  }

  ghost predicate StoresOk<V>(slots: seq<Store<V>>, byType: map<TypeId, nat>) {
    && AllOk(slots)
    && (forall t :: t in byType ==> byType[t] < |slots|)
    && (forall t, u :: t in byType && u in byType && byType[t] == byType[u] ==> t == u)
  }

  ghost function Stored<V>(slots: seq<Store<V>>, byType: map<TypeId, nat>, t: TypeId, e: Entity): Option<V>
    requires StoresOk(slots, byType)
  {
    if t in byType then Lookup(slots[byType[t]], e) else None
  }

  /** The storages say exactly what `contents` says. */
  ghost predicate Refines<V>(slots: seq<Store<V>>, byType: map<TypeId, nat>, contents: Contents<V>)
    requires StoresOk(slots, byType)
  {
    forall t, e :: Stored(slots, byType, t, e) == Meaning(contents, t, e)
  }

  /** Every stored component belongs to the handle that occupies its slot now. */
  ghost predicate Owned<V>(table: Table, st: Store<V>) {
    forall i: nat :: Present(st, i) ==>
      Occupied(table, i) && i < |st.generations| && st.generations[i] == table.generations[i]
  }

  ghost predicate AliveBits(alive: seq<nat>, table: Table) {
    WordsOk(alive) && forall i: nat :: HasBit(alive, i) <==> Occupied(table, i)
  }

  function Without<V>(contents: Contents<V>, e: Entity): Contents<V> {
    map k | k in contents && k.1 != e :: contents[k]
  }

  ghost predicate AllOk<V>(slots: seq<Store<V>>) {
    forall k :: 0 <= k < |slots| ==> StoreOk(slots[k])
  }

  ghost function RemovedFromAll<V>(slots: seq<Store<V>>, e: Entity): (r: seq<Store<V>>)
    requires AllOk(slots)
    ensures |r| == |slots| && forall k :: 0 <= k < |slots| ==> r[k] == Storage.Remove(slots[k], e).0
  {
    seq(|slots|, k requires 0 <= k < |slots| => Storage.Remove(slots[k], e).0)
  }

  ghost predicate AllOwned<V>(table: Table, slots: seq<Store<V>>) {
    forall k :: 0 <= k < |slots| ==> Owned(table, slots[k])
  }

  class World<V> {
    var table: Table
    var alive: seq<nat>
    var slots: seq<Store<V>>
    var byType: map<TypeId, nat>
    ghost var contents: Contents<V>

    ghost predicate Valid()
      reads this
    {
      && TableOk(table) && AliveBits(alive, table)
      && StoresOk(slots, byType) && AllOwned(table, slots)
      && Refines(slots, byType, contents)
    }

    constructor ()
      ensures Valid() && contents == map[] && forall e :: !IsAlive(table, e)
    {
      table, alive, slots, byType, contents := Table([], [], []), [], [], map[], map[];
    }

    /** Only live handles have components. */
    lemma ContentsAreAlive()
      requires Valid()
      ensures forall t, e :: (t, e) in contents ==> IsAlive(table, e)
    {
      forall t, e | (t, e) in contents ensures IsAlive(table, e) {
        assert Stored(slots, byType, t, e) == Meaning(contents, t, e);
        assert Present(slots[byType[t]], e.index);
      }
    }

    /** A new live handle that owns nothing yet; all other handles keep their state. */
    method TrySpawn() returns (r: Result<Entity, WorldError>)
      requires Valid()
      modifies `table, `alive
      ensures Valid()
      ensures table == After(old(table), CreateOp) && r.Ok? == Create(old(table)).Ok? && (r.Ok? ==> r.value == Create(old(table)).value.1)
      ensures r.Ok? ==> !old(IsAlive(table, r.value)) && forall t :: (t, r.value) !in contents
      ensures forall e :: IsAlive(table, e) <==> (r.Ok? && e == r.value) || old(IsAlive(table, e))
    {
      ContentsAreAlive();
      AliveAfterReserve(alive, table);
      alive := Reserved(alive, |table.generations| + 1);
      var created := Create(table);
      if created.Err? {
        return Err(NoSlotLeft);
      }
      CreateAddsOne(table);
      CreateKeepsOwned(table, slots);
      AliveAfterCreate(alive, table);
      table := created.value.0;
      alive := WithBit(alive, created.value.1.index);
      return Ok(created.value.1);
    }

    /** Removes a live handle and all of its components; a dead handle changes nothing. */
    method TryDespawn(e: Entity) returns (r: bool)
      requires Valid()
      modifies this
      ensures Valid() && r == old(IsAlive(table, e)) && table == After(old(table), DestroyOp(e))
      ensures forall f :: IsAlive(table, f) <==> f != e && old(IsAlive(table, f))
      ensures contents == Without(old(contents), e)
    {
      ContentsAreAlive();
      DestroyRemovesOne(table, e);
      var (next, removed) := Destroy(table, e);
      if removed {
        AliveAfterDestroy(alive, table, e);
        DespawnKeepsOwned(table, slots, e);
        DespawnKeepsMeaning(slots, byType, contents, e);
        alive := WithoutBit(alive, e.index);
        RemoveFromAll(e);
        contents := Without(contents, e);
      } else {
        assert Without(contents, e) == contents;
      }
      table := next;
      return removed;
    }

    /** The loop over all storages. */
    method RemoveFromAll(e: Entity)
      requires AllOk(slots)
      modifies `slots
      ensures slots == RemovedFromAll(old(slots), e)
    {
      for k := 0 to |slots|
        invariant |slots| == |old(slots)|
        invariant forall j :: 0 <= j < |slots| ==> slots[j] == if j < k then Storage.Remove(old(slots)[j], e).0 else old(slots)[j]
      {
        slots := slots[k := Storage.Remove(slots[k], e).0];
      }
    }

    /** The storage slot of a component type, created on first use. */
    method RegisterComponent(t: TypeId) returns (slot: nat)
      requires Valid()
      modifies `slots, `byType
      ensures Valid() && t in byType && byType[t] == slot
    {
      if t in byType {
        return byType[t];
      }
      slot := |slots|;
      NewStorageMeansNothing(slots, byType, contents, t);
      slots := slots + [EmptyStore()];
      byType := byType[t := slot];
    }

    /** Stores a component for a live handle. */
    method TryInsert(t: TypeId, e: Entity, v: V) returns (r: Result<(), WorldError>)
      requires Valid()
      modifies `slots, `byType, `contents
      ensures Valid()
      ensures r == if IsAlive(table, e) then Ok(()) else Err(EntityNotAlive)
      ensures contents == if r.Ok? then old(contents)[(t, e) := v] else old(contents)
    {
      if !IsAlive(table, e) {
        return Err(EntityNotAlive);
      }
      var slot := RegisterComponent(t);
      ContentsAreAlive();
      InsertStoresOne(slots[slot], e, v);
      InsertKeepsMeaning(slots, byType, contents, t, e, v);
      slots := slots[slot := Storage.Insert(slots[slot], e, v)];
      contents := contents[(t, e) := v];
      return Ok(());
    }

    /** What is stored for exactly this handle; a handle with a component is alive. */
    method Get(t: TypeId, e: Entity) returns (r: Option<V>)
      requires Valid()
      ensures r == Meaning(contents, t, e) && (r.Some? ==> IsAlive(table, e))
    {
      ContentsAreAlive();
      assert Stored(slots, byType, t, e) == Meaning(contents, t, e);
      if t !in byType {
        return None;
      }
      return Lookup(slots[byType[t]], e);
    }

    /** Takes what is stored for exactly this handle. */
    method Remove(t: TypeId, e: Entity) returns (r: Option<V>)
      requires Valid()
      modifies `slots, `contents
      ensures Valid() && r == Meaning(old(contents), t, e)
      ensures contents == old(contents) - {(t, e)}
    {
      assert Stored(slots, byType, t, e) == Meaning(contents, t, e);
      if t !in byType {
        return None;
      }
      var slot := byType[t];
      RemoveTakesOne(slots[slot], e);
      RemoveKeepsMeaning(slots, byType, contents, t, e);
      var (st, taken) := Storage.Remove(slots[slot], e);
      slots := slots[slot := st];
      contents := contents - {(t, e)};
      return taken;
    }

    /** The handle that occupies a slot now. */
    function HandleAt(index: nat): Entity
      requires index < |table.generations|
      reads this
    {
      Entity(index, table.generations[index])
    }

    /** Visits exactly the live handles, in ascending slot order. */
    method ForEachEntity() returns (visited: seq<Entity>)
      requires Valid()
      ensures forall e :: e in visited <==> IsAlive(table, e)
      ensures forall i, j :: 0 <= i < j < |visited| ==> visited[i].index < visited[j].index
    {
      var ones := CollectOnes(alive);
      assert forall k :: 0 <= k < |ones| ==> ones[k] in ones;
      visited := [];
      for k := 0 to |ones|
        invariant |visited| == k && forall i :: 0 <= i < k ==> visited[i] == HandleAt(ones[i])
      {
        visited := visited + [HandleAt(ones[k])];
      }
      forall e ensures e in visited <==> IsAlive(table, e) {
        if IsAlive(table, e) {
          assert e.index in ones;
          var k :| 0 <= k < |ones| && ones[k] == e.index;
          assert visited[k] == e;
        }
      }
    }

    /** The slots whose occupants hold both components, ascending. */
    method CollectIntersection(ta: TypeId, tb: TypeId) returns (out: seq<nat>)
      requires Valid()
      ensures Ascending(out)
      ensures forall i: nat :: i in out <==> i < |table.generations| && (ta, HandleAt(i)) in contents && (tb, HandleAt(i)) in contents
    {
      if ta !in byType || tb !in byType {
        forall i: nat | i < |table.generations| ensures (ta, HandleAt(i)) !in contents || (tb, HandleAt(i)) !in contents {
          assert Stored(slots, byType, ta, HandleAt(i)) == Meaning(contents, ta, HandleAt(i));
          assert Stored(slots, byType, tb, HandleAt(i)) == Meaning(contents, tb, HandleAt(i));
        }
        return [];
      }
      var a, b := slots[byType[ta]], slots[byType[tb]];
      MeetBits(a.presence, b.presence);
      out := CollectOnes(Meet(a.presence, b.presence));
      forall i: nat ensures i in out <==> i < |table.generations| && (ta, HandleAt(i)) in contents && (tb, HandleAt(i)) in contents {
        OccupantAnswers(ta, i);
        OccupantAnswers(tb, i);
      }
    }

    /** Runs `f` in place on both components of every candidate slot whose occupant holds them, in order. */
    method PairForEach(ta: TypeId, tb: TypeId, candidates: seq<nat>, f: (Entity, V, V) -> (V, V)) returns (r: Option<seq<Entity>>)
      requires Valid()
      modifies `slots, `contents
      ensures Valid()
      ensures r.None? <==> ta !in byType || tb !in byType || ta == tb
      ensures r.None? ==> contents == old(contents)
      ensures r.Some? ==> r.value == Matches(table, old(contents), ta, tb, candidates)
                          && contents == PairFold(old(contents), ta, tb, r.value, f)
      ensures r.Some? && Ascending(candidates) ==> ResultsStored(table, old(contents), contents, ta, tb, candidates, f)
    {
      if ta !in byType || tb !in byType || byType[ta] == byType[tb] {
        return None;
      }
      var visited := [];
      for k := 0 to |candidates|
        invariant Valid() && byType == old(byType)
        invariant visited == Matches(table, old(contents), ta, tb, candidates[..k])
        invariant contents == PairFold(old(contents), ta, tb, visited, f)
        invariant contents.Keys == old(contents).Keys
      {
        assert candidates[..k + 1][..k] == candidates[..k];
        var hit := VisitOne(ta, tb, candidates[k], f);
        if hit {
          FoldOneMore(old(contents), ta, tb, visited, HandleAt(candidates[k]), f);
          visited := visited + [HandleAt(candidates[k])];
        }
      }
      assert candidates[..|candidates|] == candidates;
      if Ascending(candidates) { QueryStoresExactly(table, old(contents), ta, tb, candidates, f); }
      return Some(visited);
    }

    /** One candidate of the query loop. */
    method VisitOne(ta: TypeId, tb: TypeId, index: nat, f: (Entity, V, V) -> (V, V)) returns (hit: bool)
      requires Valid() && ta in byType && tb in byType && ta != tb
      modifies `slots, `contents
      ensures Valid()
      ensures hit <==> index < |table.generations| && (ta, HandleAt(index)) in old(contents) && (tb, HandleAt(index)) in old(contents)
      ensures contents == if hit then PairStep(old(contents), ta, tb, HandleAt(index), f) else old(contents)
    {
      var ia, ib := byType[ta], byType[tb];
      OccupantAnswers(ta, index);
      OccupantAnswers(tb, index);
      var generation := GenerationAt(slots[ia], index);
      if generation.None? {
        return false;
      }
      var e := Entity(index, generation.value);
      var a, b := Lookup(slots[ia], e), Lookup(slots[ib], e);
      if b.None? {
        return false;
      }
      var (a', b') := f(e, a.value, b.value);
      UpdateKeepsWorld(table, slots, byType, contents, ta, e, a');
      slots := slots[ia := Update(slots[ia], e, a')];
      contents := contents[(ta, e) := a'];
      UpdateKeepsWorld(table, slots, byType, contents, tb, e, b');
      slots := slots[ib := Update(slots[ib], e, b')];
      contents := contents[(tb, e) := b'];
      return true;
    }

    /** The storage of a type answers at a slot exactly for the slot's occupant. */
    lemma OccupantAnswers(t: TypeId, index: nat)
      requires Valid() && t in byType
      ensures var st := slots[byType[t]];
              && (Present(st, index) <==> index < |table.generations| && (t, HandleAt(index)) in contents)
              && (Present(st, index) ==> GenerationAt(st, index) == Some(HandleAt(index).generation)
                                         && Lookup(st, HandleAt(index)) == Some(contents[(t, HandleAt(index))]))
    {
      assert Owned(table, slots[byType[t]]);
      if index < |table.generations| {
        assert Stored(slots, byType, t, HandleAt(index)) == Meaning(contents, t, HandleAt(index));
      }
    }
  }

  /** The occupants of the candidate slots that hold both components, in candidate order. */
  function Matches<V>(table: Table, contents: Contents<V>, ta: TypeId, tb: TypeId, candidates: seq<nat>): seq<Entity> {
    if candidates == [] then []
    else
      var before, index := Matches(table, contents, ta, tb, candidates[..|candidates| - 1]), candidates[|candidates| - 1];
      if index < |table.generations| && (ta, Entity(index, table.generations[index])) in contents
         && (tb, Entity(index, table.generations[index])) in contents
      then before + [Entity(index, table.generations[index])] else before
  }

  /** Both components of `e` replaced by what `f` makes of them. */
  function PairStep<V>(contents: Contents<V>, ta: TypeId, tb: TypeId, e: Entity, f: (Entity, V, V) -> (V, V)): Contents<V> {
    if (ta, e) in contents && (tb, e) in contents then
      var (a, b) := f(e, contents[(ta, e)], contents[(tb, e)]);
      contents[(ta, e) := a][(tb, e) := b]
    else contents
  }

  /** `f` applied to each visited handle in turn. */
  function PairFold<V>(contents: Contents<V>, ta: TypeId, tb: TypeId, visited: seq<Entity>, f: (Entity, V, V) -> (V, V)): Contents<V> {
    if visited == [] then contents
    else PairStep(PairFold(contents, ta, tb, visited[..|visited| - 1], f), ta, tb, visited[|visited| - 1], f)
  }

  lemma FoldOneMore<V>(contents: Contents<V>, ta: TypeId, tb: TypeId, visited: seq<Entity>, e: Entity, f: (Entity, V, V) -> (V, V))
    ensures PairFold(contents, ta, tb, visited + [e], f) == PairStep(PairFold(contents, ta, tb, visited, f), ta, tb, e, f)
  {
    assert (visited + [e])[..|visited|] == visited;
  }

  /** Over the collected intersection a query visits exactly the live handles holding both components, once each, ascending. */
  lemma {:induction false} QueryVisitsExactly<V>(table: Table, contents: Contents<V>, ta: TypeId, tb: TypeId, candidates: seq<nat>)
    requires Ascending(candidates)
    ensures var visited := Matches(table, contents, ta, tb, candidates);
            && (forall i, j :: 0 <= i < j < |visited| ==> visited[i].index < visited[j].index)
            && (forall e: Entity :: e in visited <==>
                  e.index in candidates && e.index < |table.generations| && e.generation == table.generations[e.index]
                  && (ta, e) in contents && (tb, e) in contents)
  {
    if candidates != [] {
      var n := |candidates| - 1;
      QueryVisitsExactly(table, contents, ta, tb, candidates[..n]);
      var before := Matches(table, contents, ta, tb, candidates[..n]);
      assert candidates == candidates[..n] + [candidates[n]];
      forall i | 0 <= i < |before| ensures before[i].index < candidates[n] {
        assert before[i] in before;
      }
    }
  }

  /** The candidate slot's present occupant holds both components. */
  ghost predicate HoldsBoth<V>(table: Table, contents: Contents<V>, ta: TypeId, tb: TypeId, candidates: seq<nat>, e: Entity) {
    && e.index in candidates && e.index < |table.generations| && e.generation == table.generations[e.index]
    && (ta, e) in contents && (tb, e) in contents
  }

  /**
    * What a query leaves: each matching handle's first component is the visitor's first result and its second one the
    * second, both made from the two values before the query, and no other component of anybody has changed.
    */
  ghost predicate ResultsStored<V>(table: Table, before: Contents<V>, after: Contents<V>, ta: TypeId, tb: TypeId, candidates: seq<nat>,
                                   f: (Entity, V, V) -> (V, V)) {
    && after.Keys == before.Keys
    && (forall e :: HoldsBoth(table, before, ta, tb, candidates, e) ==>
          && after[(ta, e)] == f(e, before[(ta, e)], before[(tb, e)]).0
          && after[(tb, e)] == f(e, before[(ta, e)], before[(tb, e)]).1)
    && (forall t, e :: (t, e) in before && !(t in {ta, tb} && HoldsBoth(table, before, ta, tb, candidates, e)) ==>
          after[(t, e)] == before[(t, e)])
  }

  /** The same for a list of different handles that hold both. */
  lemma {:induction false} FoldStores<V>(contents: Contents<V>, ta: TypeId, tb: TypeId, visited: seq<Entity>, f: (Entity, V, V) -> (V, V))
    requires ta != tb && (forall i, j :: 0 <= i < j < |visited| ==> visited[i] != visited[j])
    requires forall e :: e in visited ==> (ta, e) in contents && (tb, e) in contents
    ensures var after := PairFold(contents, ta, tb, visited, f);
      && after.Keys == contents.Keys
      && (forall e :: e in visited ==>
            && after[(ta, e)] == f(e, contents[(ta, e)], contents[(tb, e)]).0
            && after[(tb, e)] == f(e, contents[(ta, e)], contents[(tb, e)]).1)
      && (forall t, e :: (t, e) in contents && !(t in {ta, tb} && e in visited) ==> after[(t, e)] == contents[(t, e)])
  {
    if visited != [] {
      var n := |visited| - 1;
      FoldStores(contents, ta, tb, visited[..n], f);
      assert visited == visited[..n] + [visited[n]];
      assert visited[n] !in visited[..n];
    }
  }

  /** Over rising candidates a query stores each result where it belongs and changes nothing else. */
  lemma QueryStoresExactly<V>(table: Table, contents: Contents<V>, ta: TypeId, tb: TypeId, candidates: seq<nat>, f: (Entity, V, V) -> (V, V))
    requires ta != tb && Ascending(candidates)
    ensures ResultsStored(table, contents, PairFold(contents, ta, tb, Matches(table, contents, ta, tb, candidates), f), ta, tb, candidates, f)
  {
    var visited := Matches(table, contents, ta, tb, candidates);
    QueryVisitsExactly(table, contents, ta, tb, candidates);
    assert forall e :: e in visited <==> HoldsBoth(table, contents, ta, tb, candidates, e);
    FoldStores(contents, ta, tb, visited, f);
  }

  lemma UpdateKeepsWorld<V>(table: Table, slots: seq<Store<V>>, byType: map<TypeId, nat>, contents: Contents<V>, t: TypeId, e: Entity, v: V)
    requires StoresOk(slots, byType) && Refines(slots, byType, contents) && AllOwned(table, slots)
    requires t in byType && Lookup(slots[byType[t]], e).Some?
    ensures var slots' := slots[byType[t] := Update(slots[byType[t]], e, v)];
            StoresOk(slots', byType) && Refines(slots', byType, contents[(t, e) := v]) && AllOwned(table, slots')
  {
    var slots' := slots[byType[t] := Update(slots[byType[t]], e, v)];
    UpdateChangesOne(slots[byType[t]], e, v);
    forall u, f ensures Stored(slots', byType, u, f) == Meaning(contents[(t, e) := v], u, f) {
      assert Stored(slots, byType, u, f) == Meaning(contents, u, f);
    }
    assert Owned(table, slots[byType[t]]);
  }

  lemma AliveAfterReserve(alive: seq<nat>, table: Table)
    requires AliveBits(alive, table)
    ensures AliveBits(Reserved(alive, |table.generations| + 1), table)
  {
    ReservedBits(alive, |table.generations| + 1);
  }

  lemma AliveAfterCreate(alive: seq<nat>, table: Table)
    requires AliveBits(alive, table) && TableOk(table) && Create(table).Ok?
    ensures AliveBits(WithBit(alive, Create(table).value.1.index), Create(table).value.0)
  {
    CreateAddsOne(table);
    WithBitBits(alive, Create(table).value.1.index);
  }

  lemma AliveAfterDestroy(alive: seq<nat>, table: Table, e: Entity)
    requires AliveBits(alive, table) && TableOk(table) && IsAlive(table, e)
    ensures AliveBits(WithoutBit(alive, e.index), Destroy(table, e).0)
  {
    DestroyRemovesOne(table, e);
    WithoutBitBits(alive, e.index);
  }

  lemma CreateKeepsOwned<V>(table: Table, slots: seq<Store<V>>)
    requires TableOk(table) && Create(table).Ok? && AllOwned(table, slots)
    ensures AllOwned(Create(table).value.0, slots)
  {
    CreateAddsOne(table);
  }

  lemma DespawnKeepsOwned<V>(table: Table, slots: seq<Store<V>>, e: Entity)
    requires TableOk(table) && IsAlive(table, e) && AllOk(slots) && AllOwned(table, slots)
    ensures AllOwned(Destroy(table, e).0, RemovedFromAll(slots, e))
  {
    DestroyRemovesOne(table, e);
    forall k | 0 <= k < |slots| ensures Owned(Destroy(table, e).0, Storage.Remove(slots[k], e).0) {
      assert Owned(table, slots[k]);
      assert Present(slots[k], e.index) ==> Lookup(slots[k], e).Some?;
      RemoveTakesOne(slots[k], e);
      var st := Storage.Remove(slots[k], e).0;
      forall i: nat | Present(st, i) ensures Occupied(Destroy(table, e).0, i) && i < |st.generations| && st.generations[i] == table.generations[i] {
        assert Present(slots[k], i);
      }
    }
  }

  lemma DespawnKeepsMeaning<V>(slots: seq<Store<V>>, byType: map<TypeId, nat>, contents: Contents<V>, e: Entity)
    requires StoresOk(slots, byType) && Refines(slots, byType, contents)
    ensures StoresOk(RemovedFromAll(slots, e), byType) && Refines(RemovedFromAll(slots, e), byType, Without(contents, e))
  {
    var slots' := RemovedFromAll(slots, e);
    forall k | 0 <= k < |slots| ensures StoreOk(slots'[k]) {
      RemoveTakesOne(slots[k], e);
    }
    forall t, f ensures Stored(slots', byType, t, f) == Meaning(Without(contents, e), t, f) {
      assert Stored(slots, byType, t, f) == Meaning(contents, t, f);
      if t in byType { RemoveTakesOne(slots[byType[t]], e); }
    }
  }

  lemma NewStorageMeansNothing<V>(slots: seq<Store<V>>, byType: map<TypeId, nat>, contents: Contents<V>, t: TypeId)
    requires StoresOk(slots, byType) && Refines(slots, byType, contents) && t !in byType
    ensures var slots', byType' := slots + [EmptyStore<V>()], byType[t := |slots|];
            StoresOk(slots', byType') && Refines(slots', byType', contents)
  {
    var slots', byType' := slots + [EmptyStore<V>()], byType[t := |slots|];
    forall u, f ensures Stored(slots', byType', u, f) == Meaning(contents, u, f) {
      assert Stored(slots, byType, u, f) == Meaning(contents, u, f);
    }
  }

  lemma InsertKeepsMeaning<V>(slots: seq<Store<V>>, byType: map<TypeId, nat>, contents: Contents<V>, t: TypeId, e: Entity, v: V)
    requires StoresOk(slots, byType) && Refines(slots, byType, contents) && t in byType
    requires forall f: Entity :: f.index == e.index && f != e ==> (t, f) !in contents
    ensures var slots' := slots[byType[t] := Storage.Insert(slots[byType[t]], e, v)];
            StoresOk(slots', byType) && Refines(slots', byType, contents[(t, e) := v])
  {
    var slots' := slots[byType[t] := Storage.Insert(slots[byType[t]], e, v)];
    InsertStoresOne(slots[byType[t]], e, v);
    forall u, f ensures Stored(slots', byType, u, f) == Meaning(contents[(t, e) := v], u, f) {
      assert Stored(slots, byType, u, f) == Meaning(contents, u, f);
    }
  }

  lemma RemoveKeepsMeaning<V>(slots: seq<Store<V>>, byType: map<TypeId, nat>, contents: Contents<V>, t: TypeId, e: Entity)
    requires StoresOk(slots, byType) && Refines(slots, byType, contents) && t in byType
    ensures var slots' := slots[byType[t] := Storage.Remove(slots[byType[t]], e).0];
            StoresOk(slots', byType) && Refines(slots', byType, contents - {(t, e)})
  {
    var slots' := slots[byType[t] := Storage.Remove(slots[byType[t]], e).0];
    RemoveTakesOne(slots[byType[t]], e);
    forall u, f ensures Stored(slots', byType, u, f) == Meaning(contents - {(t, e)}, u, f) {
      assert Stored(slots, byType, u, f) == Meaning(contents, u, f);
    }
  }
}
