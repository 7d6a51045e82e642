/** Sparse-set storage of one component type (src/kernel/ecs/storage.rs). */
module Storage {
  import opened Wrappers
  import opened Entities
  import opened Bitset

  /** Positions stay inside `dense`, no two slots share one, and every position has an owner. */
  ghost predicate Linked(sparse: seq<Option<nat>>, n: nat) {
    && (forall i :: 0 <= i < |sparse| && sparse[i].Some? ==> sparse[i].value < n)
    && (forall i, j :: 0 <= i < j < |sparse| && sparse[i].Some? ==> sparse[i] != sparse[j])
    && (forall p: nat :: p < n ==> Some(p) in sparse)
  }

  /** The component that a slot table holds for a handle. */
  function Find<V>(sparse: seq<Option<nat>>, generations: seq<nat>, dense: seq<V>, e: Entity): Option<V>
    requires |sparse| == |generations| && Linked(sparse, |dense|)
  {
    if e.index < |sparse| && generations[e.index] == e.generation && sparse[e.index].Some?
    then Some(dense[sparse[e.index].value]) else None
  }

  /** Entity index to dense position, generation at insertion, packed values, and the presence mask. */
  datatype Store<V> = Store(sparse: seq<Option<nat>>, generations: seq<nat>, dense: seq<V>, presence: seq<nat>)

  function EmptyStore<V>(): Store<V> { Store([], [], [], []) }

  predicate Present<V>(st: Store<V>, index: nat) {
    index < |st.sparse| && st.sparse[index].Some?
  }

  ghost predicate StoreOk<V>(st: Store<V>) {
    && |st.sparse| == |st.generations| && Linked(st.sparse, |st.dense|)
    && WordsOk(st.presence) && forall i: nat :: HasBit(st.presence, i) <==> Present(st, i)
  }

  /** The component of exactly this handle. */
  function Lookup<V>(st: Store<V>, e: Entity): Option<V>
    requires StoreOk(st)
  {
    Find(st.sparse, st.generations, st.dense, e)
  }

  /** The generation recorded where a component is present. */
  function GenerationAt<V>(st: Store<V>, index: nat): Option<nat>
    requires StoreOk(st)
  {
    if Present(st, index) then Some(st.generations[index]) else None
  }

  function EnsureIndex<V>(st: Store<V>, index: nat): (r: Store<V>)
    requires |st.sparse| == |st.generations|
    ensures |r.sparse| == |r.generations| && index < |r.sparse| && r.dense == st.dense && r.presence == st.presence
  {
    var additional := if |st.sparse| <= index then index + 1 - |st.sparse| else 0;
    st.(sparse := st.sparse + seq(additional, _ => None), generations := st.generations + seq(additional, _ => 0))
  }

  /** The insertion proper, once the slot index exists. */
  function Place<V>(st: Store<V>, e: Entity, v: V): Store<V>
    requires |st.sparse| == |st.generations| && Linked(st.sparse, |st.dense|) && e.index < |st.sparse|
  {
    var generations, presence := st.generations[e.index := e.generation], WithBit(Reserved(st.presence, e.index), e.index);
    match st.sparse[e.index]
    case Some(pos) => Store(st.sparse, generations, st.dense[pos := v], presence)
    case None => Store(st.sparse[e.index := Some(|st.dense|)], generations, st.dense + [v], presence)
  }

  /** Stores a component, replacing whatever occupies the handle's slot. */
  function Insert<V>(st: Store<V>, e: Entity, v: V): Store<V>
    requires StoreOk(st)
  {
    EnsureIndexLinks(st, e.index);
    Place(EnsureIndex(st, e.index), e, v)
  }

  lemma EnsureIndexLinks<V>(st: Store<V>, index: nat)
    requires |st.sparse| == |st.generations| && Linked(st.sparse, |st.dense|)
    ensures Linked(EnsureIndex(st, index).sparse, |st.dense|)
  {
    forall p: nat | p < |st.dense| ensures Some(p) in EnsureIndex(st, index).sparse {
      assert Some(p) in st.sparse;
    }
  }

  /** Overwrites in place what `get_mut` hands out. */
  function Update<V>(st: Store<V>, e: Entity, v: V): Store<V>
    requires StoreOk(st) && Lookup(st, e).Some?
  {
    st.(dense := st.dense[st.sparse[e.index].value := v])
  }

  /** The slot whose component sits at dense position `p`. */
  function Owner(sparse: seq<Option<nat>>, p: nat): (i: nat)
    requires Some(p) in sparse
    ensures i < |sparse| && sparse[i] == Some(p)
  {
    if sparse[0] == Some(p) then 0 else 1 + Owner(sparse[1..], p)
  }

  /** Takes the component of exactly this handle; the last dense entry fills the gap. */
  function Remove<V>(st: Store<V>, e: Entity): (Store<V>, Option<V>)
    requires StoreOk(st)
  {
    if Lookup(st, e).None? then (st, None)
    else
      var pos, last := st.sparse[e.index].value, |st.dense| - 1;
      var presence := WithoutBit(st.presence, e.index);
      assert Some(last) in st.sparse;
      var sparse := if pos == last then st.sparse else st.sparse[Owner(st.sparse, last) := Some(pos)];
      (Store(sparse[e.index := None], st.generations, st.dense[pos := st.dense[last]][..last], presence), Some(st.dense[pos]))
  }

  lemma EnsureIndexKeeps<V>(st: Store<V>, index: nat)
    requires StoreOk(st)
    ensures var r := EnsureIndex(st, index);
            && StoreOk(r) && (forall e :: Lookup(r, e) == Lookup(st, e)) && (forall i: nat :: Present(r, i) <==> Present(st, i))
            && (forall i: nat :: Present(st, i) ==> r.generations[i] == st.generations[i])
  {
    EnsureIndexLinks(st, index);
  }

  /** What one slot may answer after storing `v` for `e`. */
  ghost predicate StoredOne<V>(st: Store<V>, e: Entity, v: V, r: Store<V>) {
    && StoreOk(st) && StoreOk(r)
    && (forall f :: Lookup(r, f) == if f == e then Some(v) else if f.index == e.index then None else Lookup(st, f))
    && (forall i: nat :: Present(r, i) <==> i == e.index || Present(st, i))
    && e.index < |r.generations| && r.generations[e.index] == e.generation
    && (forall i: nat :: i != e.index && Present(st, i) ==> i < |r.generations| && r.generations[i] == st.generations[i])
  }

  lemma PlaceStoresOne<V>(st: Store<V>, e: Entity, v: V)
    requires StoreOk(st) && e.index < |st.sparse|
    ensures StoredOne(st, e, v, Place(st, e, v))
  {
    ReservedBits(st.presence, e.index);
    WithBitBits(Reserved(st.presence, e.index), e.index);
    if st.sparse[e.index].Some? {
      ReplaceKeepsOthers(st.sparse, st.generations, st.dense, e, v);
    } else {
      AppendKeepsOthers(st.sparse, st.generations, st.dense, e, v);
    }
  }

  /** After an insert the slot answers to this handle alone, and every other slot is as before. */
  lemma InsertStoresOne<V>(st: Store<V>, e: Entity, v: V)
    requires StoreOk(st)
    ensures StoredOne(st, e, v, Insert(st, e, v))
  {
    EnsureIndexKeeps(st, e.index);
    PlaceStoresOne(EnsureIndex(st, e.index), e, v);
    forall f ensures Lookup(Insert(st, e, v), f) == if f == e then Some(v) else if f.index == e.index then None else Lookup(st, f) {
      assert Lookup(EnsureIndex(st, e.index), f) == Lookup(st, f);
    }
  }

  lemma UpdateChangesOne<V>(st: Store<V>, e: Entity, v: V)
    requires StoreOk(st) && Lookup(st, e).Some?
    ensures var r := Update(st, e, v);
            && StoreOk(r) && (forall f :: Lookup(r, f) == if f == e then Some(v) else Lookup(st, f))
            && (forall i: nat :: Present(r, i) <==> Present(st, i)) && r.generations == st.generations
  {
    ReplaceKeepsOthers(st.sparse, st.generations, st.dense, e, v);
    assert st.generations[e.index := e.generation] == st.generations;
  }

  lemma SwapRemoveKeepsOthers<V>(s: seq<Option<nat>>, g: seq<nat>, d: seq<V>, index: nat)
    requires |s| == |g| && Linked(s, |d|) && index < |s| && s[index].Some?
    ensures var pos, last := s[index].value, |d| - 1;
            && Some(last) in s
            && var s' := (if pos == last then s else s[Owner(s, last) := Some(pos)])[index := None];
               Linked(s', last) && OthersKept(s, g, d, s', g, d[pos := d[last]][..last], index)
  {
    var pos, last := s[index].value, |d| - 1;
    assert Some(last) in s;
    if pos == last {
      PopKeepsOthers(s, g, d, index);
      assert d[pos := d[last]][..last] == d[..last];
    } else {
      SwapKeepsOthers(s, g, d, index, Owner(s, last));
    }
  }

  /** Which slots are occupied after a swap-remove: all but the emptied one. */
  lemma SwapRemovePresence<V>(st: Store<V>, e: Entity)
    requires StoreOk(st) && Lookup(st, e).Some?
    ensures forall i: nat :: Present(Remove(st, e).0, i) <==> i != e.index && Present(st, i)
  {
    assert Some(|st.dense| - 1) in st.sparse;
  }

  lemma RemoveKeepsOk<V>(st: Store<V>, e: Entity)
    requires StoreOk(st) && Lookup(st, e).Some?
    ensures var r := Remove(st, e).0; StoreOk(r) && r.generations == st.generations
  {
    WithoutBitBits(st.presence, e.index);
    SwapRemoveKeepsOthers(st.sparse, st.generations, st.dense, e.index);
    SwapRemovePresence(st, e);
  }

  lemma RemoveKeepsOther<V>(st: Store<V>, e: Entity, f: Entity)
    requires StoreOk(st) && Lookup(st, e).Some? && StoreOk(Remove(st, e).0)
    ensures Lookup(Remove(st, e).0, f) == if f == e then None else Lookup(st, f)
  {
    if f.index != e.index {
      SwapRemoveKeepsOthers(st.sparse, st.generations, st.dense, e.index);
    }
  }

  /** Removal takes exactly this handle's component; swap-remove moves no other. */
  lemma RemoveTakesOne<V>(st: Store<V>, e: Entity)
    requires StoreOk(st)
    ensures var (r, taken) := Remove(st, e);
            && StoreOk(r) && taken == Lookup(st, e)
            && (forall f :: Lookup(r, f) == if f == e then None else Lookup(st, f))
            && (forall i: nat :: Present(r, i) <==> Present(st, i) && !(taken.Some? && i == e.index))
            && r.generations == st.generations
  {
    if Lookup(st, e).Some? {
      RemoveKeepsOk(st, e);
      SwapRemovePresence(st, e);
      forall f: Entity ensures Lookup(Remove(st, e).0, f) == if f == e then None else Lookup(st, f) {
        RemoveKeepsOther(st, e, f);
      }
    }
  }

  method Position(s: seq<Option<nat>>, x: Option<nat>) returns (p: nat)
    requires x in s
    ensures p < |s| && s[p] == x
  {
    p := 0;
    while s[p] != x
      invariant p < |s| && x !in s[..p]
      decreases |s| - p
    {
      p := p + 1;
    }
  }

  ghost predicate OthersKept<V>(s: seq<Option<nat>>, g: seq<nat>, d: seq<V>, s': seq<Option<nat>>, g': seq<nat>, d': seq<V>, index: nat)
    requires |s| == |g| == |s'| == |g'| && Linked(s, |d|) && Linked(s', |d'|)
  {
    forall e: Entity :: e.index != index ==> Find(s', g', d', e) == Find(s, g, d, e)
  }

  lemma ReplaceKeepsOthers<V>(s: seq<Option<nat>>, g: seq<nat>, d: seq<V>, e: Entity, v: V)
    requires |s| == |g| && Linked(s, |d|) && e.index < |s| && s[e.index].Some?
    ensures OthersKept(s, g, d, s, g[e.index := e.generation], d[s[e.index].value := v], e.index)
  {
    forall f: Entity | f.index != e.index
      ensures Find(s, g[e.index := e.generation], d[s[e.index].value := v], f) == Find(s, g, d, f)
    {
      if f.index < |s| && s[f.index].Some? {
        if f.index < e.index { assert s[f.index] != s[e.index]; } else { assert s[e.index] != s[f.index]; }
      }
    }
  }

  lemma AppendKeepsOthers<V>(s: seq<Option<nat>>, g: seq<nat>, d: seq<V>, e: Entity, v: V)
    requires |s| == |g| && Linked(s, |d|) && e.index < |s| && s[e.index].None?
    ensures Linked(s[e.index := Some(|d|)], |d| + 1)
    ensures OthersKept(s, g, d, s[e.index := Some(|d|)], g[e.index := e.generation], d + [v], e.index)
  {
    var s' := s[e.index := Some(|d|)];
    forall p: nat | p < |d| + 1 ensures Some(p) in s' {
      if p == |d| {
        assert s'[e.index] == Some(p);
      } else {
        assert Some(p) in s;
        var i :| 0 <= i < |s| && s[i] == Some(p);
        assert s'[i] == Some(p);
      }
    }
  }

  /** The last dense entry moves into the gap and its owner's pointer follows. */
  lemma SwapKeepsOthers<V>(s: seq<Option<nat>>, g: seq<nat>, d: seq<V>, index: nat, moved: nat)
    requires |s| == |g| && Linked(s, |d|) && index < |s| && s[index].Some? && |d| > 0 && s[index].value != |d| - 1
    requires moved < |s| && s[moved] == Some(|d| - 1)
    ensures var pos, last := s[index].value, |d| - 1;
            && Linked(s[moved := Some(pos)][index := None], last)
            && OthersKept(s, g, d, s[moved := Some(pos)][index := None], g, d[pos := d[last]][..last], index)
  {
    var pos, last := s[index].value, |d| - 1;
    var s' := s[moved := Some(pos)][index := None];
    assert moved != index;
    forall i | 0 <= i < |s| && i != index && i != moved && s[i].Some? ensures s[i].value != pos && s[i].value != last {
      if i < index { assert s[i] != s[index]; } else { assert s[index] != s[i]; }
      if i < moved { assert s[i] != s[moved]; } else { assert s[moved] != s[i]; }
    }
    forall p: nat | p < last ensures Some(p) in s' {
      assert Some(p) in s;
      var i :| 0 <= i < |s| && s[i] == Some(p);
      assert s'[if p == pos then moved else i] == Some(p);
    }
  }

  lemma PopKeepsOthers<V>(s: seq<Option<nat>>, g: seq<nat>, d: seq<V>, index: nat)
    requires |s| == |g| && Linked(s, |d|) && index < |s| && |d| > 0 && s[index] == Some(|d| - 1)
    ensures Linked(s[index := None], |d| - 1)
    ensures OthersKept(s, g, d, s[index := None], g, d[..|d| - 1], index)
  {
    var s' := s[index := None];
    forall i | 0 <= i < |s| && i != index && s[i].Some? ensures s[i].value != |d| - 1 {
      if i < index { assert s[i] != s[index]; } else { assert s[index] != s[i]; }
    }
    forall p: nat | p < |d| - 1 ensures Some(p) in s' {
      assert Some(p) in s;
      var i :| 0 <= i < |s| && s[i] == Some(p);
      assert s'[i] == Some(p);
    }
  }

  /** The storage object. */
  class ComponentStorage<V> {
    var sparse: seq<Option<nat>>
    var generations: seq<nat>
    var dense: seq<V>
    const presence: Bitset

    constructor ()
      ensures Valid() && fresh(presence) && View() == EmptyStore()
    {
      sparse, generations, dense := [], [], [];
      presence := new Bitset();
    }

    ghost function View(): Store<V>
      reads this, presence
    {
      Store(sparse, generations, dense, presence.words)
    }

    ghost predicate Valid()
      reads this, presence
    {
      StoreOk(View())
    }

    method TryInsert(e: Entity, v: V)
      requires Valid()
      modifies this, presence
      ensures Valid() && View() == Insert(old(View()), e, v)
    {
      InsertStoresOne(View(), e, v);
      ReservedBits(presence.words, e.index);
      GrowTo(e.index);
      presence.Ensure(e.index);
      generations := generations[e.index := e.generation];
      match sparse[e.index] {
        case Some(pos) => dense := dense[pos := v];
        case None =>
          var pos := |dense|;
          dense := dense + [v];
          sparse := sparse[e.index := Some(pos)];
      }
      var added := presence.Set(e.index);
    }

    method GrowTo(index: nat)
      requires |sparse| == |generations| && Linked(sparse, |dense|)
      modifies `sparse, `generations
      ensures View() == EnsureIndex(old(View()), index) && Linked(sparse, |dense|)
    {
      EnsureIndexLinks(View(), index);
      if |sparse| <= index {
        var additional := index + 1 - |sparse|;
        sparse := sparse + seq(additional, _ => None);
        generations := generations + seq(additional, _ => 0);
      }
    }

    method TryRemove(e: Entity) returns (r: Option<V>)
      requires Valid()
      modifies this, presence
      ensures Valid() && (View(), r) == Remove(old(View()), e)
    {
      if e.index >= |sparse| || generations[e.index] != e.generation || sparse[e.index].None? {
        return None;
      }
      r := RemovePresent(e);
    }

    method RemovePresent(e: Entity) returns (r: Option<V>)
      requires Valid() && Lookup(View(), e).Some?
      modifies this, presence
      ensures Valid() && (View(), r) == Remove(old(View()), e)
    {
      ghost var removed := Remove(View(), e);
      RemoveKeepsOk(View(), e);
      r := TakeAt(e.index);
      var cleared := presence.Clear(e.index);
      assert View() == removed.0;
    }

    /** Swap-remove at an occupied slot. */
    method TakeAt(index: nat) returns (r: Option<V>)
      requires |sparse| == |generations| && Linked(sparse, |dense|) && index < |sparse| && sparse[index].Some?
      modifies `sparse, `dense
      ensures var pos, last := old(sparse)[index].value, |old(dense)| - 1;
              && Some(last) in old(sparse) && r == Some(old(dense)[pos])
              && dense == old(dense)[pos := old(dense)[last]][..last]
              && sparse == (if pos == last then old(sparse) else old(sparse)[Owner(old(sparse), last) := Some(pos)])[index := None]
    {
      var pos, last := sparse[index].value, |dense| - 1;
      r := Some(dense[pos]);
      assert Some(last) in sparse;
      if pos != last {
        var moved := Position(sparse, Some(last));
        OwnerIsUnique(sparse, |dense|, moved, last);
        sparse := sparse[moved := Some(pos)];
      }
      dense := dense[pos := dense[last]][..last];
      sparse := sparse[index := None];
    }

    method Get(e: Entity) returns (r: Option<V>)
      requires Valid()
      ensures r == Lookup(View(), e)
    {
      if e.index >= |sparse| || generations[e.index] != e.generation || sparse[e.index].None? {
        return None;
      }
      return Some(dense[sparse[e.index].value]);
    }
  }

  lemma OwnerIsUnique(sparse: seq<Option<nat>>, n: nat, i: nat, p: nat)
    requires Linked(sparse, n) && i < |sparse| && sparse[i] == Some(p)
    ensures Some(p) in sparse && Owner(sparse, p) == i
  {
    assert sparse[i] in sparse;
    var j := Owner(sparse, p);
  }
}
