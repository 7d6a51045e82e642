/** Sorting render instances into draw batches and preparing them for upload (src/subsystems/renderer.rs). */
module RenderManifest {
  import opened Wrappers

  /** A drawn entity; everything the batches do not look at is its payload. */
  datatype Instance = Instance(mesh: nat, material: nat, index: nat, generation: nat, payload: int)

  datatype Batch = Batch(mesh: nat, material: nat, first: nat, count: nat)

  datatype ManifestError = CapacityExceeded | IndexOverflow
  datatype PreparationError = TooMany | Overflow | InvalidRange

  const U32: nat := 0x1_0000_0000

  // ---- The sort key ----

  /** Mesh, material, entity index, generation. */
  function Key(a: Instance): (nat, nat, nat, nat) { (a.mesh, a.material, a.index, a.generation) }

  predicate KeyLess(a: Instance, b: Instance) {
    || a.mesh < b.mesh
    || (a.mesh == b.mesh && a.material < b.material)
    || (a.mesh == b.mesh && a.material == b.material && a.index < b.index)
    || (a.mesh == b.mesh && a.material == b.material && a.index == b.index && a.generation < b.generation)
  }

  predicate KeyAtMost(a: Instance, b: Instance) { !KeyLess(b, a) }

  lemma KeysOrder(a: Instance, b: Instance, c: Instance)
    ensures KeyAtMost(a, b) && KeyAtMost(b, c) ==> KeyAtMost(a, c)
    ensures KeyAtMost(a, b) && KeyAtMost(b, a) ==> Key(a) == Key(b)
    ensures KeyAtMost(a, b) || KeyAtMost(b, a)
  {
  }

  ghost predicate Sorted(s: seq<Instance>) {
    forall i, j :: 0 <= i < j < |s| ==> KeyAtMost(s[i], s[j])
  }

  function Insert(a: Instance, s: seq<Instance>): seq<Instance> {
    if s == [] || KeyAtMost(a, s[0]) then [a] + s else [s[0]] + Insert(a, s[1..])
  }

  function SortByKey(s: seq<Instance>): seq<Instance> {
    if s == [] then [] else Insert(s[0], SortByKey(s[1..]))
  }

  lemma {:induction false} InsertKeeps(a: Instance, s: seq<Instance>)
    requires Sorted(s)
    ensures Sorted(Insert(a, s)) && multiset(Insert(a, s)) == multiset(s) + multiset{a}
  {
    if s == [] {
    } else if KeyAtMost(a, s[0]) {
      forall j | 0 <= j < |s| ensures KeyAtMost(a, s[j]) {
        KeysOrder(a, s[0], s[j]);
      }
    } else {
      var rest := Insert(a, s[1..]);
      InsertKeeps(a, s[1..]);
      assert s == [s[0]] + s[1..];
      forall j | 0 <= j < |rest| ensures KeyAtMost(s[0], rest[j]) {
        assert rest[j] in multiset(rest);
        KeysOrder(s[0], a, a);
      }
    }
  }

  /** The sort gives a sorted permutation. */
  lemma {:induction false} SortKeeps(s: seq<Instance>)
    ensures Sorted(SortByKey(s)) && multiset(SortByKey(s)) == multiset(s)
  {
    if s != [] {
      SortKeeps(s[1..]);
      InsertKeeps(s[0], SortByKey(s[1..]));
      assert s == [s[0]] + s[1..];
    }
  }

  /** No entity twice, so no key twice. */
  ghost predicate DistinctEntities(s: seq<Instance>) {
    forall i, j :: 0 <= i < j < |s| ==> s[i].index != s[j].index || s[i].generation != s[j].generation
  }

  ghost predicate DistinctIn(m: multiset<Instance>) {
    && (forall a :: a in m ==> m[a] == 1)
    && forall a, b :: a in m && b in m && Key(a) == Key(b) ==> a == b
  }

  lemma AddDistinct(m: multiset<Instance>, last: Instance)
    requires DistinctIn(m) && forall a :: a in m ==> Key(a) != Key(last)
    ensures DistinctIn(m + multiset{last})
  {
  }

  lemma {:induction false} EntitiesGiveKeys(s: seq<Instance>)
    requires DistinctEntities(s)
    ensures DistinctIn(multiset(s))
  {
    if s != [] {
      var before, last := s[..|s| - 1], s[|s| - 1];
      EntitiesGiveKeys(before);
      forall a | a in multiset(before) ensures Key(a) != Key(last) {
        var i :| 0 <= i < |before| && before[i] == a;
        assert s[i] == a;
      }
      AddDistinct(multiset(before), last);
      assert s == before + [last];
    }
  }

  /** With distinct keys a sorted arrangement is unique, whatever the sort and whatever the order before. */
  lemma {:induction false} SortedIsUnique(s: seq<Instance>, t: seq<Instance>)
    requires Sorted(s) && Sorted(t) && multiset(s) == multiset(t) && DistinctIn(multiset(s))
    ensures s == t
  {
    assert |s| == |multiset(s)| == |multiset(t)| == |t|;
    if s != [] {
      assert s[0] in multiset(t) && t[0] in multiset(s);
      var i :| 0 <= i < |t| && t[i] == s[0];
      var j :| 0 <= j < |s| && s[j] == t[0];
      KeysOrder(s[0], t[0], s[0]);
      assert KeyAtMost(s[0], t[0]) && KeyAtMost(t[0], s[0]);
      assert s[0] == t[0];
      TailsAgree(s, t);
      SortedIsUnique(s[1..], t[1..]);
    }
  }

  lemma TailsAgree(s: seq<Instance>, t: seq<Instance>)
    requires s != [] && t != [] && s[0] == t[0] && multiset(s) == multiset(t) && DistinctIn(multiset(s))
    ensures multiset(s[1..]) == multiset(t[1..]) && DistinctIn(multiset(s[1..]))
  {
    assert s == [s[0]] + s[1..] && t == [t[0]] + t[1..];
    assert multiset(s[1..]) == multiset(s) - multiset{s[0]};
    assert multiset(t[1..]) == multiset(t) - multiset{t[0]};
  }

  // ---- Runs of equal mesh and material ----

  predicate SameGroup(a: Instance, b: Instance) { a.mesh == b.mesh && a.material == b.material }

  /** Where the run that `start` begins ends. */
  function RunEnd(s: seq<Instance>, start: nat, end: nat): (r: nat)
    requires start < end <= |s|
    ensures end <= r <= |s|
    decreases |s| - end
  {
    if end < |s| && SameGroup(s[end], s[start]) then RunEnd(s, start, end + 1) else end
  }

  function Batches(s: seq<Instance>, start: nat): seq<Batch>
    requires start <= |s|
    decreases |s| - start
  {
    if start == |s| then []
    else
      var end := RunEnd(s, start, start + 1);
      [Batch(s[start].mesh, s[start].material, start, end - start)] + Batches(s, end)
  }

  /** A batch is a maximal run: all its instances share its mesh and material, and the one after does not. */
  ghost predicate IsRun(s: seq<Instance>, b: Batch) {
    && 0 < b.count && b.first + b.count <= |s|
    && (forall i :: b.first <= i < b.first + b.count ==> s[i].mesh == b.mesh && s[i].material == b.material)
    && (b.first + b.count < |s| ==> s[b.first + b.count].mesh != b.mesh || s[b.first + b.count].material != b.material)
  }

  /** Batches that tile the instances from `start` on. */
  ghost predicate TilesFrom(bs: seq<Batch>, start: nat, n: nat)
    decreases |bs|
  {
    if bs == [] then start == n
    else bs[0].first == start && TilesFrom(bs[1..], bs[0].first + bs[0].count, n)
  }

  lemma {:induction false} RunHolds(s: seq<Instance>, start: nat, end: nat)
    requires start < end <= |s| && forall i :: start <= i < end ==> SameGroup(s[i], s[start])
    ensures var r := RunEnd(s, start, end);
      && (forall i :: start <= i < r ==> SameGroup(s[i], s[start]))
      && (r < |s| ==> !SameGroup(s[r], s[start]))
    decreases |s| - end
  {
    if end < |s| && SameGroup(s[end], s[start]) { RunHolds(s, start, end + 1); }
  }

  /** The batches are the maximal runs of equal keys and tile the instances. */
  lemma {:induction false} BatchesAreRuns(s: seq<Instance>, start: nat)
    requires start <= |s|
    ensures TilesFrom(Batches(s, start), start, |s|)
    ensures forall k :: 0 <= k < |Batches(s, start)| ==> IsRun(s, Batches(s, start)[k]) && start <= Batches(s, start)[k].first
    decreases |s| - start
  {
    if start < |s| {
      RunHolds(s, start, start + 1);
      BatchesAreRuns(s, RunEnd(s, start, start + 1));
    }
  }

  predicate GroupLess(a: Batch, b: Batch) { a.mesh < b.mesh || (a.mesh == b.mesh && a.material < b.material) }

  /** Over sorted instances the batches' keys strictly rise, so no group is split. */
  lemma {:induction false} BatchesRise(s: seq<Instance>, start: nat)
    requires Sorted(s) && start <= |s|
    ensures forall j, k :: 0 <= j < k < |Batches(s, start)| ==> GroupLess(Batches(s, start)[j], Batches(s, start)[k])
    ensures forall j, k :: 0 <= j < k < |Batches(s, start)| ==> Batches(s, start)[j].mesh <= Batches(s, start)[k].mesh
    ensures forall j, k :: 0 <= j < k < |Batches(s, start)| && Batches(s, start)[j].mesh == Batches(s, start)[k].mesh ==>
      Batches(s, start)[j].material < Batches(s, start)[k].material
    decreases |s| - start
  {
    if start < |s| {
      var end := RunEnd(s, start, start + 1);
      var rest := Batches(s, end);
      RunHolds(s, start, start + 1);
      BatchesRise(s, end);
      BatchesAreRuns(s, end);
      forall k | 0 <= k < |rest| ensures GroupLess(Batches(s, start)[0], rest[k]) {
        LaterIsGreater(s, start, end, rest[k]);
      }
    }
  }

  lemma LaterIsGreater(s: seq<Instance>, start: nat, end: nat, b: Batch)
    requires Sorted(s) && start < end < |s| && !SameGroup(s[end], s[start])
    requires IsRun(s, b) && end <= b.first
    ensures GroupLess(Batch(s[start].mesh, s[start].material, start, end - start), b)
  {
    assert KeyAtMost(s[start], s[end]);
    assert b.first == end || KeyAtMost(s[end], s[b.first]);
    assert s[b.first].mesh == b.mesh && s[b.first].material == b.material;
  }

  /** Inside a batch the entities are in order of index and generation. */
  lemma BatchIsInEntityOrder(s: seq<Instance>, i: nat, j: nat)
    requires Sorted(s) && i < j < |s| && SameGroup(s[i], s[j])
    ensures s[i].index < s[j].index || (s[i].index == s[j].index && s[i].generation <= s[j].generation)
  {
    assert KeyAtMost(s[i], s[j]);
  }

  // ---- Building a manifest ----

  /** Batch numbers are 32-bit. */
  ghost predicate FitsWords(bs: seq<Batch>) {
    forall k :: 0 <= k < |bs| ==> bs[k].first < U32 && bs[k].count < U32
  }

  lemma BatchComesNext(all: seq<Batch>, done: seq<Batch>, next: Batch, rest: seq<Batch>)
    requires all == done + ([next] + rest)
    ensures all == (done + [next]) + rest && |all| > |done| && all[|done|] == next
  {
  }

  class CpuRenderManifest {
    var instances: seq<Instance>
    var batches: seq<Batch>
    const maxInstances: nat
    const maxBatches: nat

    ghost predicate Built()
      reads this
    {
      Sorted(instances) && batches == Batches(instances, 0) && FitsWords(batches)
    }

    constructor (maxInstances: nat, maxBatches: nat)
      ensures instances == [] && batches == [] && this.maxInstances == maxInstances && this.maxBatches == maxBatches
    {
      instances, batches := [], [];
      this.maxInstances, this.maxBatches := maxInstances, maxBatches;
    }

    /** Sorts the world's instances and cuts them into batches; it fails exactly when they or their batches are too many. */
    method Build(world: seq<Instance>) returns (r: Result<(), ManifestError>)
      modifies this`instances, this`batches
      ensures r.Ok? ==> Built() && multiset(instances) == multiset(world)
      ensures r.Ok? <==> |world| <= maxInstances && |Batches(SortByKey(world), 0)| <= maxBatches && FitsWords(Batches(SortByKey(world), 0))
    {
      instances, batches := [], [];
      if |world| > maxInstances {
        return Err(CapacityExceeded);
      }
      SortKeeps(world);
      instances := SortByKey(world);
      r := Cut();
    }

    /** Cuts the instances into batches, run by run. */
    method Cut() returns (r: Result<(), ManifestError>)
      requires batches == []
      modifies this`batches
      ensures r.Ok? ==> batches == Batches(instances, 0)
      ensures r.Ok? <==> |Batches(instances, 0)| <= maxBatches && FitsWords(Batches(instances, 0))
    {
      ghost var all := Batches(instances, 0);
      var start: nat := 0;
      while start < |instances|
        invariant start <= |instances|
        invariant all == batches + Batches(instances, start)
        invariant |batches| <= maxBatches && FitsWords(batches)
        decreases |instances| - start
      {
        var end := FindEnd(start);
        var batch := Batch(instances[start].mesh, instances[start].material, start, end - start);
        BatchComesNext(all, batches, batch, Batches(instances, end));
        if |batches| >= maxBatches {
          return Err(CapacityExceeded);
        }
        if start >= U32 || end - start >= U32 {
          return Err(IndexOverflow);
        }
        batches := batches + [batch];
        start := end;
      }
      assert batches == all;
      return Ok(());
    }

    /** Scans to the end of the run that starts here. */
    method FindEnd(start: nat) returns (end: nat)
      requires start < |instances|
      ensures end == RunEnd(instances, start, start + 1)
    {
      end := start + 1;
      while end < |instances| && instances[end].mesh == instances[start].mesh && instances[end].material == instances[start].material
        invariant start < end <= |instances| && RunEnd(instances, start, end) == RunEnd(instances, start, start + 1)
        decreases |instances| - end
      {
        end := end + 1;
      }
    }
  }

  /** Two builds from the same entities in any order give the same manifest. */
  lemma BuildIsDeterministic(a: seq<Instance>, b: seq<Instance>)
    requires multiset(a) == multiset(b) && DistinctEntities(a)
    ensures SortByKey(a) == SortByKey(b) && Batches(SortByKey(a), 0) == Batches(SortByKey(b), 0)
  {
    SortKeeps(a);
    SortKeeps(b);
    EntitiesGiveKeys(a);
    SortedIsUnique(SortByKey(a), SortByKey(b));
  }

  // ---- Preparing a frame ----

  /** Where the last batch ends. */
  function EndOf(bs: seq<Batch>): nat { if bs == [] then 0 else bs[|bs| - 1].first + bs[|bs| - 1].count }

  lemma {:induction false} LastEnds(bs: seq<Batch>, start: nat, n: nat)
    requires TilesFrom(bs, start, n)
    ensures if bs == [] then start == n else EndOf(bs) == n
  {
    if bs != [] { LastEnds(bs[1..], bs[0].first + bs[0].count, n); }
  }

  class GpuFramePreparation {
    var instances: seq<Instance>
    var commands: seq<Batch>
    const maxInstances: nat
    const maxCommands: nat

    constructor (maxInstances: nat, maxCommands: nat)
      ensures instances == [] && commands == [] && this.maxInstances == maxInstances && this.maxCommands == maxCommands
    {
      instances, commands := [], [];
      this.maxInstances, this.maxCommands := maxInstances, maxCommands;
    }

    /** Copies a manifest; on one that was built no range is ever invalid, and the copy is complete unless it is too large. */
    method Prepare(manifest: CpuRenderManifest) returns (r: Result<(), PreparationError>)
      requires manifest.Built()
      modifies this`instances, this`commands
      ensures r.Err? ==> r.error != InvalidRange
      ensures r == Err(TooMany) <==> |manifest.instances| > maxInstances || |manifest.batches| > maxCommands
      ensures r == Err(Overflow) <==>
        |manifest.instances| <= maxInstances && |manifest.batches| <= maxCommands && |manifest.instances| >= 0x1_0000_0000
      ensures r.Ok? ==> instances == manifest.instances && commands == manifest.batches
    {
      instances, commands := [], [];
      if |manifest.instances| > maxInstances || |manifest.batches| > maxCommands {
        return Err(TooMany);
      }
      instances := manifest.instances;
      BatchesAreRuns(manifest.instances, 0);
      for k := 0 to |manifest.batches|
        invariant manifest.Built() && instances == manifest.instances && commands == manifest.batches[..k]
        invariant EndOf(commands) < U32
      {
        assert manifest.batches[..k + 1][k] == manifest.batches[k];
        var batch := manifest.batches[k];
        assert IsRun(manifest.instances, batch);
        if batch.first + batch.count >= U32 {
          return Err(Overflow);
        }
        commands := commands + [batch];
      }
      LastEnds(manifest.batches, 0, |manifest.instances|);
      r := Ok(());
    }

    /** Whether every command stays inside the instances. */
    method Validate() returns (r: Result<(), PreparationError>)
      ensures r.Ok? <==> forall k :: 0 <= k < |commands| ==> commands[k].first + commands[k].count < U32 && commands[k].first + commands[k].count <= |instances|
    {
      for k := 0 to |commands|
        invariant forall i :: 0 <= i < k ==> commands[i].first + commands[i].count < U32 && commands[i].first + commands[i].count <= |instances|
      {
        if commands[k].first + commands[k].count >= U32 {
          return Err(Overflow);
        }
        if commands[k].first + commands[k].count > |instances| {
          return Err(InvalidRange);
        }
      }
      return Ok(());
    }
  }
}
