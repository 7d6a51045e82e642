/** Grouping a dependency order into execution waves (src/kernel/scheduler.rs). */
module Waves {
  import opened Wrappers
  import opened Toposort
  import opened SystemAccess

  /** `p` must run in an earlier wave than `v`, where `i` is the place of `v` in `order`. */
  ghost predicate MustPrecede(order: seq<nat>, deps: Graph, accesses: seq<Access>, i: nat, p: nat)
    requires i < |order| && order[i] < |accesses|
  {
    || DependsOn(deps, order[i], p)
    || (p in order[..i] && p < |accesses| && Conflicts(accesses[order[i]], accesses[p]))
  }

  /** A level assignment that separates every dependency and every conflict in `order`'s direction. */
  ghost predicate Separates(order: seq<nat>, deps: Graph, accesses: seq<Access>, level: seq<nat>) {
    && |level| == |deps| == |accesses|
    && InRange(order, |deps|)
    && forall i, p: nat :: 0 <= i < |order| && p < |level| && MustPrecede(order, deps, accesses, i, p)
                           ==> level[p] < level[order[i]]
  }

  /** Every level above the first is forced by some predecessor exactly one level below. */
  ghost predicate Tight(order: seq<nat>, deps: Graph, accesses: seq<Access>, level: seq<nat>, i: nat)
    requires i < |order| && order[i] < |level| == |accesses|
  {
    level[order[i]] == 0 ||
    exists p: nat :: p < |level| && p in order[..i] && MustPrecede(order, deps, accesses, i, p) && level[order[i]] == level[p] + 1
  }

  ghost predicate Planned(order: seq<nat>, deps: Graph, accesses: seq<Access>, level: seq<nat>, n: nat)
    requires n <= |order| && |level| == |accesses| && InRange(order, |level|)
  {
    && (forall i, p: nat :: 0 <= i < n && p < |level| && MustPrecede(order, deps, accesses, i, p) ==> level[p] < level[order[i]])
    && (forall i :: 0 <= i < n ==> Tight(order, deps, accesses, level, i))
  }

  /** The sequence of nodes of `order` that sit on level `l`, in the order's own order. */
  function OnLevel(order: seq<nat>, level: seq<nat>, l: nat): seq<nat>
    requires InRange(order, |level|)
  {
    if order == [] then []
    else
      var last := order[|order| - 1];
      OnLevel(order[..|order| - 1], level, l) + (if level[last] == l then [last] else [])
  }

  /** One past the highest level among the dependencies and the earlier conflicting nodes. */
  method NodeLevel(order: seq<nat>, deps: Graph, accesses: seq<Access>, level: array<nat>, n: nat)
    returns (nodeLevel: nat, ghost from: Option<nat>)
    requires WellFormed(deps) && IsTopologicalOrder(deps, order)
    requires |accesses| == |deps| == level.Length && n < |order|
    ensures forall p: nat :: p < level.Length && MustPrecede(order, deps, accesses, n, p) ==> level[p] < nodeLevel
    ensures Origin(order, deps, accesses, level[..], n, nodeLevel, from)
  {
    var node := order[n];
    nodeLevel, from := 0, None;
    for k := 0 to |deps[node]|
      invariant forall j :: 0 <= j < k ==> level[deps[node][j]] < nodeLevel
      invariant Origin(order, deps, accesses, level[..], n, nodeLevel, from)
    {
      var d := deps[node][k];
      if nodeLevel < level[d] + 1 {
        nodeLevel, from := level[d] + 1, Some(d);
        DependencyIsEarlier(deps, order, n, d);
      }
    }
    for k := 0 to n
      invariant forall j :: 0 <= j < |deps[node]| ==> level[deps[node][j]] < nodeLevel
      invariant forall j :: 0 <= j < k && Conflicts(accesses[node], accesses[order[j]]) ==> level[order[j]] < nodeLevel
      invariant Origin(order, deps, accesses, level[..], n, nodeLevel, from)
    {
      var prior := order[k];
      assert prior in order[..n];
      if Conflicts(accesses[node], accesses[prior]) && nodeLevel < level[prior] + 1 {
        nodeLevel, from := level[prior] + 1, Some(prior);
      }
    }
  }

  /** The loops that give each node the level after its latest predecessor. */
  method AccessLevels(order: seq<nat>, deps: Graph, accesses: seq<Access>) returns (level: array<nat>)
    requires WellFormed(deps) && IsTopologicalOrder(deps, order) && |accesses| == |deps|
    ensures fresh(level) && level.Length == |deps|
    ensures Separates(order, deps, accesses, level[..])
    ensures forall i :: 0 <= i < |order| ==> Tight(order, deps, accesses, level[..], i)
  {
    level := new nat[|deps|](_ => 0);
    for n := 0 to |order|
      invariant Planned(order, deps, accesses, level[..], n)
    {
      var nodeLevel, from := NodeLevel(order, deps, accesses, level, n);
      PlanNext(order, deps, accesses, level[..], n, nodeLevel, from);
      level[order[n]] := nodeLevel;
    }
  }

  ghost predicate Origin(order: seq<nat>, deps: Graph, accesses: seq<Access>, level: seq<nat>, n: nat, nodeLevel: nat, from: Option<nat>)
    requires n < |order| && |accesses| == |level| && InRange(order, |level|)
  {
    match from
    case None => nodeLevel == 0
    case Some(p) => p < |level| && p in order[..n] && MustPrecede(order, deps, accesses, n, p) && nodeLevel == level[p] + 1
  }

  lemma PlanNext(order: seq<nat>, deps: Graph, accesses: seq<Access>, level: seq<nat>, n: nat, nodeLevel: nat, from: Option<nat>)
    requires WellFormed(deps) && IsTopologicalOrder(deps, order) && |accesses| == |deps| == |level| && n < |order|
    requires Planned(order, deps, accesses, level, n)
    requires forall p: nat :: p < |level| && MustPrecede(order, deps, accesses, n, p) ==> level[p] < nodeLevel
    requires Origin(order, deps, accesses, level, n, nodeLevel, from)
    ensures Planned(order, deps, accesses, level[order[n] := nodeLevel], n + 1)
  {
    var node := order[n];
    assert node in order;
    var next := level[node := nodeLevel];
    forall i, p: nat | 0 <= i < n + 1 && p < |level| && MustPrecede(order, deps, accesses, i, p)
      ensures next[p] < next[order[i]]
    {
      if DependsOn(deps, order[i], p) {
        DependencyIsEarlier(deps, order, i, p);
      }
      assert p in order[..i];
      assert p != node;
    }
    forall i | 0 <= i < n + 1 ensures Tight(order, deps, accesses, next, i) {
      if i < n {
        assert Tight(order, deps, accesses, level, i);
      }
    }
  }

  /** No valid level assignment puts any node earlier. */
  lemma {:induction false} LevelsAreLeast(order: seq<nat>, deps: Graph, accesses: seq<Access>, level: seq<nat>, other: seq<nat>, i: nat)
    requires Separates(order, deps, accesses, other) && |level| == |deps| && i < |order|
    requires InRange(order, |level|)
    requires forall k :: 0 <= k < |order| ==> Tight(order, deps, accesses, level, k)
    ensures level[order[i]] <= other[order[i]]
  {
    assert Tight(order, deps, accesses, level, i);
    if level[order[i]] > 0 {
      var p: nat :| p < |level| && p in order[..i] && MustPrecede(order, deps, accesses, i, p) && level[order[i]] == level[p] + 1;
      var j :| 0 <= j < i && order[j] == p;
      LevelsAreLeast(order, deps, accesses, level, other, j);
    }
  }

  /** The planned waves, with the levels that justify them. */
  ghost predicate IsPlan(order: seq<nat>, deps: Graph, accesses: seq<Access>, waves: seq<seq<nat>>, level: seq<nat>) {
    && Separates(order, deps, accesses, level)
    && (forall v :: 0 <= v < |level| ==> level[v] < |waves|)
    && (forall l :: 0 <= l < |waves| ==> waves[l] == OnLevel(order, level, l))
  }

  /** Waves from dependencies and declared accesses: least levels, none of them empty. */
  method AccessWaves(order: seq<nat>, deps: Graph, accesses: seq<Access>) returns (waves: seq<seq<nat>>, ghost level: seq<nat>)
    requires WellFormed(deps) && IsTopologicalOrder(deps, order) && |accesses| == |deps|
    ensures IsPlan(order, deps, accesses, waves, level)
    ensures forall l :: 0 <= l < |waves| ==> waves[l] != []
    ensures forall other, v: nat :: Separates(order, deps, accesses, other) && v < |deps| ==> level[v] <= other[v]
  {
    var table := AccessLevels(order, deps, accesses);
    level := table[..];
    var waveCount: nat := 0;
    for v := 0 to |deps|
      invariant forall u :: 0 <= u < v ==> table[u] < waveCount
      invariant waveCount > 0 ==> exists u :: 0 <= u < v && table[u] + 1 == waveCount
    {
      if waveCount <= table[v] {
        waveCount := table[v] + 1;
      }
    }
    waves := seq(waveCount, _ => []);
    for n := 0 to |order|
      invariant |waves| == waveCount
      invariant forall l :: 0 <= l < waveCount ==> waves[l] == OnLevel(order[..n], level, l)
    {
      var l := table[order[n]];
      assert order[..n + 1][..n] == order[..n];
      waves := waves[l := waves[l] + [order[n]]];
    }
    assert order[..|order|] == order;
    forall l | 0 <= l < |waves| ensures waves[l] != [] {
      var u :| 0 <= u < |deps| && level[u] + 1 == waveCount;
      assert u in order;
      var i :| 0 <= i < |order| && order[i] == u;
      LowerLevelsAreUsed(order, deps, accesses, level, i, l);
    }
    forall other, v: nat | Separates(order, deps, accesses, other) && v < |deps|
      ensures level[v] <= other[v]
    {
      assert v in order;
      var i :| 0 <= i < |order| && order[i] == v;
      LevelsAreLeast(order, deps, accesses, level, other, i);
    }
  }

  lemma {:induction false} OnLevelContains(order: seq<nat>, level: seq<nat>, l: nat, v: nat)
    requires InRange(order, |level|)
    ensures v in OnLevel(order, level, l) <==> v in order && level[v] == l
  {
    if order != [] {
      var before, last := order[..|order| - 1], order[|order| - 1];
      OnLevelContains(before, level, l, v);
      assert order == before + [last];
    }
  }

  lemma {:induction false} LowerLevelsAreUsed(order: seq<nat>, deps: Graph, accesses: seq<Access>, level: seq<nat>, i: nat, l: nat)
    requires |accesses| == |level| && (InRange(order, |level|)) && i < |order|
    requires forall k :: 0 <= k < |order| ==> Tight(order, deps, accesses, level, k)
    requires l <= level[order[i]]
    ensures OnLevel(order, level, l) != []
  {
    if level[order[i]] == l {
      OnLevelContains(order, level, l, order[i]);
    } else {
      assert Tight(order, deps, accesses, level, i);
      var p: nat :| p < |level| && p in order[..i] && MustPrecede(order, deps, accesses, i, p) && level[order[i]] == level[p] + 1;
      var j :| 0 <= j < i && order[j] == p;
      LowerLevelsAreUsed(order, deps, accesses, level, j, l);
    }
  }

  /** What building a schedule returns: the order of the subsystems, and the same nodes wave by wave. */
  datatype SchedulePlan = SchedulePlan(order: seq<nat>, waves: seq<seq<nat>>)

  method BuildPlan(deps: Graph, names: seq<string>, accesses: seq<Access>)
    returns (r: Result<SchedulePlan, KernelError>, ghost level: seq<nat>)
    requires WellFormed(deps) && |names| == |deps| == |accesses|
    ensures r.Ok? <==> Acyclic(deps)
    ensures r.Err? ==> ReportsCycle(deps, names, r.error)
    ensures r.Ok? ==> IsTopologicalOrder(deps, r.value.order) && IsPlan(r.value.order, deps, accesses, r.value.waves, level)
    ensures r.Ok? ==> forall l :: 0 <= l < |r.value.waves| ==> r.value.waves[l] != []
    ensures r.Ok? ==> forall other, v: nat :: Separates(r.value.order, deps, accesses, other) && v < |deps| ==> level[v] <= other[v]
  {
    var order := Sort(deps, names);
    if order.Err? {
      return Err(order.error), [];
    }
    var waves;
    waves, level := AccessWaves(order.value, deps, accesses);
    return Ok(SchedulePlan(order.value, waves)), level;
  }
}
