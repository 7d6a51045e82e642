/** The kernel's three-colour depth-first topological sort (src/kernel/scheduler.rs). */
module Toposort {
  import opened Wrappers
  import opened Sequences

  /** `deps[v]` lists the nodes that must run before `v`. */
  type Graph = seq<seq<nat>>

  datatype Colour = White | Gray | Black

  datatype KernelError = DependencyCycle(path: seq<string>)

  ghost predicate WellFormed(deps: Graph) {
    forall v, k :: 0 <= v < |deps| && 0 <= k < |deps[v]| ==> deps[v][k] < |deps|
  }

  ghost predicate DependsOn(deps: Graph, v: nat, d: nat) {
    v < |deps| && d in deps[v]
  }

  ghost predicate IsWalk(deps: Graph, p: seq<nat>) {
    forall i :: 0 <= i < |p| - 1 ==> DependsOn(deps, p[i], p[i + 1])
  }

  /** A closed dependency walk a -> b -> ... -> a. */
  ghost predicate IsCycle(deps: Graph, c: seq<nat>) {
    |c| >= 2 && c[0] == c[|c| - 1] && IsWalk(deps, c)
  }

  ghost predicate Acyclic(deps: Graph) {
    forall c :: !IsCycle(deps, c)
  }

  ghost predicate InRange(s: seq<nat>, n: nat) {
    forall i :: 0 <= i < |s| ==> s[i] < n
  }

  /** `order` lists every node exactly once, each after all of its dependencies. */
  ghost predicate IsTopologicalOrder(deps: Graph, order: seq<nat>) {
    && Distinct(order) && InRange(order, |deps|)
    && (forall v: nat :: v < |deps| ==> v in order)
    && DependenciesFirst(deps, order)
  }

  ghost predicate DependenciesFirst(deps: Graph, order: seq<nat>) {
    order == [] ||
    var before, last := order[..|order| - 1], order[|order| - 1];
    DependenciesFirst(deps, before) && forall d :: DependsOn(deps, last, d) ==> d in before
  }

  /** The report names the nodes of a genuine dependency cycle. */
  ghost predicate ReportsCycle(deps: Graph, names: seq<string>, e: KernelError) {
    exists c :: IsCycle(deps, c) && NamesOf(names, c, e.path)
  }

  ghost predicate NamesOf(names: seq<string>, c: seq<nat>, path: seq<string>) {
    |path| == |c| && forall i :: 0 <= i < |c| ==> c[i] < |names| && path[i] == names[c[i]]
  }

  /** The three mutable tables of one sort: colours, the current path, and the finished nodes. */
  class DepthFirst {
    const deps: Graph
    const names: seq<string>
    const state: array<Colour>
    var stack: seq<nat>
    var order: seq<nat>

    constructor (deps: Graph, names: seq<string>)
      requires WellFormed(deps) && |names| == |deps|
      ensures Valid() && fresh(state) && this.deps == deps && this.names == names
      ensures stack == [] && order == []
      ensures forall v :: 0 <= v < |deps| ==> state[v] == White
    {
      this.deps := deps;
      this.names := names;
      state := new Colour[|deps|](_ => White);
      stack := [];
      order := [];
    }

    ghost predicate Valid()
      reads this, state
    {
      && WellFormed(deps) && |names| == |deps| == state.Length
      && Distinct(stack) && Distinct(order)
      && IsWalk(deps, stack)
      && (forall v: nat :: v in stack <==> v < |deps| && state[v] == Gray)
      && (forall v: nat :: v in order <==> v < |deps| && state[v] == Black)
      && DependenciesFirst(deps, order)
    }

    /** Colours `node` gray and puts it on the current path. */
    method Enter(node: nat)
      requires Valid() && node < |deps| && state[node] == White
      requires stack != [] ==> DependsOn(deps, stack[|stack| - 1], node)
      modifies this`stack, state
      ensures Valid() && stack == old(stack) + [node]
      ensures forall v :: 0 <= v < |deps| ==> state[v] == if v == node then Gray else old(state[v])
    {
      state[node] := Gray;
      stack := stack + [node];
    }

    /** Colours `node` black once all of its dependencies are, and lists it. */
    method Leave(node: nat)
      requires Valid() && stack != [] && stack[|stack| - 1] == node
      requires node < |deps| && state[node] == Gray
      requires forall i :: 0 <= i < |deps[node]| ==> state[deps[node][i]] == Black
      modifies this, state
      ensures Valid() && stack == old(stack)[..|old(stack)| - 1] && order == old(order) + [node]
      ensures forall v :: 0 <= v < |deps| ==> state[v] == if v == node then Black else old(state[v])
    {
      assert (order + [node])[..|order|] == order;
      assert stack == stack[..|stack| - 1] + [node];
      state[node] := Black;
      stack := stack[..|stack| - 1];
      order := order + [node];
    }

    /** The loop closed by an edge from the top of the path back to the gray node `dep`. */
    method ReportCycle(dep: nat) returns (e: KernelError)
      requires Valid() && stack != [] && DependsOn(deps, stack[|stack| - 1], dep)
      requires dep < |deps| && state[dep] == Gray
      modifies this`stack
      ensures ReportsCycle(deps, names, e)
      ensures stack == old(stack)[..|old(stack)| - 1]
    {
      var pos := Position(stack, dep);
      ghost var c := stack[pos..] + [dep];
      forall i | 0 <= i < |c| - 1 ensures DependsOn(deps, c[i], c[i + 1]) {
        assert i < |stack| - pos - 1 ==> DependsOn(deps, stack[pos + i], stack[pos + i + 1]);
      }
      // Name the repeated node at both ends, so that the report reads as a loop.
      assert forall i :: 0 <= i < |stack| ==> stack[i] in stack;
      var path := NamesAlong(names, stack[pos..]) + [names[dep]];
      e := DependencyCycle(path);
      assert IsCycle(deps, c) && NamesOf(names, c, e.path);
      stack := stack[..|stack| - 1];
    }

    lemma AtMostOneEntryEach()
      requires Valid()
      ensures |stack| + |order| <= |deps|
    {
      var seen := stack + order;
      forall i, j | 0 <= i < j < |seen| ensures seen[i] != seen[j] {
        assert i < |stack| ==> seen[i] in stack;
        assert j >= |stack| ==> seen[j] in order;
      }
      DistinctIsBounded(seen, |deps|);
    }

    /** Finishes `node` after everything it needs, or reports the cycle that makes this impossible. */
    method Visit(node: nat) returns (r: Result<(), KernelError>)
      requires Valid() && node < |deps| && state[node] == White
      requires stack != [] ==> DependsOn(deps, stack[|stack| - 1], node)
      modifies this, state
      ensures r.Ok? ==> Valid() && stack == old(stack) && old(order) <= order
      ensures r.Ok? ==> state[node] == Black
      ensures r.Ok? ==> forall v :: 0 <= v < |deps| && old(state[v]) != White ==> state[v] == old(state[v])
      ensures r.Err? ==> ReportsCycle(deps, names, r.error)
      decreases |deps| - |order| - |stack|, 0
    {
      AtMostOneEntryEach();
      Enter(node);
      r := FollowAll(node);
      if r.Ok? {
        Leave(node);
      }
    }

    /** Finishes all dependencies of the node on top of the path. */
    method FollowAll(node: nat) returns (r: Result<(), KernelError>)
      requires Valid() && stack != [] && stack[|stack| - 1] == node && node < |deps|
      modifies this, state
      ensures r.Ok? ==> Valid() && stack == old(stack) && old(order) <= order
      ensures r.Ok? ==> forall i :: 0 <= i < |deps[node]| ==> state[deps[node][i]] == Black
      ensures r.Ok? ==> forall v :: 0 <= v < |deps| && old(state[v]) != White ==> state[v] == old(state[v])
      ensures r.Err? ==> ReportsCycle(deps, names, r.error)
      decreases |deps| - |order| - |stack|, 2
    {
      AtMostOneEntryEach();
      for k := 0 to |deps[node]|
        invariant Valid() && stack == old(stack) && old(order) <= order
        invariant forall v :: 0 <= v < |deps| && old(state[v]) != White ==> state[v] == old(state[v])
        invariant forall i :: 0 <= i < k ==> state[deps[node][i]] == Black
      {
        AtMostOneEntryEach();
        r := Follow(deps[node][k]);
        if r.Err? {
          return;
        }
      }
      r := Ok(());
    }

    /** Follows one edge from the top of the path: to a new node, back into the path, or to a node that is done. */
    method Follow(dep: nat) returns (r: Result<(), KernelError>)
      requires Valid() && stack != [] && DependsOn(deps, stack[|stack| - 1], dep)
      modifies this, state
      ensures r.Ok? ==> Valid() && stack == old(stack) && old(order) <= order
      ensures r.Ok? ==> state[dep] == Black
      ensures r.Ok? ==> forall v :: 0 <= v < |deps| && old(state[v]) != White ==> state[v] == old(state[v])
      ensures r.Err? ==> ReportsCycle(deps, names, r.error)
      decreases |deps| - |order| - |stack|, 1
    {
      match state[dep] {
        case White =>
          r := Visit(dep);
        case Gray =>
          var e := ReportCycle(dep);
          r := Err(e);
        case Black =>
          r := Ok(());
      }
    }
  }

  function NamesAlong(names: seq<string>, c: seq<nat>): (path: seq<string>)
    requires forall i :: 0 <= i < |c| ==> c[i] < |names|
    ensures NamesOf(names, c, path)
  {
    seq(|c|, i requires 0 <= i < |c| => names[c[i]])
  }

  lemma {:induction false} DependencyIsEarlier(deps: Graph, order: seq<nat>, i: nat, d: nat)
    requires DependenciesFirst(deps, order) && i < |order| && DependsOn(deps, order[i], d)
    ensures d in order[..i]
  {
    var before := order[..|order| - 1];
    if i < |before| {
      DependencyIsEarlier(deps, before, i, d);
      assert before[..i] == order[..i];
    }
  }

  method Position(s: seq<nat>, x: nat) returns (p: nat)
    requires x in s
    ensures p < |s| && s[p] == x && x !in s[..p]
  {
    p := 0;
    while s[p] != x
      invariant p < |s| && x !in s[..p]
      decreases |s| - p
    {
      p := p + 1;
    }
  }

  /** Along a walk the position in a dependencies-first order strictly falls. */
  lemma {:induction false} WalkDescends(deps: Graph, order: seq<nat>, p: seq<nat>, i: nat)
    requires IsTopologicalOrder(deps, order) && IsWalk(deps, p) && |p| >= 2
    requires i < |order| && order[i] == p[0]
    ensures p[|p| - 1] in order[..i]
  {
    assert DependsOn(deps, p[0], p[1]);
    DependencyIsEarlier(deps, order, i, p[1]);
    var j :| 0 <= j < i && order[j] == p[1];
    if |p| > 2 {
      var tail := p[1..];
      assert IsWalk(deps, tail) by {
        forall k | 0 <= k < |tail| - 1 ensures DependsOn(deps, tail[k], tail[k + 1]) {
          assert DependsOn(deps, p[k + 1], p[k + 2]);
        }
      }
      WalkDescends(deps, order, tail, j);
    }
  }

  lemma TopologicalOrderMeansAcyclic(deps: Graph, order: seq<nat>)
    requires IsTopologicalOrder(deps, order)
    ensures Acyclic(deps)
  {
    forall c ensures !IsCycle(deps, c) {
      if IsCycle(deps, c) {
        assert DependsOn(deps, c[0], c[1]);
        assert c[0] in order;
        var i :| 0 <= i < |order| && order[i] == c[0];
        WalkDescends(deps, order, c, i);
        assert false;
      }
    }
  }

  /** Succeeds exactly on acyclic graphs; a failure names a real cycle. */
  method Sort(deps: Graph, names: seq<string>) returns (r: Result<seq<nat>, KernelError>)
    requires WellFormed(deps) && |names| == |deps|
    ensures r.Ok? <==> Acyclic(deps)
    ensures r.Ok? ==> IsTopologicalOrder(deps, r.value)
    ensures r.Err? ==> ReportsCycle(deps, names, r.error)
  {
    var dfs := new DepthFirst(deps, names);
    for start := 0 to |deps|
      invariant dfs.Valid() && dfs.stack == []
      invariant dfs.deps == deps && dfs.names == names && fresh(dfs) && fresh(dfs.state)
      invariant forall v :: 0 <= v < start ==> dfs.state[v] == Black
    {
      if dfs.state[start] == White {
        var done := dfs.Visit(start);
        if done.Err? {
          return Err(done.error);
        }
      }
      assert dfs.state[start] != Gray;
    }
    assert forall i :: 0 <= i < |dfs.order| ==> dfs.order[i] in dfs.order;
    TopologicalOrderMeansAcyclic(deps, dfs.order);
    return Ok(dfs.order);
  }
}
