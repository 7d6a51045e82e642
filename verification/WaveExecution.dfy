/**
 What a wave plan means: for systems that keep to their declared access sets, running the
 waves in turn, in any order inside each wave, ends in the same state as the serial order.
 */
module WaveExecution {
  import opened Sequences
  import opened Toposort
  import opened SystemAccess
  import opened Waves

  /** The resources by logical name. */
  type Store<V> = map<string, V>

  type Behaviour<!V> = Store<V> -> Store<V>

  ghost predicate SameAt<V>(s: Store<V>, t: Store<V>, key: string) {
    (key in s <==> key in t) && (key in s ==> s[key] == t[key])
  }

  ghost predicate SameOnTouched<V>(a: Access, s: Store<V>, t: Store<V>) {
    forall key :: Touches(a, key) ==> SameAt(s, t, key)
  }

  /** `f` changes only what `a` writes, and computes it only from what `a` touches. */
  ghost predicate Respects<V(!new)>(a: Access, f: Behaviour<V>) {
    !a.exclusive ==>
      && (forall s: Store<V>, key :: key !in a.writeKeys ==> SameAt(f(s), s, key))
      && (forall s: Store<V>, t: Store<V>, key :: SameOnTouched(a, s, t) && key in a.writeKeys ==> SameAt(f(s), f(t), key))
  }

  lemma StoresAgree<V>(s: Store<V>, t: Store<V>)
    requires forall key :: SameAt(s, t, key)
    ensures s == t
  {
    assert forall key :: key in s ==> SameAt(s, t, key);
    assert forall key :: key in t ==> SameAt(s, t, key);
  }

  lemma WrittenKeysAgree<V(!new)>(a: Access, b: Access, f: Behaviour<V>, g: Behaviour<V>, s: Store<V>, key: string)
    requires !Conflicts(a, b) && Respects(a, f) && Respects(b, g) && key in a.writeKeys
    ensures SameAt(f(g(s)), g(f(s)), key)
  {
    assert SameOnTouched(a, g(s), s) by {
      forall k | Touches(a, k) ensures SameAt(g(s), s, k) {
        assert k !in b.writeKeys;
      }
    }
    assert SameAt(f(g(s)), f(s), key);
    assert SameAt(g(f(s)), f(s), key);
  }

  /** Some system that keeps to `a` changes a value that `b` touches. */
  ghost predicate CanDisturb<V(!new)>(a: Access, b: Access) {
    exists f: Behaviour<V>, s: Store<V>, key: string :: Respects(a, f) && Touches(b, key) && !SameAt(f(s), s, key)
  }

  lemma WriterDisturbs<V(!new)>(a: Access, b: Access, key: string, v: V)
    requires key in a.writeKeys && Touches(b, key)
    ensures CanDisturb<V>(a, b)
  {
    var f: Behaviour<V> := (s: Store<V>) => s[key := v];
    forall s: Store<V>, t: Store<V>, k | SameOnTouched(a, s, t) && k in a.writeKeys ensures SameAt(f(s), f(t), k) {
      assert Touches(a, k);
    }
    assert Respects(a, f);
    assert !SameAt(f(map[]), map[], key);
  }

  /** Systems that are not exclusive conflict exactly if one of them can change what the other touches. */
  lemma ConflictsExactly<V(!new)>(a: Access, b: Access, v: V)
    requires !a.exclusive && !b.exclusive
    ensures Conflicts(a, b) <==> CanDisturb<V>(a, b) || CanDisturb<V>(b, a)
  {
    if Conflicts(a, b) {
      if key :| key in a.writeKeys && (key in b.readKeys || key in b.writeKeys) {
        WriterDisturbs(a, b, key, v);
      } else {
        var key :| key in b.writeKeys && key in a.readKeys;
        WriterDisturbs(b, a, key, v);
      }
    }
  }

  /** Systems without a conflict commute. */
  lemma NonConflictingCommute<V(!new)>(a: Access, b: Access, f: Behaviour<V>, g: Behaviour<V>, s: Store<V>)
    requires !Conflicts(a, b) && Respects(a, f) && Respects(b, g)
    ensures f(g(s)) == g(f(s))
  {
    ConflictsIsSymmetric(a, b);
    forall key ensures SameAt(f(g(s)), g(f(s)), key) {
      if key in a.writeKeys {
        WrittenKeysAgree(a, b, f, g, s, key);
      } else if key in b.writeKeys {
        WrittenKeysAgree(b, a, g, f, s, key);
      } else {
        assert SameAt(f(g(s)), g(s), key) && SameAt(g(s), s, key);
        assert SameAt(g(f(s)), f(s), key) && SameAt(f(s), s, key);
      }
    }
    StoresAgree(f(g(s)), g(f(s)));
  }

  /** Every system in turn, as the kernel's tick loop runs them. */
  ghost function Run<V>(systems: seq<Behaviour<V>>, schedule: seq<nat>, s: Store<V>): Store<V>
    requires InRange(schedule, |systems|)
  {
    if schedule == [] then s else Run(systems, schedule[1..], systems[schedule[0]](s))
  }

  ghost predicate AllRespect<V(!new)>(accesses: seq<Access>, systems: seq<Behaviour<V>>) {
    |accesses| == |systems| && forall i :: 0 <= i < |systems| ==> Respects(accesses[i], systems[i])
  }

  /** A system that conflicts with none of those before it may run before all of them. */
  lemma {:induction false} MoveToFront<V(!new)>(accesses: seq<Access>, systems: seq<Behaviour<V>>, before: seq<nat>, x: nat, after: seq<nat>, s: Store<V>)
    requires AllRespect(accesses, systems) && InRange(before, |systems|) && x < |systems| && InRange(after, |systems|)
    requires forall i :: 0 <= i < |before| ==> !Conflicts(accesses[x], accesses[before[i]])
    ensures Run(systems, before + ([x] + after), s) == Run(systems, [x] + (before + after), s)
  {
    if before == [] {
      assert before + ([x] + after) == [x] + (before + after);
    } else {
      var y, rest := before[0], before[1..];
      assert before + ([x] + after) == [y] + (rest + ([x] + after));
      assert before + after == [y] + (rest + after);
      RunFirst(systems, y, rest + ([x] + after), s);
      MoveToFront(accesses, systems, rest, x, after, systems[y](s));
      RunFirst(systems, x, rest + after, systems[y](s));
      NonConflictingCommute(accesses[x], accesses[y], systems[x], systems[y], s);
      RunFirst(systems, y, rest + after, systems[x](s));
      RunFirst(systems, x, before + after, s);
    }
  }

  lemma RunFirst<V(!new)>(systems: seq<Behaviour<V>>, x: nat, t: seq<nat>, s: Store<V>)
    requires x < |systems| && InRange(t, |systems|)
    ensures Run(systems, [x] + t, s) == Run(systems, t, systems[x](s))
  {
    assert ([x] + t)[1..] == t;
  }

  /** `t` never runs a conflicting pair of `order` the other way round. */
  ghost predicate KeepsConflicts(accesses: seq<Access>, order: seq<nat>, t: seq<nat>)
    requires InRange(order, |accesses|) && InRange(t, |accesses|)
  {
    forall i, j, k, l :: 0 <= i < j < |order| && 0 <= l < k < |t| && t[k] == order[i] && t[l] == order[j]
                         ==> !Conflicts(accesses[order[i]], accesses[order[j]])
  }

  lemma DropKeepsConflicts(accesses: seq<Access>, order: seq<nat>, t: seq<nat>, p: nat)
    requires InRange(order, |accesses|) && InRange(t, |accesses|) && order != [] && p < |t|
    requires KeepsConflicts(accesses, order, t)
    ensures KeepsConflicts(accesses, order[1..], t[..p] + t[p + 1..])
  {
    var rest, tail := t[..p] + t[p + 1..], order[1..];
    forall i, j, k, l | 0 <= i < j < |tail| && 0 <= l < k < |rest| && rest[k] == tail[i] && rest[l] == tail[j]
      ensures !Conflicts(accesses[tail[i]], accesses[tail[j]])
    {
      var k', l' := if k < p then k else k + 1, if l < p then l else l + 1;
      assert t[k'] == order[i + 1] && t[l'] == order[j + 1];
    }
  }

  lemma WhereFirst(order: seq<nat>, t: seq<nat>) returns (p: nat)
    requires order != [] && multiset(t) == multiset(order)
    ensures p < |t| && t[p] == order[0]
    ensures multiset(t[..p] + t[p + 1..]) == multiset(order[1..])
  {
    assert order[0] in multiset(order);
    assert order[0] in t;
    p :| 0 <= p < |t| && t[p] == order[0];
    assert t == t[..p] + [t[p]] + t[p + 1..];
    assert order == [order[0]] + order[1..];
    assert multiset(t[..p] + t[p + 1..]) == multiset(t) - multiset{order[0]};
    assert multiset(order[1..]) == multiset(order) - multiset{order[0]};
  }

  lemma NothingBeforeConflicts(accesses: seq<Access>, order: seq<nat>, t: seq<nat>, p: nat)
    requires InRange(order, |accesses|) && InRange(t, |accesses|) && order != [] && p < |t| && t[p] == order[0]
    requires multiset(t[..p] + t[p + 1..]) == multiset(order[1..]) && KeepsConflicts(accesses, order, t)
    ensures forall i :: 0 <= i < p ==> !Conflicts(accesses[t[p]], accesses[t[i]])
  {
    var rest := t[..p] + t[p + 1..];
    forall i | 0 <= i < p ensures !Conflicts(accesses[t[p]], accesses[t[i]]) {
      assert rest[i] in multiset(rest);
      assert t[i] in order[1..];
      var j :| 0 <= j < |order[1..]| && order[1..][j] == t[i];
      assert order[j + 1] == t[i];
    }
  }

  /** Any rearrangement that keeps conflicting pairs in order has the serial meaning. */
  lemma {:induction false} RearrangementIsSerial<V(!new)>(accesses: seq<Access>, systems: seq<Behaviour<V>>, order: seq<nat>, t: seq<nat>, s: Store<V>)
    requires AllRespect(accesses, systems) && InRange(order, |systems|) && InRange(t, |systems|)
    requires multiset(t) == multiset(order) && Distinct(order) && KeepsConflicts(accesses, order, t)
    ensures Run(systems, t, s) == Run(systems, order, s)
    decreases |order|
  {
    if order == [] {
      assert |multiset(t)| == 0;
    } else {
      var x := order[0];
      var p := WhereFirst(order, t);
      var rest := t[..p] + t[p + 1..];
      NothingBeforeConflicts(accesses, order, t, p);
      MoveToFront(accesses, systems, t[..p], x, t[p + 1..], s);
      assert t == t[..p] + ([x] + t[p + 1..]);
      RunFirst(systems, x, rest, s);
      DropKeepsConflicts(accesses, order, t, p);
      RearrangementIsSerial(accesses, systems, order[1..], rest, systems[x](s));
    }
  }

  /** The waves one after the other. */
  ghost function Concat(waves: seq<seq<nat>>): seq<nat> {
    if waves == [] then [] else Concat(waves[..|waves| - 1]) + waves[|waves| - 1]
  }

  ghost predicate SameWaves(waves: seq<seq<nat>>, perms: seq<seq<nat>>) {
    |perms| == |waves| && forall l :: 0 <= l < |waves| ==> multiset(perms[l]) == multiset(waves[l])
  }

  /** Members of one wave all have that wave's level. */
  ghost predicate Levelled(perms: seq<seq<nat>>, level: seq<nat>) {
    forall l, i :: 0 <= l < |perms| && 0 <= i < |perms[l]| ==> perms[l][i] < |level| && level[perms[l][i]] == l
  }

  lemma {:induction false} LevelsRise(perms: seq<seq<nat>>, level: seq<nat>)
    requires Levelled(perms, level)
    ensures InRange(Concat(perms), |level|)
    ensures forall i :: 0 <= i < |Concat(perms)| ==> level[Concat(perms)[i]] < |perms|
    ensures forall i, j :: 0 <= i < j < |Concat(perms)| ==> level[Concat(perms)[i]] <= level[Concat(perms)[j]]
  {
    if perms != [] {
      LevelsRise(perms[..|perms| - 1], level);
    }
  }

  lemma {:induction false} ConcatKeepsMembers(waves: seq<seq<nat>>, perms: seq<seq<nat>>)
    requires SameWaves(waves, perms)
    ensures multiset(Concat(perms)) == multiset(Concat(waves))
  {
    if waves != [] {
      ConcatKeepsMembers(waves[..|waves| - 1], perms[..|perms| - 1]);
    }
  }

  lemma {:induction false} OnLevelCount(order: seq<nat>, level: seq<nat>, l: nat, v: nat)
    requires InRange(order, |level|)
    ensures multiset(OnLevel(order, level, l))[v] == if v < |level| && level[v] == l then multiset(order)[v] else 0
  {
    if order != [] {
      var before, last := order[..|order| - 1], order[|order| - 1];
      OnLevelCount(before, level, l, v);
      assert order == before + [last];
    }
  }

  lemma {:induction false} LevelsPartition(order: seq<nat>, level: seq<nat>, waves: seq<seq<nat>>, v: nat)
    requires InRange(order, |level|)
    requires forall l :: 0 <= l < |waves| ==> waves[l] == OnLevel(order, level, l)
    ensures multiset(Concat(waves))[v] == if v < |level| && level[v] < |waves| then multiset(order)[v] else 0
  {
    if waves != [] {
      LevelsPartition(order, level, waves[..|waves| - 1], v);
      OnLevelCount(order, level, |waves| - 1, v);
    } else {
      assert Concat(waves) == [];
    }
  }

  /** The waves hold every node exactly once. */
  lemma WavesPartition(order: seq<nat>, deps: Graph, accesses: seq<Access>, waves: seq<seq<nat>>, level: seq<nat>)
    requires IsPlan(order, deps, accesses, waves, level)
    ensures multiset(Concat(waves)) == multiset(order)
  {
    forall v: nat ensures multiset(Concat(waves))[v] == multiset(order)[v] {
      LevelsPartition(order, level, waves, v);
      assert v in multiset(order) ==> v in order;
    }
  }

  lemma PermutedWavesKeepConflicts(order: seq<nat>, deps: Graph, accesses: seq<Access>, waves: seq<seq<nat>>, level: seq<nat>, perms: seq<seq<nat>>)
    requires IsTopologicalOrder(deps, order) && IsPlan(order, deps, accesses, waves, level) && SameWaves(waves, perms)
    ensures multiset(Concat(perms)) == multiset(order)
    ensures InRange(Concat(perms), |accesses|) && KeepsConflicts(accesses, order, Concat(perms))
    ensures forall i, j :: 0 <= i < j < |Concat(perms)| ==> level[Concat(perms)[i]] <= level[Concat(perms)[j]]
  {
    WavesPartition(order, deps, accesses, waves, level);
    ConcatKeepsMembers(waves, perms);
    forall l, i | 0 <= l < |perms| && 0 <= i < |perms[l]| ensures perms[l][i] < |level| && level[perms[l][i]] == l {
      var v := perms[l][i];
      assert v in multiset(perms[l]) && v in waves[l];
      OnLevelContains(order, level, l, v);
    }
    LevelsRise(perms, level);
    var t := Concat(perms);
    forall i, j, k, l | 0 <= i < j < |order| && 0 <= l < k < |t| && t[k] == order[i] && t[l] == order[j]
      ensures !Conflicts(accesses[order[i]], accesses[order[j]])
    {
      if Conflicts(accesses[order[i]], accesses[order[j]]) {
        ConflictsIsSymmetric(accesses[order[i]], accesses[order[j]]);
        assert order[i] in order[..j];
        assert MustPrecede(order, deps, accesses, j, order[i]);
        assert false;
      }
    }
  }

  /** Every dependency and every conflicting pair is strictly separated in the run, in the order's direction. */
  lemma WavesSeparate(order: seq<nat>, deps: Graph, accesses: seq<Access>, waves: seq<seq<nat>>, level: seq<nat>, perms: seq<seq<nat>>, k: nat, l: nat, i: nat)
    requires IsTopologicalOrder(deps, order) && IsPlan(order, deps, accesses, waves, level) && SameWaves(waves, perms)
    requires k < |Concat(perms)| && l < |Concat(perms)| && i < |order| && Concat(perms)[k] == order[i]
    requires order[i] < |accesses| && MustPrecede(order, deps, accesses, i, Concat(perms)[l])
    ensures l < k && Concat(perms)[l] < |level| && Concat(perms)[k] < |level|
    ensures level[Concat(perms)[l]] < level[Concat(perms)[k]]
  {
    PermutedWavesKeepConflicts(order, deps, accesses, waves, level, perms);
  }

  /** The headline: wave execution equals serial execution. */
  lemma WaveExecutionIsSerial<V(!new)>(order: seq<nat>, deps: Graph, accesses: seq<Access>, waves: seq<seq<nat>>, level: seq<nat>,
                                       systems: seq<Behaviour<V>>, perms: seq<seq<nat>>, s: Store<V>)
    requires IsTopologicalOrder(deps, order) && IsPlan(order, deps, accesses, waves, level)
    requires AllRespect(accesses, systems) && SameWaves(waves, perms)
    ensures InRange(Concat(perms), |systems|) && Run(systems, Concat(perms), s) == Run(systems, order, s)
  {
    PermutedWavesKeepConflicts(order, deps, accesses, waves, level, perms);
    RearrangementIsSerial(accesses, systems, order, Concat(perms), s);
  }
}
