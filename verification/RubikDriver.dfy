/** Queueing and animating moves (examples/rubik_3d/driver.rs). */
module RubikDriver {
  import opened Wrappers
  import opened Cubies
  import opened CubeState

  const MOVE_DURATION: nat := 250_000_000
  const MAX_QUEUED: nat := 256

  datatype MoveFace = U | D | L | R | F | B | M | E | S

  function CommandOf(face: MoveFace, inverse: bool): (c: Command)
    ensures IsCommand(c)
  {
    var c :=
      match face
      case R => Command(X, 1, 1) case L => Command(X, -1, -1) case M => Command(X, 0, -1)
      case U => Command(Y, 1, 1) case D => Command(Y, -1, -1) case E => Command(Y, 0, -1)
      case F => Command(Z, 1, 1) case B => Command(Z, -1, -1) case S => Command(Z, 0, 1);
    if inverse then Inverse(c) else c
  }

  // ---- One tick ----

  /** The move in progress and how long it has run, and the moves waiting. */
  datatype Track = Track(active: Option<(Command, nat)>, queue: seq<Command>)

  /** Everything not yet committed, in order. */
  function Pending(t: Track): seq<Command> {
    (if t.active.Some? then [t.active.value.0] else []) + t.queue
  }

  function Elapsed(t: Track): nat { if t.active.Some? then t.active.value.1 else 0 }

  function Least(a: nat, b: nat): nat { if a < b then a else b }

  /** The next move starts with the time left over. */
  function Started(queue: seq<Command>, elapsed: nat): Track {
    if queue == [] then Track(None, []) else Track(Some((queue[0], elapsed)), queue[1..])
  }

  /** Whether a tick completes the move at the head. */
  predicate Completes(t: Track, dt: nat) {
    Pending(t) != [] && Elapsed(t) + Least(dt, MOVE_DURATION) >= MOVE_DURATION
  }

  /** What a tick leaves: at most one move completes, and what is left of the tick goes to the next. */
  function Ticked(t: Track, dt: nat): Track {
    var spent := Elapsed(t) + Least(dt, MOVE_DURATION);
    if Completes(t, dt) then Started(Pending(t)[1..], spent - MOVE_DURATION)
    else Started(Pending(t), spent)
  }

  /** Where a tick stands after the move at the head is done. */
  ghost predicate AfterCommit(now: Track, was: Track, remaining: nat, dt: nat) {
    && Completes(was, dt) && now == Track(None, Pending(was)[1..])
    && remaining == Elapsed(was) + Least(dt, MOVE_DURATION) - MOVE_DURATION
  }

  /** Where a tick stands before or after its one commit. */
  ghost predicate InTick(was: Track, now: Track, done: bool, remaining: nat, dt: nat) {
    if done then AfterCommit(now, was, remaining, dt) else now == was && remaining == Least(dt, MOVE_DURATION)
  }

  ghost predicate Running(t: Track) {
    (t.active.Some? ==> t.active.value.1 < MOVE_DURATION) && |t.queue| <= MAX_QUEUED && AllCommands(Pending(t))
  }

  /** No move is lost, repeated or reordered by a tick, and a move in progress never runs past its duration. */
  lemma TickConserves(t: Track, dt: nat)
    requires Running(t)
    ensures Pending(t) == (if Completes(t, dt) then [Pending(t)[0]] else []) + Pending(Ticked(t, dt))
    ensures Running(Ticked(t, dt))
  {
    if Completes(t, dt) {
      assert Pending(t) == [Pending(t)[0]] + Pending(t)[1..];
      StartedHolds(Pending(t)[1..], Elapsed(t) + Least(dt, MOVE_DURATION) - MOVE_DURATION);
    } else {
      StartedHolds(Pending(t), Elapsed(t) + Least(dt, MOVE_DURATION));
    }
  }

  lemma StartedHolds(queue: seq<Command>, elapsed: nat)
    ensures Pending(Started(queue, elapsed)) == queue
  {
  }

  lemma HeadAndRest(t: Track)
    requires Running(t) && Pending(t) != []
    ensures IsCommand(Pending(t)[0]) && AllCommands(Pending(t)[1..]) && |Pending(t)[1..]| <= MAX_QUEUED && Elapsed(t) < MOVE_DURATION
    ensures if t.active.Some? then Pending(t)[0] == t.active.value.0 && Pending(t)[1..] == t.queue else Pending(t) == t.queue
  {
    assert IsCommand(Pending(t)[0]);
  }

  /** A tick that finds nothing, or nothing more, to do. */
  lemma TickIsOver(was: Track, now: Track, done: bool, remaining: nat, dt: nat)
    requires InTick(was, now, done, remaining, dt)
    requires now.active.None? && now.queue == []
    ensures now == Ticked(was, dt) && done == Completes(was, dt)
  {
  }

  /** A tick that ends within a move. */
  lemma TickRunsOut(was: Track, before: Track, done: bool, remaining: nat, dt: nat)
    requires InTick(was, before, done, remaining, dt)
    requires Pending(before) != [] && Elapsed(before) + remaining < MOVE_DURATION
    ensures Started(Pending(before), Elapsed(before) + remaining) == Ticked(was, dt) && done == Completes(was, dt)
  {
    if done {
      assert Pending(before) == before.queue;
    }
  }

  /** A move committed within a tick is its first. */
  lemma TickCommits(was: Track, before: Track, done: bool, remaining: nat, dt: nat)
    requires Running(was)
    requires InTick(was, before, done, remaining, dt)
    requires Pending(before) != [] && Elapsed(before) + remaining >= MOVE_DURATION
    ensures !done && AfterCommit(Track(None, Pending(before)[1..]), was, Elapsed(before) + remaining - MOVE_DURATION, dt)
  {
  }

  lemma RunningGrows(t: Track, more: seq<Command>)
    requires Running(t) && AllCommands(more) && |t.queue| + |more| <= MAX_QUEUED
    ensures Running(t.(queue := t.queue + more))
  {
    assert Pending(t.(queue := t.queue + more)) == Pending(t) + more;
  }

  /** A full tick always completes the move at the head. */
  lemma FullTickCompletes(t: Track, dt: nat)
    requires Pending(t) != [] && dt >= MOVE_DURATION
    ensures Completes(t, dt)
  {
  }

  // ---- Playing back the history ----

  /** What solving from the history queues: the inverses of its last moves, as many as the queue holds. */
  function Solution(history: seq<Command>): (q: seq<Command>)
    ensures |q| == Least(|history|, MAX_QUEUED)
  {
    Reversed(history)[..Least(|history|, MAX_QUEUED)]
  }

  lemma {:induction false} ReversedPrefix(cs: seq<Command>, k: nat)
    requires k <= |cs|
    ensures Reversed(cs)[..k] == Reversed(cs[|cs| - k..])
    decreases |cs|
  {
    if k > 0 {
      var before, last := cs[..|cs| - 1], cs[|cs| - 1];
      ReversedPrefix(before, k - 1);
      assert Reversed(cs)[..k] == [Inverse(last)] + Reversed(before)[..k - 1];
      var tail := cs[|cs| - k..];
      assert tail[..k - 1] == before[|before| - (k - 1)..] && tail[k - 1] == last;
    }
  }

  lemma {:induction false} ReversedAreCommands(cs: seq<Command>)
    requires AllCommands(cs)
    ensures AllCommands(Reversed(cs))
    decreases |cs|
  {
    if cs != [] { ReversedAreCommands(cs[..|cs| - 1]); }
  }

  /**
    * Playing the solution takes back the last moves of the history and leaves what the others made of the start:
    * the start itself when the history fits the queue.
    */
  lemma SolvingLeaves(start: seq<Cubie>, s: Status)
    requires Explains(start, s)
    ensures var left := |s.history| - Least(|s.history|, 256);
      Played(s, Solution(s.history)).cubies == TurnAll(start, s.history[..left])
    ensures |s.history| <= 256 ==> Played(s, Solution(s.history)).cubies == start
  {
    var k := Least(|s.history|, MAX_QUEUED);
    var kept, taken := s.history[..|s.history| - k], s.history[|s.history| - k..];
    PlayedCubies(s, Solution(s.history));
    ReversedPrefix(s.history, k);
    ReversedUnwinds(s.cubies, taken);
    assert s.history == kept + taken;
    TurnAllJoin(start, kept, taken);
    UnwindUndoes(TurnAll(start, kept), taken);
    assert |s.history| <= MAX_QUEUED ==> kept == [];
  }

  /** One more move than the queue holds leaves the cube turned. */
  lemma LongHistoryStaysTurned(c: Command)
    requires IsCommand(c)
    ensures var s := Played(Status(Solved(), [], []), Repeated(c, MAX_QUEUED + 1));
      && s.history == Repeated(c, MAX_QUEUED + 1) && |s.history| == 257
      && Played(s, Solution(s.history)).cubies == Turn(Solved(), c) != Solved()
  {
    var start := Status(Solved(), [], []);
    var moves := Repeated(c, MAX_QUEUED + 1);
    PlayedHistory(start, moves);
    PlayedExplains(start, moves);
    var s := Played(start, moves);
    SolvingLeaves(Solved(), s);
    var left := |s.history| - Least(|s.history|, MAX_QUEUED);
    assert s.history[..left] == [c];
    assert [c][..0] == [];
    assert TurnAll(Solved(), [c]) == Turn(Solved(), c);
    SolvedIsCube();
    TurnChanges(Solved(), c);
  }

  // ---- Draining the queue ----

  /** The driver after a number of ticks: its track, and what the commits made of the cube. */
  function AfterTicks(t: Track, s: Status, dts: seq<nat>): (Track, Status)
    decreases |dts|
  {
    if dts == [] then (t, s)
    else AfterTicks(Ticked(t, dts[0]), if Completes(t, dts[0]) then AfterMove(s, Pending(t)[0]) else s, dts[1..])
  }

  lemma PlayedLast(s: Status, cs: seq<Command>, c: Command)
    ensures Played(s, cs + [c]) == AfterMove(Played(s, cs), c)
  {
    assert (cs + [c])[..|cs|] == cs;
  }

  lemma {:induction false} PlayedFirst(s: Status, c: Command, cs: seq<Command>)
    ensures Played(s, [c] + cs) == Played(AfterMove(s, c), cs)
    decreases |cs|
  {
    if cs == [] {
      PlayedLast(s, [], c);
      assert [c] + cs == [] + [c];
    } else {
      var before, last := cs[..|cs| - 1], cs[|cs| - 1];
      PlayedFirst(s, c, before);
      PlayedLast(s, [c] + before, last);
      PlayedLast(AfterMove(s, c), before, last);
      assert [c] + cs == ([c] + before) + [last] && cs == before + [last];
    }
  }

  /** As many full ticks as there are moves pending commit all of them, in order, and leave the driver idle. */
  lemma {:induction false} FullTicksDrain(t: Track, s: Status, dts: seq<nat>)
    requires Running(t) && |dts| == |Pending(t)| && forall i :: 0 <= i < |dts| ==> dts[i] >= MOVE_DURATION
    ensures AfterTicks(t, s, dts) == (Track(None, []), Played(s, Pending(t)))
    decreases |dts|
  {
    if dts != [] {
      var c, next := Pending(t)[0], Ticked(t, dts[0]);
      TickConserves(t, dts[0]);
      FullTickCompletes(t, dts[0]);
      assert Pending(t) == [c] + Pending(next);
      PlayedFirst(s, c, Pending(next));
      FullTicksDrain(next, AfterMove(s, c), dts[1..]);
    }
  }

  /** The time of some ticks, of each no more than a move takes. */
  function TimeOf(dts: seq<nat>): nat
    decreases |dts|
  {
    if dts == [] then 0 else Least(dts[0], 250_000_000) + TimeOf(dts[1..])
  }

  /** However the time is cut into ticks, one move is committed for each quarter of a second, as long as there are any. */
  lemma {:induction false} TicksCommitExactly(t: Track, s: Status, dts: seq<nat>)
    requires Running(t)
    ensures var t' := AfterTicks(t, s, dts).0;
      |Pending(t)| - |Pending(t')| == Least(|Pending(t)|, (Elapsed(t) + TimeOf(dts)) / 250_000_000)
    decreases |dts|
  {
    if dts != [] {
      var next := Ticked(t, dts[0]);
      TickConserves(t, dts[0]);
      TicksCommitExactly(next, if Completes(t, dts[0]) then AfterMove(s, Pending(t)[0]) else s, dts[1..]);
    }
  }

  /** Solving from the history and ticking until the queue is empty takes back the last moves, all of them if they fit the queue. */
  lemma SolvingAndTicking(start: seq<Cubie>, s: Status, dts: seq<nat>)
    requires Explains(start, s) && AllCommands(s.history)
    requires |dts| == |Solution(s.history)| && forall i :: 0 <= i < |dts| ==> dts[i] >= MOVE_DURATION
    ensures var (t', s') := AfterTicks(Track(None, Solution(s.history)), s, dts);
      && Pending(t') == []
      && s'.cubies == TurnAll(start, s.history[..|s.history| - Least(|s.history|, 256)])
      && (|s.history| <= 256 ==> s'.cubies == start)
  {
    var t := Track(None, Solution(s.history));
    SolutionIsCommands(s.history);
    assert Pending(t) == Solution(s.history);
    FullTicksDrain(t, s, dts);
    SolvingLeaves(start, s);
  }

  // ---- The driver ----

  class RubikDriver {
    const state: CubeState
    var queue: seq<Command>
    var active: Option<(Command, nat)>

    ghost predicate Valid()
      reads this, state, state.facelets
    {
      state.Valid() && Running(Tracks())
    }

    function Tracks(): Track
      reads this
    {
      Track(active, queue)
    }

    constructor (cube: CubeState)
      requires cube.Valid()
      ensures state == cube && Running(Tracks()) && Tracks() == Track(None, [])
    {
      state, queue, active := cube, [], None;
    }

    /** Queues a move, or the same move twice, if all of it fits. */
    method Enqueue(face: MoveFace, inverse: bool, double: bool) returns (ok: bool)
      requires Running(Tracks())
      modifies this`queue
      ensures Running(Tracks()) && ok == (|old(queue)| + (if double then 2 else 1) <= MAX_QUEUED)
      ensures var c := CommandOf(face, inverse); queue == if !ok then old(queue) else old(queue) + if double then [c, c] else [c]
    {
      var count := if double then 2 else 1;
      if |queue| + count > MAX_QUEUED {
        return false;
      }
      var command := CommandOf(face, inverse);
      RunningGrows(Tracks(), if double then [command, command] else [command]);
      for k := 0 to count
        invariant queue == old(queue) + if k == 0 then [] else if k == 1 then [command] else [command, command]
      {
        queue := queue + [command];
      }
      ok := true;
    }

    /** Gives the move at the head some time, and commits it when that is enough. */
    method Work(time: nat) returns (left: nat, committed: bool)
      requires Valid() && Pending(Tracks()) != []
      modifies this, state, state.facelets
      ensures Valid() && committed == (Elapsed(old(Tracks())) + time >= MOVE_DURATION)
      ensures committed ==> Tracks() == Track(None, Pending(old(Tracks()))[1..]) && left == Elapsed(old(Tracks())) + time - MOVE_DURATION
      ensures !committed ==> Tracks() == Started(Pending(old(Tracks())), Elapsed(old(Tracks())) + time) && left == 0
      ensures state.Now() == if committed then AfterMove(old(state.Now()), Pending(old(Tracks()))[0]) else old(state.Now())
    {
      ghost var was := Tracks();
      HeadAndRest(was);
      if active.None? {
        active := Some((queue[0], 0));
        queue := queue[1..];
      }
      var (command, elapsed) := active.value;
      var step := Least(time, MOVE_DURATION - elapsed);
      active := Some((command, elapsed + step));
      left := time - step;
      committed := elapsed + step >= MOVE_DURATION;
      if committed {
        var ok := state.ApplyMove(command);
        active := None;
      }
    }

    /** One round of a tick: the move at the head runs out of time, or is the tick's one commit. */
    method Round(remaining: nat, ghost was: Track, ghost done: bool, ghost dt: nat) returns (left: nat, committed: bool)
      requires Valid() && Running(was) && InTick(was, Tracks(), done, remaining, dt) && Pending(Tracks()) != []
      modifies this, state, state.facelets
      ensures Valid()
      ensures committed ==> !done && InTick(was, Tracks(), true, left, dt)
      ensures !committed ==> Tracks() == Ticked(was, dt) && done == Completes(was, dt)
      ensures state.Now() == if committed then AfterMove(old(state.Now()), Pending(was)[0]) else old(state.Now())
    {
      ghost var before := Tracks();
      if Elapsed(before) + remaining < MOVE_DURATION {
        TickRunsOut(was, before, done, remaining, dt);
      } else {
        TickCommits(was, before, done, remaining, dt);
      }
      left, committed := Work(remaining);
    }

    /** One tick. */
    method Advance(dt: nat)
      requires Valid()
      modifies this, state, state.facelets
      ensures Valid() && Tracks() == Ticked(old(Tracks()), dt)
      ensures state.Now() == if Completes(old(Tracks()), dt) then AfterMove(old(state.Now()), Pending(old(Tracks()))[0]) else old(state.Now())
    {
      var remaining := Least(dt, MOVE_DURATION);
      ghost var was := Tracks();
      ghost var done := false;
      while remaining > 0 || (active.None? && queue != [])
        invariant Valid() && InTick(was, Tracks(), done, remaining, dt)
        invariant state.Now() == if done then AfterMove(old(state.Now()), Pending(was)[0]) else old(state.Now())
        decreases if done then 0 else 1
      {
        if active.None? && queue == [] {
          break;
        }
        var committed;
        remaining, committed := Round(remaining, was, done, dt);
        if !committed {
          return;
        }
        done := true;
      }
      if active.None? {
        TickIsOver(was, Tracks(), done, remaining, dt);
      } else {
        TickRunsOut(was, Tracks(), done, remaining, dt);
      }
    }

    method Undo() returns (ok: bool)
      requires Valid()
      modifies state, state.facelets
      ensures Valid() && state.Now() == if Pending(Tracks()) == [] then AfterUndo(old(state.Now())) else old(state.Now())
      ensures ok == (Pending(Tracks()) == [] && old(state.history) != [])
    {
      if active.Some? || queue != [] {
        return false;
      }
      ok := state.Undo();
    }

    method Redo() returns (ok: bool)
      requires Valid()
      modifies state, state.facelets
      ensures Valid() && state.Now() == if Pending(Tracks()) == [] then AfterRedo(old(state.Now())) else old(state.Now())
      ensures ok == (Pending(Tracks()) == [] && old(state.redone) != [])
    {
      if active.Some? || queue != [] {
        return false;
      }
      ok := state.Redo();
    }

    method EnqueueCommand(c: Command) returns (ok: bool)
      modifies this`queue
      ensures ok == (|old(queue)| < MAX_QUEUED) && queue == if ok then old(queue) + [c] else old(queue)
    {
      if |queue| >= MAX_QUEUED {
        return false;
      }
      queue := queue + [c];
      ok := true;
    }

    /** Queues the inverses of some moves, the last first, as far as there is room. */
    method QueueInverses(moves: seq<Command>)
      requires queue == []
      modifies this`queue
      ensures queue == Solution(moves)
    {
      for k: nat := 0 to |moves|
        invariant queue == Reversed(moves)[..Least(k, MAX_QUEUED)]
      {
        ReversedAt(moves, k);
        var ok := EnqueueCommand(Inverse(moves[|moves| - 1 - k]));
      }
    }

    /** Queues the inverses of the history, the last move first, when nothing else is under way. */
    method SolveHistory()
      requires Running(Tracks()) && AllCommands(state.history)
      modifies this`queue
      ensures Running(Tracks())
      ensures queue == if Pending(old(Tracks())) == [] then Solution(state.history) else old(queue)
    {
      if active.Some? || queue != [] {
        return;
      }
      queue := [];
      SolutionIsCommands(state.history);
      assert Pending(Track(None, Solution(state.history))) == Solution(state.history);
      QueueInverses(state.history);
    }
  }

  lemma SolutionIsCommands(history: seq<Command>)
    requires AllCommands(history)
    ensures AllCommands(Solution(history))
  {
    ReversedAreCommands(history);
  }

  lemma {:induction false} ReversedAt(cs: seq<Command>, k: nat)
    requires k < |cs|
    ensures Reversed(cs)[k] == Inverse(cs[|cs| - 1 - k])
    decreases |cs|
  {
    if k > 0 { ReversedAt(cs[..|cs| - 1], k - 1); }
  }
}
