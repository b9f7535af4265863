/**
 Delivery: a gain the mix asks for reaches the native client in every interleaving in which nothing drops
 it, whatever happened before the dispatcher can be started again, and nothing else is ever written.
 */
module GainDelivery {
  import opened MixModel
  import opened GainModel
  import opened GainSafety
  import opened GainConvergence

  lemma {:induction false} ExecAppend(s: Sys, a: seq<Action>, b: seq<Action>)
    ensures Exec(s, a + b) == Exec(Exec(s, a), b)
  {
    if b == [] {
      assert a + b == a;
    } else {
      assert (a + b)[..|a + b| - 1] == a + b[..|b| - 1];
      ExecAppend(s, a, b[..|b| - 1]);
    }
  }

  lemma ExecOne(s: Sys, a: Action)
    ensures Exec(s, [a]) == Next(s, a)
  {
    assert [a][..0] == [];
  }

  lemma Prepend(s: Sys, a: Action, rest: seq<Action>)
    ensures Exec(s, [a] + rest) == Exec(Next(s, a), rest)
  {
    ExecOne(s, a);
    ExecAppend(s, [a], rest);
  }

  lemma ExecTwo(s: Sys, a: Action, b: Action)
    ensures Exec(s, [a, b]) == Next(Next(s, a), b)
  {
    assert [a, b] == [a] + [b];
    Prepend(s, a, [b]);
    ExecOne(Next(s, a), b);
  }

  lemma {:induction false} ExecFromConverges(s: Sys, run: seq<Action>)
    requires Converging(s)
    ensures Converging(Exec(s, run))
  {
    if run != [] {
      ExecFromConverges(s, run[..|run| - 1]);
      NextConverges(Exec(s, run[..|run| - 1]), run[|run| - 1]);
    }
  }

  // ---- what becomes of an accepted intent --------------------------------------------------------

  /** The action hands over a row that is o's, while dispatch is open. */
  predicate Takes(s: Sys, a: Action, o: Occupant)
  {
    a.Enqueue? && Accepted(s, a.owed) && s.mix.rows[a.owed.seat].owner == o
  }

  /** The action loses what was accepted of o: a new monitor session, a stop, a worker that cannot be started
      with o's intent queued for it, a native call that fails. */
  predicate Loses(s: Sys, a: Action, o: Occupant)
  {
    match a
    case Rpc(epoch, _) => epoch >= s.epoch
    case StopBegin => s.lifecycle.Idle?
    case StartWorkerFails(id) =>
      Published(s, id) && s.threads[id].Unstarted? && s.d.worker == Worker(id) && o in Queued(s.d)
    case WriteFails(id) => Published(s, id) && s.threads[id].Armed? && s.threads[id].item.owner == o
    case _ => false
  }

  lemma CoveredStep(s: Sys, a: Action, o: Occupant)
    ensures o in Next(s, a).covered <==> Takes(s, a, o) || (o in s.covered && !Loses(s, a, o))
  {
  }

  /** Something marked on happened, and since then nothing marked off. */
  predicate Since(on: seq<bool>, off: seq<bool>)
    requires |on| == |off|
  {
    exists k :: 0 <= k < |on| && on[k] && forall j :: k < j < |off| ==> !off[j]
  }

  lemma SinceStep(on: seq<bool>, off: seq<bool>, a: bool, b: bool)
    requires |on| == |off|
    ensures Since(on + [a], off + [b]) <==> a || (!b && Since(on, off))
  {
    var on', off' := on + [a], off + [b];
    if a {
      assert on'[|on|];
    }
    if !b && Since(on, off) {
      var k :| 0 <= k < |on| && on[k] && forall j :: k < j < |off| ==> !off[j];
      assert on'[k];
    }
    if Since(on', off') && !a {
      var k :| 0 <= k < |on'| && on'[k] && forall j :: k < j < |off'| ==> !off'[j];
      assert on[k] && !off'[|off|];
      assert forall j :: k < j < |off| ==> off[j] == off'[j];
    }
  }

  ghost function Takings(run: seq<Action>, o: Occupant): (r: seq<bool>)
    ensures |r| == |run|
  {
    if run == [] then []
    else
      var init := run[..|run| - 1];
      Takings(init, o) + [Takes(Exec(INITIAL, init), run[|run| - 1], o)]
  }

  ghost function Losses(run: seq<Action>, o: Occupant): (r: seq<bool>)
    ensures |r| == |run|
  {
    if run == [] then []
    else
      var init := run[..|run| - 1];
      Losses(init, o) + [Loses(Exec(INITIAL, init), run[|run| - 1], o)]
  }

  /** Whose gains the convergence theorems speak of, after any run: exactly those handed over while dispatch
      was open and not lost since. */
  lemma {:induction false} CoveredExactly(run: seq<Action>, o: Occupant)
    ensures o in Exec(INITIAL, run).covered <==> Since(Takings(run, o), Losses(run, o))
  {
    if run != [] {
      var init, a := run[..|run| - 1], run[|run| - 1];
      var s := Exec(INITIAL, init);
      CoveredExactly(init, o);
      CoveredStep(s, a, o);
      SinceStep(Takings(init, o), Losses(init, o), Takes(s, a, o), Loses(s, a, o));
    }
  }

  // ---- nothing requested is lost -------------------------------------------------------------------

  /** Seat c is o's, dispatch is open, and o's gain was handed over or is about to be. */
  ghost predicate Tracked(s: Sys, c: int, o: Occupant)
  {
    && Converging(s) && s.ready && !s.d.stopped
    && Owns(s.mix.rows, c, o) && (o in s.covered || Owes(s, c, o))
  }

  lemma StepIsTracked(s: Sys, a: Action, c: int, o: Occupant)
    requires Tracked(s, c, o) && !Loses(s, a, o) && Owns(Next(s, a).mix.rows, c, o)
    ensures Tracked(Next(s, a), c, o)
  {
    NextConverges(s, a);
    CoveredStep(s, a, o);
  }

  ghost predicate NeverLost(s: Sys, run: seq<Action>, o: Occupant)
  {
    forall k :: 0 <= k < |run| ==> !Loses(Exec(s, run[..k]), run[k], o)
  }

  lemma ClockStep(s: Sys, a: Action)
    ensures s.mix.clock <= Next(s, a).mix.clock
  {
  }

  lemma {:induction false} ClockGrows(s: Sys, run: seq<Action>)
    ensures s.mix.clock <= Exec(s, run).mix.clock
  {
    if run != [] {
      ClockGrows(s, run[..|run| - 1]);
      ClockStep(Exec(s, run[..|run| - 1]), run[|run| - 1]);
    }
  }

  /** Nobody takes a seat back after leaving it. */
  lemma StillSeated(s: Sys, a: Action, c: int, o: Occupant)
    requires Converging(s) && o.joined < s.mix.clock && Owns(Next(s, a).mix.rows, c, o)
    ensures Owns(s.mix.rows, c, o)
  {
    if a.Mutate? {
      SurvivorWasSeated(s.mix, a.op, c);
    }
  }

  lemma {:induction false} RunIsTracked(s: Sys, more: seq<Action>, c: int, o: Occupant)
    requires Tracked(s, c, o) && NeverLost(s, more, o) && Owns(Exec(s, more).mix.rows, c, o)
    ensures Tracked(Exec(s, more), c, o)
  {
    if more != [] {
      var n := |more| - 1;
      var init := more[..n];
      assert forall k :: 0 <= k < n ==> init[..k] == more[..k];
      ExecFromConverges(s, init);
      ClockGrows(s, init);
      StillSeated(Exec(s, init), more[n], c, o);
      RunIsTracked(s, init, c, o);
      StepIsTracked(Exec(s, init), more[n], c, o);
    }
  }

  lemma RequestIsTracked(s: Sys, op: Op, c: int)
    requires Converging(s) && s.ready && !s.d.stopped && c in Step(s.mix, op).rows && c in Reapplied(s.mix, op)
    ensures Tracked(Next(s, Mutate(op)), c, Step(s.mix, op).rows[c].owner)
  {
    NextConverges(s, Mutate(op));
    assert Owed(c, Expecting(Step(s.mix, op), op, c)) in OwedBy(s.mix, op);
  }

  lemma TrackedArrives(s: Sys, c: int, o: Occupant)
    requires Tracked(s, c, o) && Quiet(s)
    ensures c in s.native && s.native[c] == Effective(s.mix.rows[c])
  {
    assert Served(s, c);
  }

  /** Whatever gesture, in whatever reachable state with dispatch open, re-applies a seat: in every
      interleaving that follows, once all is quiet, the seat's gain then is the native one, unless its occupant
      has left or the intent was lost by one of the four events. */
  lemma NothingIsLost(run: seq<Action>, op: Op, more: seq<Action>, c: int)
    requires var s := Exec(INITIAL, run);
      s.ready && !s.d.stopped && c in Step(s.mix, op).rows && c in Reapplied(s.mix, op)
    requires var s := Exec(INITIAL, run); var t := Exec(Next(s, Mutate(op)), more);
      var o := Step(s.mix, op).rows[c].owner;
      NeverLost(Next(s, Mutate(op)), more, o) && Quiet(t) && Owns(t.mix.rows, c, o)
    ensures var t := Exec(Next(Exec(INITIAL, run), Mutate(op)), more);
      c in t.native && t.native[c] == Effective(t.mix.rows[c])
  {
    var s := Exec(INITIAL, run);
    var o := Step(s.mix, op).rows[c].owner;
    ExecConverges(run);
    RequestIsTracked(s, op, c);
    RunIsTracked(Next(s, Mutate(op)), more, c, o);
    TrackedArrives(Exec(Next(s, Mutate(op)), more), c, o);
  }

  // ---- and it can always be brought to rest ----------------------------------------------------------

  /** Hand-overs and the worker's own actions, none of them failing. */
  predicate Gentle(a: Action)
  {
    a.Enqueue? || (ThreadAction(a) && !a.StartWorkerFails? && !a.WriteFails?)
  }

  predicate AllGentle(run: seq<Action>)
  {
    forall k :: 0 <= k < |run| ==> Gentle(run[k])
  }

  /** Nothing but the dispatch itself has moved. */
  ghost predicate SameWorld(s: Sys, t: Sys)
  {
    t.mix == s.mix && t.epoch == s.epoch && t.ready == s.ready && t.lifecycle == s.lifecycle
    && t.d.stopped == s.d.stopped && t.stops == s.stops
  }

  lemma GentleKeepsWorld(s: Sys, a: Action)
    requires Gentle(a)
    ensures SameWorld(s, Next(s, a))
  {
  }

  lemma {:induction false} GentlesKeepWorld(s: Sys, run: seq<Action>)
    requires AllGentle(run)
    ensures SameWorld(s, Exec(s, run))
  {
    if run != [] {
      GentlesKeepWorld(s, run[..|run| - 1]);
      GentleKeepsWorld(Exec(s, run[..|run| - 1]), run[|run| - 1]);
    }
  }

  lemma {:induction false} HandOver(s: Sys) returns (more: seq<Action>)
    ensures AllGentle(more) && Exec(s, more).owed == multiset{}
    decreases |s.owed|
  {
    if s.owed == multiset{} {
      return [];
    }
    var o :| o in s.owed;
    var rest := HandOver(Next(s, Enqueue(o)));
    more := [Enqueue(o)] + rest;
    Prepend(s, Enqueue(o), rest);
  }

  lemma TurnIsGentle(s: Sys)
    requires Safe(s) && s.d.worker.Worker?
    ensures Gentle(Turn(s))
  {
  }

  lemma GentleKeepsRetiring(s: Sys, a: Action)
    requires Gentle(a)
    ensures Next(s, a).d.retiring == s.d.retiring
  {
  }

  /** At rest as far as the worker goes. */
  ghost predicate WorkedOff(s: Sys, t: Sys)
  {
    Safe(t) && t.d.worker.NoWorker? && t.owed == s.owed && t.d.retiring == s.d.retiring
  }

  lemma OneTurn(s: Sys)
    requires Safe(s) && s.d.worker.Worker?
    ensures var t := Next(s, Turn(s));
      && Gentle(Turn(s)) && Work(t) < Work(s) && Safe(t) && t.owed == s.owed && t.d.retiring == s.d.retiring
  {
    TurnIsGentle(s);
    TurnWorks(s);
    TurnTouchesOnlyTheGains(s);
    NextIsSafe(s, Turn(s));
    GentleKeepsRetiring(s, Turn(s));
  }

  lemma {:induction false} WorkOff(s: Sys) returns (more: seq<Action>)
    requires Safe(s)
    ensures AllGentle(more) && WorkedOff(s, Exec(s, more))
    decreases Work(s)
  {
    if s.d.worker.NoWorker? {
      return [];
    }
    OneTurn(s);
    var rest := WorkOff(Next(s, Turn(s)));
    more := [Turn(s)] + rest;
    assert Gentle(more[0]);
    Prepend(s, Turn(s), rest);
  }

  /** From every reachable state, handing over what is owed and letting the worker run comes to rest, and
      neither the mix nor anything else moves. */
  lemma Settles(s: Sys) returns (more: seq<Action>)
    requires Converging(s)
    ensures AllGentle(more) && Quiet(Exec(s, more)) && SameWorld(s, Exec(s, more))
  {
    var over := HandOver(s);
    ExecFromConverges(s, over);
    var off := WorkOff(Exec(s, over));
    more := over + off;
    ExecAppend(s, over, off);
    GentlesKeepWorld(s, more);
  }

  lemma GentlesLoseNothing(s: Sys, run: seq<Action>, o: Occupant)
    requires AllGentle(run)
    ensures NeverLost(s, run, o)
  {
    forall k | 0 <= k < |run| ensures !Loses(Exec(s, run[..k]), run[k], o) {
      assert Gentle(run[k]);
    }
  }

  // ---- start after stop -------------------------------------------------------------------------------

  /** The gesture has reached the native client, and all is quiet. */
  ghost predicate Delivered(m: Mix, op: Op, c: int, t: Sys)
  {
    && Quiet(t) && !t.d.stopped && t.mix == Step(m, op)
    && c in t.mix.rows && c in t.native
    && t.native[c] == if t.mix.rows[c].muted then 0 else t.mix.rows[c].fader
  }

  /** From any reachable state with dispatch open, whatever a gesture re-applies is delivered by the hand-overs
      and the worker's run that follow. */
  lemma GestureDelivers(run: seq<Action>, op: Op, c: int) returns (more: seq<Action>)
    requires var s := Exec(INITIAL, run);
      s.ready && !s.d.stopped && c in Step(s.mix, op).rows && c in Reapplied(s.mix, op)
    ensures AllGentle(more)
    ensures Delivered(Exec(INITIAL, run).mix, op, c, Exec(Next(Exec(INITIAL, run), Mutate(op)), more))
  {
    var s := Exec(INITIAL, run);
    var u := Next(s, Mutate(op));
    ExecConverges(run);
    NextConverges(s, Mutate(op));
    more := Settles(u);
    GentlesLoseNothing(u, more, Step(s.mix, op).rows[c].owner);
    NothingIsLost(run, op, more, c);
  }

  /** A start in progress, once it commits and a monitor session is ready, delivers what is gestured next. */
  lemma StartDelivers(run: seq<Action>, epoch: nat, op: Op, c: int) returns (more: seq<Action>)
    requires Exec(INITIAL, run).lifecycle.Starting? && epoch >= Exec(INITIAL, run).epoch
    requires var m := Exec(INITIAL, run).mix; c in Step(m, op).rows && c in Reapplied(m, op)
    ensures AllGentle(more)
    ensures Delivered(Exec(INITIAL, run).mix, op, c,
                      Exec(Exec(INITIAL, run), [StartCommit, Rpc(epoch, true), Mutate(op)] + more))
  {
    var s := Exec(INITIAL, run);
    var begun := [StartCommit, Rpc(epoch, true)];
    ExecTwo(s, StartCommit, Rpc(epoch, true));
    ExecAppend(INITIAL, run, begun);
    more := GestureDelivers(run + begun, op, c);
    assert [StartCommit, Rpc(epoch, true), Mutate(op)] + more == begun + ([Mutate(op)] + more);
    ExecAppend(s, begun, [Mutate(op)] + more);
    Prepend(Exec(s, begun), Mutate(op), more);
  }

  ghost predicate KnowsRetiring(s: Sys)
  {
    s.d.retiring.Worker? ==> s.d.retiring.id < |s.threads|
  }

  lemma StepKnowsRetiring(s: Sys, a: Action)
    requires Safe(s) && KnowsRetiring(s)
    ensures KnowsRetiring(Next(s, a))
  {
  }

  lemma {:induction false} RunKnowsRetiring(s: Sys, run: seq<Action>)
    requires Safe(s) && KnowsRetiring(s)
    ensures Safe(Exec(s, run)) && KnowsRetiring(Exec(s, run))
  {
    if run != [] {
      RunKnowsRetiring(s, run[..|run| - 1]);
      NextIsSafe(Exec(s, run[..|run| - 1]), run[|run| - 1]);
      StepKnowsRetiring(Exec(s, run[..|run| - 1]), run[|run| - 1]);
    }
  }

  /** What ends the lifecycle call in progress, if any. */
  function Ending(l: Lifecycle): seq<Action>
  {
    match l
    case Idle => []
    case Starting => [StartAbort]
    case Stopping => [StopEnd(true)]
  }

  ghost predicate Shut(s: Sys, u: Sys)
  {
    u.lifecycle.Stopping? && u.mix == s.mix && u.epoch == s.epoch
  }

  ghost predicate CanCommit(s: Sys, t: Sys)
  {
    && t.lifecycle.Starting? && t.mix == s.mix && t.epoch == s.epoch
    && Next(t, StartCommit).lifecycle.Idle? && !Next(t, StartCommit).d.stopped
  }

  lemma EndsAndStops(s: Sys)
    ensures Shut(s, Next(Exec(s, Ending(s.lifecycle)), StopBegin))
  {
    match s.lifecycle
    case Idle =>
    case Starting => ExecOne(s, StartAbort);
    case Stopping => ExecOne(s, StopEnd(true));
  }

  lemma StartsAgain(v: Sys)
    requires Safe(v) && KnowsRetiring(v) && v.lifecycle.Stopping? && v.d.worker.NoWorker?
    ensures CanCommit(v, Next(Next(v, StopEnd(true)), StartBegin))
    ensures Next(v, StopEnd(true)).d.retiring.NoWorker?
  {
    if v.d.retiring.Worker? {
      assert v.threads[v.d.retiring.id].Exited?;
    }
  }

  /** Once stopped, the worker retires and dispatch can be opened again. */
  lemma RetiresAndStarts(s: Sys, u: Sys) returns (retire: seq<Action>)
    requires Safe(u) && KnowsRetiring(u) && Shut(s, u)
    ensures AllGentle(retire) && CanCommit(s, Next(Next(Exec(u, retire), StopEnd(true)), StartBegin))
    ensures Next(Exec(u, retire), StopEnd(true)).d.retiring.NoWorker?
  {
    retire := WorkOff(u);
    GentlesKeepWorld(u, retire);
    RunKnowsRetiring(u, retire);
    StartsAgain(Exec(u, retire));
  }

  lemma Composed(s: Sys, e: seq<Action>, retire: seq<Action>)
    ensures Exec(s, e + [StopBegin] + retire + [StopEnd(true), StartBegin])
         == Next(Next(Exec(Next(Exec(s, e), StopBegin), retire), StopEnd(true)), StartBegin)
  {
    ExecAppend(s, e + [StopBegin] + retire, [StopEnd(true), StartBegin]);
    ExecTwo(Exec(s, e + [StopBegin] + retire), StopEnd(true), StartBegin);
    ExecAppend(s, e + [StopBegin], retire);
    ExecAppend(s, e, [StopBegin]);
    ExecOne(Exec(s, e), StopBegin);
  }

  /** Whatever has happened, ending the call in progress, stopping, letting the worker retire and starting again
      opens dispatch, with the mix as it was. */
  lemma CanRestart(run: seq<Action>) returns (retire: seq<Action>)
    ensures AllGentle(retire)
    ensures var s := Exec(INITIAL, run);
      CanCommit(s, Exec(s, Ending(s.lifecycle) + [StopBegin] + retire + [StopEnd(true), StartBegin]))
  {
    var s := Exec(INITIAL, run);
    var e := Ending(s.lifecycle);
    RunKnowsRetiring(INITIAL, run);
    RunKnowsRetiring(s, e);
    EndsAndStops(s);
    NextIsSafe(Exec(s, e), StopBegin);
    StepKnowsRetiring(Exec(s, e), StopBegin);
    retire := RetiresAndStarts(s, Next(Exec(s, e), StopBegin));
    Composed(s, e, retire);
  }

  ghost function Stops(run: seq<Action>): (r: seq<bool>)
    ensures |r| == |run|
  {
    if run == [] then []
    else
      var init := run[..|run| - 1];
      Stops(init) + [run[|run| - 1].StopBegin? && Exec(INITIAL, init).lifecycle.Idle?]
  }

  ghost function Starts(run: seq<Action>): (r: seq<bool>)
    ensures |r| == |run|
  {
    if run == [] then []
    else
      var init := run[..|run| - 1];
      Starts(init) + [run[|run| - 1].StartCommit? && Exec(INITIAL, init).lifecycle.Starting?]
  }

  lemma ShutStep(s: Sys, a: Action)
    ensures Next(s, a).d.stopped
      <==> (a.StopBegin? && s.lifecycle.Idle?) || (s.d.stopped && !(a.StartCommit? && s.lifecycle.Starting?))
  {
  }

  /** Dispatch is shut exactly from a stop to the next start that goes through; a failed start opens nothing. */
  lemma {:induction false} ShutExactly(run: seq<Action>)
    ensures Exec(INITIAL, run).d.stopped <==> Since(Stops(run), Starts(run))
  {
    if run != [] {
      var init, a := run[..|run| - 1], run[|run| - 1];
      var s := Exec(INITIAL, init);
      ShutExactly(init);
      ShutStep(s, a);
      SinceStep(Stops(init), Starts(init), a.StopBegin? && s.lifecycle.Idle?, a.StartCommit? && s.lifecycle.Starting?);
    }
  }
}
