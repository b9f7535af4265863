/** What every interleaving keeps: one writer, no writer from before a stop, at most one late write. */
module GainSafety {
  import opened GainModel

  predicate InFlight(p: Phase)
  {
    p.Popped? || p.Checked? || p.Armed?
  }

  /** The published worker is the only thread that has not exited; it is retiring while stopped; nothing
      published before the latest stop is left once dispatch runs again. */
  ghost predicate Safe(s: Sys)
  {
    && |s.born| == |s.threads|
    && (s.d.worker.Worker? ==> s.d.worker.id < |s.threads| && !s.threads[s.d.worker.id].Exited?)
    && (forall t :: 0 <= t < |s.threads| && !s.threads[t].Exited? ==> s.d.worker == Worker(t))
    && (s.d.pending != map[] ==> s.d.worker.Worker? && !s.d.stopped)
    && (s.d.stopped && s.d.worker.Worker? ==> s.d.retiring == s.d.worker && !s.lifecycle.Starting?)
    && (!s.d.stopped ==> s.d.retiring.NoWorker? && !s.lifecycle.Stopping?)
    && (s.lifecycle.Starting? ==> s.d.retiring.NoWorker?)
    && (forall t :: 0 <= t < |s.born| ==> s.born[t] <= s.stops)
    && (!s.d.stopped ==> forall t :: 0 <= t < |s.born| && s.born[t] < s.stops ==> s.threads[t].Exited?)
    && (s.d.stopped ==> s.lateWrites + (if s.d.worker.Worker? && InFlight(s.threads[s.d.worker.id]) then 1 else 0) <= 1)
  }

  predicate ThreadAction(a: Action)
  {
    a.StartWorker? || a.StartWorkerFails? || a.Pop? || a.CheckEpoch? || a.Read? || a.Write? || a.WriteFails?
  }

  lemma PopIsSafe(s: Sys, id: nat, seat: int)
    requires Safe(s)
    ensures Safe(Next(s, Pop(id, seat)))
  {
    if Published(s, id) && !s.threads[id].Exited? {
      assert s.d.worker == Worker(id);
    }
  }

  lemma ThreadIsSafe(s: Sys, a: Action)
    requires Safe(s) && ThreadAction(a)
    ensures Safe(Next(s, a))
  {
    if a.Pop? {
      PopIsSafe(s, a.id, a.seat);
    } else if Published(s, a.id) && !s.threads[a.id].Exited? {
      assert s.d.worker == Worker(a.id);
    }
  }

  lemma EnqueueIsSafe(s: Sys, o: Owed)
    requires Safe(s)
    ensures Safe(Next(s, Enqueue(o)))
  {
  }

  lemma LifecycleIsSafe(s: Sys, a: Action)
    requires Safe(s) && !ThreadAction(a) && !a.Enqueue?
    ensures Safe(Next(s, a))
  {
  }

  lemma NextIsSafe(s: Sys, a: Action)
    requires Safe(s)
    ensures Safe(Next(s, a))
  {
    if ThreadAction(a) { ThreadIsSafe(s, a); }
    else if a.Enqueue? { EnqueueIsSafe(s, a.owed); }
    else { LifecycleIsSafe(s, a); }
  }

  lemma {:induction false} ExecIsSafe(run: seq<Action>)
    ensures Safe(Exec(INITIAL, run))
  {
    if run != [] {
      ExecIsSafe(run[..|run| - 1]);
      NextIsSafe(Exec(INITIAL, run[..|run| - 1]), run[|run| - 1]);
    }
  }

  /** At most one thread holds a popped item; pending items have a published worker to drain them; since
      the latest stop at most one native write was made, and none is to come after it; and once dispatch
      runs again, every thread left was published after the latest stop. */
  ghost predicate OneWriter(s: Sys)
  {
    && (forall t, u :: 0 <= t < u < |s.threads| ==> !(InFlight(s.threads[t]) && InFlight(s.threads[u])))
    && (s.d.pending != map[] ==> s.d.worker.Worker?)
    && (s.d.stopped ==> s.lateWrites <= 1)
    && (s.d.stopped && s.lateWrites == 1 ==> forall t :: 0 <= t < |s.threads| ==> !InFlight(s.threads[t]))
    && |s.born| == |s.threads|
    && (!s.d.stopped ==> forall t :: 0 <= t < |s.threads| && !s.threads[t].Exited? ==> s.born[t] == s.stops)
  }

  lemma SafeHasOneWriter(s: Sys)
    requires Safe(s)
    ensures OneWriter(s)
  {
  }

  /** In every interleaving. */
  lemma SingleWriter(run: seq<Action>)
    ensures OneWriter(Exec(INITIAL, run))
  {
    ExecIsSafe(run);
    SafeHasOneWriter(Exec(INITIAL, run));
  }
}
