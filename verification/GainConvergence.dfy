/**
 Quiescent convergence: once nothing is owed and no worker runs, the native mix is the heard mix for
 every row whose gain intent was accepted in this epoch and not lost; and the worker always gets there.
 */
module GainConvergence {
  import opened MixModel
  import opened GainModel
  import opened GainSafety

  /** What the single worker has in hand. */
  function Hand(s: Sys): Phase
  {
    if s.d.worker.Worker? && s.d.worker.id < |s.threads| then s.threads[s.d.worker.id] else Exited
  }

  function Owes(s: Sys, c: int, owner: Occupant): bool
  {
    Owed(c, Anyone) in s.owed || Owed(c, Only(owner)) in s.owed
  }

  /** The row's intent is still on its way: owed, pending, or in hand with its level yet to be read. */
  function OnItsWay(s: Sys, c: int, owner: Occupant): bool
  {
    var item := Item(s.epoch, owner);
    || Owes(s, c, owner)
    || (c in s.d.pending && s.d.pending[c] == item)
    || Hand(s) == Popped(c, item) || Hand(s) == Checked(c, item)
  }

  /** The row's level has been written, or is about to be, and nothing in hand would overwrite it. */
  predicate Arrived(s: Sys, c: int, owner: Occupant, level: int)
  {
    && (Hand(s).Armed? && Hand(s).seat == c && Hand(s).item.epoch == s.epoch ==> Hand(s).level == level)
    && (Hand(s) == Armed(c, Item(s.epoch, owner), level) || (c in s.native && s.native[c] == level))
  }

  predicate Served(s: Sys, c: int)
    requires c in s.mix.rows
  {
    OnItsWay(s, c, s.mix.rows[c].owner) || Arrived(s, c, s.mix.rows[c].owner, Effective(s.mix.rows[c]))
  }

  ghost predicate Converging(s: Sys)
  {
    && Safe(s) && Inv(s.mix)
    && (forall o :: o in s.covered ==> o.joined < s.mix.clock)
    && (s.covered != {} ==> s.ready && !s.d.stopped)
    && (forall c :: c in s.mix.rows && s.mix.rows[c].owner in s.covered ==> Served(s, c))
  }

  /** Whoever holds a seat after a step and had joined before it held that seat before it. */
  lemma SurvivorWasSeated(m: Mix, op: Op, c: int)
    requires Inv(m) && c in Step(m, op).rows && Step(m, op).rows[c].owner.joined < m.clock
    ensures c in m.rows && m.rows[c].owner == Step(m, op).rows[c].owner
  {
  }

  lemma MutateConverges(s: Sys, op: Op)
    requires Converging(s)
    ensures Converging(Next(s, Mutate(op)))
  {
    var after := Next(s, Mutate(op));
    StepKeepsInv(s.mix, op);
    assert s.mix.clock <= after.mix.clock;
    NextIsSafe(s, Mutate(op));
    forall c | c in after.mix.rows && after.mix.rows[c].owner in s.covered ensures Served(after, c) {
      SurvivorWasSeated(s.mix, op, c);
      assert Served(s, c);
      if Effective(after.mix.rows[c]) != Effective(s.mix.rows[c]) {
        ReappliesEveryChange(s.mix, op, c);
        assert Owed(c, Expecting(after.mix, op, c)) in OwedBy(s.mix, op);
      }
    }
  }

  lemma AbandonServes(s: Sys, o: Owed, c: int)
    requires Converging(s) && c in s.mix.rows && s.mix.rows[c].owner in s.covered
    ensures Served(Next(s, Abandon(o)), c)
  {
    assert Served(s, c);
  }

  predicate Accepted(s: Sys, o: Owed)
  {
    o in s.owed && !s.d.stopped && s.ready && Meets(s.mix.rows, o.seat, o.expected)
  }

  /** The row handed over is on its way. */
  lemma HandedOverServes(s: Sys, o: Owed)
    requires Converging(s) && Accepted(s, o)
    ensures Served(Next(s, Enqueue(o)), o.seat)
  {
    assert Next(s, Enqueue(o)).d.pending[o.seat] == Item(s.epoch, s.mix.rows[o.seat].owner);
  }

  /** Handing one row over leaves the others served. */
  lemma OthersStayServed(s: Sys, o: Owed, c: int)
    requires Converging(s) && Accepted(s, o) && c in s.mix.rows && c != o.seat && Served(s, c)
    ensures Served(Next(s, Enqueue(o)), c)
  {
    if c in s.d.pending && s.d.pending[c] == Item(s.epoch, s.mix.rows[c].owner) {
      assert c in Pruned(s.d.pending, s.mix.rows, s.epoch);
    }
  }

  lemma EnqueueServes(s: Sys, o: Owed, c: int)
    requires Converging(s) && c in s.mix.rows && s.mix.rows[c].owner in Next(s, Enqueue(o)).covered
    ensures Served(Next(s, Enqueue(o)), c)
  {
    if !Accepted(s, o) {
      assert Served(s, c);
    } else if c == o.seat {
      HandedOverServes(s, o);
    } else {
      assert s.mix.rows[c].owner.seat == c && s.mix.rows[o.seat].owner.seat == o.seat;
      assert Served(s, c);
      OthersStayServed(s, o, c);
    }
  }

  lemma StartServes(s: Sys, a: Action, c: int)
    requires Converging(s) && (a.StartWorker? || a.StartWorkerFails?)
    requires c in s.mix.rows && s.mix.rows[c].owner in Next(s, a).covered
    ensures Served(Next(s, a), c)
  {
    assert Served(s, c);
  }

  lemma PickUpServes(s: Sys, a: Action, c: int)
    requires Converging(s) && (a.Pop? || a.CheckEpoch? || a.Read?)
    requires c in s.mix.rows && s.mix.rows[c].owner in s.covered
    ensures Served(Next(s, a), c)
  {
    assert Served(s, c);
  }

  lemma WriteServes(s: Sys, a: Action, c: int)
    requires Converging(s) && (a.Write? || a.WriteFails?)
    requires c in s.mix.rows && s.mix.rows[c].owner in Next(s, a).covered
    ensures Served(Next(s, a), c)
  {
    assert Served(s, c);
  }

  lemma MoveServes(s: Sys, a: Action, c: int)
    requires Converging(s) && (a.Abandon? || a.Enqueue? || ThreadAction(a))
    requires c in s.mix.rows && s.mix.rows[c].owner in Next(s, a).covered
    ensures Served(Next(s, a), c)
  {
    match a
    case Abandon(o) => AbandonServes(s, o, c);
    case Enqueue(o) => EnqueueServes(s, o, c);
    case StartWorker(_) => StartServes(s, a, c);
    case StartWorkerFails(_) => StartServes(s, a, c);
    case Write(_) => WriteServes(s, a, c);
    case WriteFails(_) => WriteServes(s, a, c);
    case _ => PickUpServes(s, a, c);
  }

  lemma MoveKeepsTheMix(s: Sys, a: Action)
    requires Converging(s) && (a.Abandon? || a.Enqueue? || ThreadAction(a))
    ensures var after := Next(s, a);
      && after.mix == s.mix && (after.covered != {} ==> after.ready && !after.d.stopped)
      && forall o :: o in after.covered ==> o.joined < s.mix.clock
  {
  }

  lemma MoveConverges(s: Sys, a: Action)
    requires Converging(s) && (a.Abandon? || a.Enqueue? || ThreadAction(a))
    ensures Converging(Next(s, a))
  {
    NextIsSafe(s, a);
    MoveKeepsTheMix(s, a);
    forall c | c in s.mix.rows && s.mix.rows[c].owner in Next(s, a).covered ensures Served(Next(s, a), c) {
      MoveServes(s, a, c);
    }
  }

  lemma NextConverges(s: Sys, a: Action)
    requires Converging(s)
    ensures Converging(Next(s, a))
  {
    if a.Mutate? { MutateConverges(s, a.op); }
    else if a.Abandon? || a.Enqueue? || ThreadAction(a) { MoveConverges(s, a); }
    else { OtherConverges(s, a); }
  }

  lemma OtherConverges(s: Sys, a: Action)
    requires Converging(s) && !ThreadAction(a) && !a.Mutate? && !a.Abandon? && !a.Enqueue?
    ensures Converging(Next(s, a))
  {
    var after := Next(s, a);
    NextIsSafe(s, a);
    forall c | c in after.mix.rows && after.mix.rows[c].owner in after.covered ensures Served(after, c) {
      assert Served(s, c);
    }
  }

  lemma {:induction false} ExecConverges(run: seq<Action>)
    ensures Converging(Exec(INITIAL, run))
  {
    if run != [] {
      ExecConverges(run[..|run| - 1]);
      NextConverges(Exec(INITIAL, run[..|run| - 1]), run[|run| - 1]);
    } else {
      ReachableIsSafe([]);
    }
  }

  predicate Quiet(s: Sys)
  {
    s.owed == multiset{} && s.d.worker.NoWorker?
  }

  /** Every interleaving, whenever it falls quiet, has written each covered row's effective gain last. */
  lemma QuietMeansConverged(run: seq<Action>, c: int)
    requires Quiet(Exec(INITIAL, run))
    requires c in Exec(INITIAL, run).mix.rows && Exec(INITIAL, run).mix.rows[c].owner in Exec(INITIAL, run).covered
    ensures var s := Exec(INITIAL, run); c in s.native && s.native[c] == Effective(s.mix.rows[c])
  {
    ExecConverges(run);
    assert Served(Exec(INITIAL, run), c);
  }

  // ---- the worker always gets there ------------------------------------------------------------

  /** Worker actions left if nothing else happens and nothing fails. */
  function Work(s: Sys): nat
  {
    5 * |s.d.pending| + match Hand(s)
      case Exited => 0
      case Top => 1
      case Unstarted => 2
      case Armed(_, _, _) => 2
      case Checked(_, _) => 3
      case Popped(_, _) => 4
  }

  /** The worker's next action. */
  ghost function Turn(s: Sys): Action
    requires s.d.worker.Worker?
  {
    var id := s.d.worker.id;
    match Hand(s)
    case Unstarted => StartWorker(id)
    case Popped(_, _) => CheckEpoch(id)
    case Checked(_, _) => Read(id)
    case Armed(_, _, _) => Write(id)
    case _ => Pop(id, if exists c :: c in s.d.pending then var c :| c in s.d.pending; c else 0)
  }

  lemma DropOne<K, V>(m: map<K, V>, k: K)
    requires k in m
    ensures |m - {k}| == |m| - 1
  {
    assert (m - {k}).Keys == m.Keys - {k};
  }

  lemma EmptyMap<K, V>(m: map<K, V>)
    requires forall k :: k !in m
    ensures m == map[]
  {
  }

  lemma PopWorks(s: Sys)
    requires Safe(s) && s.d.worker.Worker? && Hand(s).Top?
    ensures Work(Next(s, Turn(s))) < Work(s)
  {
    if exists c :: c in s.d.pending {
      DropOne(s.d.pending, Turn(s).seat);
    } else {
      EmptyMap(s.d.pending);
    }
  }

  lemma TurnWorks(s: Sys)
    requires Safe(s) && s.d.worker.Worker?
    ensures Work(Next(s, Turn(s))) < Work(s)
  {
    if Hand(s).Top? {
      PopWorks(s);
    }
  }

  lemma TurnTouchesOnlyTheGains(s: Sys)
    requires Safe(s) && s.d.worker.Worker?
    ensures Next(s, Turn(s)).mix == s.mix && Next(s, Turn(s)).owed == s.owed && Next(s, Turn(s)).covered == s.covered
  {
  }

  /** Let the worker run until it exits. */
  ghost function Drain(s: Sys): Sys
    requires Safe(s)
    decreases Work(s)
  {
    if s.d.worker.NoWorker? then s
    else
      TurnWorks(s);
      NextIsSafe(s, Turn(s));
      Drain(Next(s, Turn(s)))
  }

  /** With no mutator owing a hand-over, letting the worker run ends quiet, without touching the mix, with
      every covered row's effective gain the last one written. */
  lemma {:induction false} DrainConverges(s: Sys)
    requires Converging(s) && s.owed == multiset{}
    ensures var e := Drain(s);
      && Quiet(e) && e.mix == s.mix && e.covered == s.covered
      && forall c :: c in s.mix.rows && s.mix.rows[c].owner in s.covered ==>
           c in e.native && e.native[c] == Effective(s.mix.rows[c])
    decreases Work(s)
  {
    if s.d.worker.NoWorker? {
      forall c | c in s.mix.rows && s.mix.rows[c].owner in s.covered
        ensures c in s.native && s.native[c] == Effective(s.mix.rows[c])
      {
        assert Served(s, c);
      }
    } else {
      TurnWorks(s);
      TurnTouchesOnlyTheGains(s);
      NextConverges(s, Turn(s));
      DrainConverges(Next(s, Turn(s)));
    }
  }
}
