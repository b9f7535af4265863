/** Nothing is written that was not asked for: the way of every native write back to the gesture's hand-over. */
module GainProvenance {
  import opened MixModel
  import opened GainModel
  import opened GainSafety
  import opened GainConvergence

  /** Step k handed over this seat for this item: dispatch open, the session the item's, the seat the
      owner's, and where a row was named, that row. */
  ghost predicate AskedAt(run: seq<Action>, k: nat, seat: int, item: Item)
    requires k < |run|
  {
    var s := Exec(INITIAL, run[..k]);
    && run[k].Enqueue? && Accepted(s, run[k].owed) && run[k].owed.seat == seat
    && s.epoch == item.epoch && Owns(s.mix.rows, seat, item.owner)
    && (run[k].owed.expected.Only? ==> run[k].owed.expected.owner == item.owner)
  }

  /** Step k was thread id reading this level off the item's own row. */
  ghost predicate ReadAt(run: seq<Action>, k: nat, id: nat, seat: int, item: Item, level: int)
    requires k < |run|
  {
    var s := Exec(INITIAL, run[..k]);
    run[k] == Read(id) && Owns(s.mix.rows, seat, item.owner) && level == Effective(s.mix.rows[seat])
  }

  /** Step k was thread id finding that the item is of the session that is ready. */
  ghost predicate CheckedAt(run: seq<Action>, k: nat, id: nat, item: Item)
    requires k < |run|
  {
    var s := Exec(INITIAL, run[..k]);
    run[k] == CheckEpoch(id) && s.ready && s.epoch == item.epoch
  }

  ghost predicate WasChecked(run: seq<Action>, id: nat, item: Item)
  {
    exists k :: 0 <= k < |run| && CheckedAt(run, k, id, item)
  }

  ghost predicate Asked(run: seq<Action>, seat: int, item: Item)
  {
    exists k :: 0 <= k < |run| && AskedAt(run, k, seat, item)
  }

  ghost predicate WasRead(run: seq<Action>, id: nat, seat: int, item: Item, level: int)
  {
    exists k :: 0 <= k < |run| && ReadAt(run, k, id, seat, item, level)
  }

  ghost predicate PhaseIsGenuine(run: seq<Action>, id: nat, p: Phase)
  {
    match p
    case Popped(seat, item) => Asked(run, seat, item)
    case Checked(seat, item) => Asked(run, seat, item) && WasChecked(run, id, item)
    case Armed(seat, item, level) =>
      Asked(run, seat, item) && WasChecked(run, id, item) && WasRead(run, id, seat, item, level)
    case _ => true
  }

  ghost predicate Genuine(run: seq<Action>, s: Sys)
  {
    && (forall c :: c in s.d.pending ==> Asked(run, c, s.d.pending[c]))
    && (forall id :: 0 <= id < |s.threads| ==> PhaseIsGenuine(run, id, s.threads[id]))
  }

  lemma Later(run: seq<Action>, a: Action)
    ensures forall seat, item :: Asked(run, seat, item) ==> Asked(run + [a], seat, item)
    ensures forall id, seat, item, level ::
      WasRead(run, id, seat, item, level) ==> WasRead(run + [a], id, seat, item, level)
    ensures forall id, item :: WasChecked(run, id, item) ==> WasChecked(run + [a], id, item)
  {
    assert forall k :: 0 <= k < |run| ==> (run + [a])[..k] == run[..k];
    forall seat, item | Asked(run, seat, item) ensures Asked(run + [a], seat, item) {
      var k :| 0 <= k < |run| && AskedAt(run, k, seat, item);
      assert AskedAt(run + [a], k, seat, item);
    }
    forall id, item | WasChecked(run, id, item) ensures WasChecked(run + [a], id, item) {
      var k :| 0 <= k < |run| && CheckedAt(run, k, id, item);
      assert CheckedAt(run + [a], k, id, item);
    }
    forall id, seat, item, level | WasRead(run, id, seat, item, level)
      ensures WasRead(run + [a], id, seat, item, level)
    {
      var k :| 0 <= k < |run| && ReadAt(run, k, id, seat, item, level);
      assert ReadAt(run + [a], k, id, seat, item, level);
    }
  }

  lemma StaysGenuine(run: seq<Action>, a: Action, s: Sys)
    requires Genuine(run, s)
    ensures Genuine(run + [a], s)
  {
    Later(run, a);
    forall id | 0 <= id < |s.threads| ensures PhaseIsGenuine(run + [a], id, s.threads[id]) {
      assert PhaseIsGenuine(run, id, s.threads[id]);
    }
  }

  /** What a step puts in pending or in a thread's hands was there before, or is what the step itself asks or
      reads. */
  lemma NewIsAsked(s: Sys, a: Action, c: int)
    requires c in Next(s, a).d.pending && !(c in s.d.pending && s.d.pending[c] == Next(s, a).d.pending[c])
    ensures a.Enqueue? && Accepted(s, a.owed) && a.owed.seat == c
    ensures Next(s, a).d.pending[c] == Item(s.epoch, s.mix.rows[c].owner)
  {
  }

  lemma PhaseElsewhere(s: Sys, a: Action, id: nat)
    requires id < |Next(s, a).threads| && !(ThreadAction(a) && a.id == id)
    ensures Next(s, a).threads[id].Unstarted? || (id < |s.threads| && s.threads[id] == Next(s, a).threads[id])
  {
  }

  lemma PhasePopped(s: Sys, a: Action)
    requires a.Pop? && a.id < |s.threads|
    ensures var p := Next(s, a).threads[a.id];
      p.Exited? || p == s.threads[a.id] || (p.Popped? && p.seat in s.d.pending && s.d.pending[p.seat] == p.item)
  {
  }

  lemma NewPhase(s: Sys, a: Action, id: nat)
    requires id < |Next(s, a).threads|
    ensures var p := Next(s, a).threads[id];
      || p.Unstarted? || p.Top? || p.Exited? || (id < |s.threads| && s.threads[id] == p)
      || (p.Popped? && p.seat in s.d.pending && s.d.pending[p.seat] == p.item)
      || (p.Checked? && id < |s.threads| && s.threads[id] == Popped(p.seat, p.item) && a == CheckEpoch(id)
          && s.ready && s.epoch == p.item.epoch)
      || (p.Armed? && id < |s.threads| && s.threads[id] == Checked(p.seat, p.item) && a == Read(id)
          && Owns(s.mix.rows, p.seat, p.item.owner) && p.level == Effective(s.mix.rows[p.seat]))
  {
    if !(ThreadAction(a) && a.id == id) {
      PhaseElsewhere(s, a, id);
    } else if a.Pop? {
      PhasePopped(s, a);
    }
  }

  lemma StepIsGenuine(run: seq<Action>, a: Action)
    requires Genuine(run, Exec(INITIAL, run))
    ensures Genuine(run + [a], Next(Exec(INITIAL, run), a))
  {
    var s := Exec(INITIAL, run);
    StaysGenuine(run, a, s);
    assert (run + [a])[..|run|] == run;
    forall c | c in Next(s, a).d.pending ensures Asked(run + [a], c, Next(s, a).d.pending[c]) {
      if !(c in s.d.pending && s.d.pending[c] == Next(s, a).d.pending[c]) {
        NewIsAsked(s, a, c);
        assert AskedAt(run + [a], |run|, c, Next(s, a).d.pending[c]);
      }
    }
    forall id | 0 <= id < |Next(s, a).threads| ensures PhaseIsGenuine(run + [a], id, Next(s, a).threads[id]) {
      NewPhase(s, a, id);
      var p := Next(s, a).threads[id];
      if id < |s.threads| {
        assert PhaseIsGenuine(run + [a], id, s.threads[id]);
        if p.Checked? && s.threads[id] != p {
          assert CheckedAt(run + [a], |run|, id, p.item);
        }
        if p.Armed? && s.threads[id] != p {
          assert ReadAt(run + [a], |run|, id, p.seat, p.item, p.level);
        }
      }
    }
  }

  lemma RunIsGenuine(run: seq<Action>)
    requires run != [] && Genuine(run[..|run| - 1], Exec(INITIAL, run[..|run| - 1]))
    ensures Genuine(run, Exec(INITIAL, run))
  {
    var init, a := run[..|run| - 1], run[|run| - 1];
    StepIsGenuine(init, a);
    assert init + [a] == run;
  }

  lemma InitialIsGenuine()
    ensures Genuine([], INITIAL)
  {
  }

  lemma {:induction false} ExecIsGenuine(run: seq<Action>)
    ensures Genuine(run, Exec(INITIAL, run))
  {
    InitialIsGenuine();
    if run == [] {
      assert Exec(INITIAL, run) == INITIAL;
    } else {
      ExecIsGenuine(run[..|run| - 1]);
      RunIsGenuine(run);
    }
  }

  lemma NativeStep(s: Sys, a: Action)
    requires Next(s, a).native != s.native
    ensures || (a.Rpc? && Next(s, a).native == map[])
            || (a.Write? && s.ready && Published(s, a.id) && s.threads[a.id].Armed?
                && s.threads[a.id].item.epoch == s.epoch
                && Next(s, a).native == s.native[s.threads[a.id].seat := s.threads[a.id].level])
  {
  }

  /** In every interleaving a native call, whether it goes through or fails, is for a gain that was asked for, in a
      session found ready on picking it up, at the level its own row then had. */
  lemma CallIsGenuine(run: seq<Action>, id: nat)
    requires id < |Exec(INITIAL, run).threads| && Exec(INITIAL, run).threads[id].Armed?
    ensures var p := Exec(INITIAL, run).threads[id];
      Asked(run, p.seat, p.item) && WasChecked(run, id, p.item) && WasRead(run, id, p.seat, p.item, p.level)
  {
    ExecIsGenuine(run);
    assert PhaseIsGenuine(run, id, Exec(INITIAL, run).threads[id]);
  }

  ghost predicate GenuineWrite(run: seq<Action>, a: Action)
  {
    var s := Exec(INITIAL, run);
    a.Write? && s.ready
    && exists seat: int, item: Item, level: int :: Asked(run, seat, item) && WasRead(run, a.id, seat, item, level)
         && item.epoch == s.epoch && Next(s, a).native == s.native[seat := level]
  }

  /** In every interleaving a native level changes only when a new session clears them all, or by one write: to a
      level read off the seat while it was the occupant's whose gain had been asked for there in this session. */
  lemma NativeIsGenuine(run: seq<Action>, a: Action)
    requires Next(Exec(INITIAL, run), a).native != Exec(INITIAL, run).native
    ensures (a.Rpc? && Next(Exec(INITIAL, run), a).native == map[]) || GenuineWrite(run, a)
  {
    var s := Exec(INITIAL, run);
    ExecIsGenuine(run);
    NativeStep(s, a);
    if a.Write? {
      assert PhaseIsGenuine(run, a.id, s.threads[a.id]);
    }
  }

  /** The level on record for c was asked for in the present session. */
  ghost predicate AskedNow(run: seq<Action>, epoch: nat, c: int)
  {
    exists item: Item :: item.epoch == epoch && Asked(run, c, item)
  }

  lemma StaysAsked(run: seq<Action>, a: Action, epoch: nat, c: int)
    requires AskedNow(run, epoch, c)
    ensures AskedNow(run + [a], epoch, c)
  {
    Later(run, a);
    var item: Item :| item.epoch == epoch && Asked(run, c, item);
    assert Asked(run + [a], c, item);
  }

  lemma NativeKeys(s: Sys, a: Action, c: int)
    requires c in Next(s, a).native
    ensures Next(s, a).epoch == s.epoch
    ensures c in s.native
      || (a.Write? && Published(s, a.id) && s.threads[a.id].Armed? && s.threads[a.id].item.epoch == s.epoch
          && s.threads[a.id].seat == c)
  {
  }

  lemma NativeOrigin(run: seq<Action>, a: Action, c: int)
    requires c in Next(Exec(INITIAL, run), a).native && c !in Exec(INITIAL, run).native
    ensures AskedNow(run, Exec(INITIAL, run).epoch, c)
  {
    var s := Exec(INITIAL, run);
    NativeKeys(s, a, c);
    CallIsGenuine(run, a.id);
  }

  /** In every interleaving each native level on record was asked for at its seat in the present session. */
  lemma {:induction false} NativeIsOfThisSession(run: seq<Action>, c: int)
    requires c in Exec(INITIAL, run).native
    ensures AskedNow(run, Exec(INITIAL, run).epoch, c)
  {
    if run != [] {
      var init, a := run[..|run| - 1], run[|run| - 1];
      assert run == init + [a];
      NativeKeys(Exec(INITIAL, init), a, c);
      if c in Exec(INITIAL, init).native {
        NativeIsOfThisSession(init, c);
      } else {
        NativeOrigin(init, a, c);
      }
      StaysAsked(init, a, Exec(INITIAL, init).epoch, c);
    }
  }

  /** A restored mix sends gains to the rows it restored and to nobody who sits there later; any other gesture to
      whoever sits there when its hand-over comes. */
  lemma RestoreReachesItsRows(m: Mix, op: Op, o: Owed, s: Sys)
    requires Inv(m) && o in OwedBy(m, op) && o in s.owed
    ensures var owner := Step(m, op).rows;
      && (op.Restore? && o.seat in owner && !Owns(s.mix.rows, o.seat, owner[o.seat].owner) ==> !Accepted(s, o))
      && (!op.Restore? ==> (Accepted(s, o) <==> o.seat in s.mix.rows && s.ready && !s.d.stopped))
      && (!Accepted(s, o) ==> Next(s, Enqueue(o)).d == s.d && Next(s, Enqueue(o)).covered == s.covered)
  {
  }

  /** Accepting an intent leaves only intents of this session, each with the occupant it was for still in its seat;
      none of those is dropped. */
  lemma PendingIsCurrent(s: Sys, o: Owed, c: int)
    requires Accepted(s, o)
    ensures var after := Next(s, Enqueue(o)).d.pending;
      && (c in after ==> after[c].epoch == s.epoch && Owns(s.mix.rows, c, after[c].owner))
      && (c in s.d.pending && s.d.pending[c].epoch == s.epoch && Owns(s.mix.rows, c, s.d.pending[c].owner) ==>
            c in after && after[c] == s.d.pending[c])
      && (c == o.seat ==> c in after)
  {
  }
}
