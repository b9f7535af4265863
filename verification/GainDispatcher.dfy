/**
 The dispatcher's own code: each method is the body of one critical section, proved to be the region of
 the same name in the transition system; Drain is the worker's whole loop when nothing interleaves.
 */
module GainDispatcher {
  import Common
  import opened MixModel
  import opened GainModel

  /** The rebuilt pending map: live-epoch items whose row still belongs to the same occupant. */
  method Survivors(pending: map<int, Item>, rows: map<int, Row>, epoch: nat) returns (kept: map<int, Item>)
    ensures kept == Pruned(pending, rows, epoch)
  {
    kept := map[];
    var left := pending.Keys;
    while left != {}
      invariant left <= pending.Keys
      invariant forall c: int :: c in kept <==> c !in left && c in Pruned(pending, rows, epoch)
      invariant forall c: int :: c in kept ==> kept[c] == pending[c]
      decreases left
    {
      var c := Common.AnyOf(left);
      var item := pending[c];
      if item.epoch == epoch && c in rows && rows[c].owner == item.owner {
        kept := kept[c := item];
      }
      left := left - {c};
    }
    Common.MapsAgree(kept, Pruned(pending, rows, epoch));
  }

  class Dispatch {
    var pending: map<int, Item>
    var worker: Worker
    var retiring: Worker
    var stopped: bool

    constructor ()
      ensures View() == INITIAL.d
    {
      pending, worker, retiring, stopped := map[], NoWorker, NoWorker, false;
    }

    function View(): Dispatcher
      reads this
    {
      Dispatcher(pending, worker, retiring, stopped)
    }

    /** The enqueueing section. start: the caller must now start the worker it published. */
    method Send(rows: map<int, Row>, epoch: nat, ready: bool, seat: int, expected: Expected, newId: nat)
      returns (start: bool)
      modifies this
      ensures View() == if old(stopped) || !ready || !Meets(rows, seat, expected) then old(View())
                        else Enqueued(old(View()), rows, epoch, seat, newId)
      ensures start == (old(worker).NoWorker? && worker.Worker?)
      ensures forall c :: c in Pruned(old(pending), rows, epoch) && c != seat ==>
        c in pending && pending[c] == old(pending)[c]
    {
      start := false;
      if stopped || !ready || seat !in rows { return; }
      if expected.Only? && rows[seat].owner != expected.owner { return; }
      var kept := Survivors(pending, rows, epoch);
      pending := kept[seat := Item(epoch, rows[seat].owner)];
      if worker.NoWorker? {
        worker := Worker(newId);
        start := true;
      }
    }

    /** The handler for a thread that could not be started. */
    method NotStarted(id: nat)
      modifies this
      ensures View() == StartFailed(old(View()), id)
    {
      if worker == Worker(id) {
        worker := NoWorker;
        pending := map[];
      }
    }

    /** The section at the top of the drain loop: more says an item was popped. */
    method Pop(id: nat) returns (more: bool, seat: int, item: Item)
      modifies this
      ensures more ==> seat in old(pending) && item == old(pending)[seat] && pending == old(pending) - {seat}
      ensures more ==> worker == old(worker) && retiring == old(retiring) && stopped == old(stopped)
      ensures !more ==> retiring == old(retiring) && stopped == old(stopped)
      ensures more <==> old(worker) == Worker(id) && !old(stopped) && old(pending) != map[]
      ensures more ==> TopRegion(old(View()), id, seat) == (View(), Popped(seat, item))
      ensures !more ==> forall c :: c in old(pending) || old(pending) == map[] ==>
        TopRegion(old(View()), id, c) == (View(), Exited)
    {
      more, seat, item := false, 0, Item(0, Occupant(0, 0));
      if worker != Worker(id) { return; }
      if stopped || pending == map[] {
        pending := map[];
        worker := NoWorker;
        return;
      }
      SomeKey(pending);
      seat := Common.AnyOf(pending.Keys);
      item := pending[seat];
      pending := pending - {seat};
      more := true;
    }

    method Stop()
      modifies this
      ensures View() == StopRegion(old(View()))
    {
      stopped := true;
      pending := map[];
      if worker.Worker? { retiring := worker; }
    }

    /** After the bounded join of the worker that Stop captured. */
    method Joined(captured: Worker, finished: bool)
      modifies this
      ensures View() == if old(retiring) == captured then JoinRegion(old(View()), finished) else old(View())
    {
      if finished && retiring == captured && worker != captured {
        retiring := NoWorker;
      }
    }

    /** The guard at the top of start: refuses while the retired worker may still act. */
    method MayStart(alive: bool) returns (ok: bool)
      modifies this
      ensures ok <==> MayBegin(old(View()), alive)
      ensures View() == if ok then old(View()).(retiring := NoWorker) else old(View())
    {
      if retiring.Worker? {
        if alive || worker == retiring { return false; }
        retiring := NoWorker;
      }
      return true;
    }

    /** The end of a start that went through. */
    method Restarted()
      modifies this
      ensures View() == CommitRegion(old(View()))
    {
      stopped := false;
    }

    /** The drain loop run alone by the published worker: every pending item of the live epoch whose row is
        still the same occupant's is written once, at its effective gain; nothing else is written. */
    method Drain(id: nat, rows: map<int, Row>, epoch: nat, ready: bool, native: map<int, int>)
      returns (written: map<int, int>)
      requires worker == Worker(id) && !stopped
      modifies this
      ensures pending == map[] && worker.NoWorker? && retiring == old(retiring) && !stopped
      ensures written == native + Gains(old(pending), rows, epoch, ready)
    {
      written := native;
      ghost var done: map<int, Item> := map[];
      while true
        invariant worker == Worker(id) && !stopped && retiring == old(retiring)
        invariant Split(old(pending), done, pending)
        invariant written == native + Gains(done, rows, epoch, ready)
        decreases |pending|
      {
        ghost var before := pending;
        var more, seat, item := Pop(id);
        if !more {
          SplitDone(old(pending), done);
          return;
        }
        SmallerMap(before, seat);
        SplitMoves(old(pending), done, before, seat);
        GainsOneMore(done, seat, item, rows, epoch, ready, native);
        done := done[seat := item];
        if !ready || item.epoch != epoch { continue; }
        if seat !in rows || rows[seat].owner != item.owner { continue; }
        written := written[seat := Effective(rows[seat])];
      }
    }
  }

  /** all is shared out between what was drained and what is still pending. */
  ghost predicate Split(all: map<int, Item>, done: map<int, Item>, pending: map<int, Item>)
  {
    && (forall c: int :: c in all <==> c in done || c in pending)
    && (forall c: int :: c in done ==> c !in pending && c in all && done[c] == all[c])
    && (forall c: int :: c in pending ==> c in all && pending[c] == all[c])
  }

  lemma SplitDone(all: map<int, Item>, done: map<int, Item>)
    requires Split(all, done, map[])
    ensures done == all
  {
    Common.MapsAgree(done, all);
  }

  lemma SplitMoves(all: map<int, Item>, done: map<int, Item>, pending: map<int, Item>, seat: int)
    requires Split(all, done, pending) && seat in pending
    ensures Split(all, done[seat := pending[seat]], pending - {seat}) && seat !in done
  {
  }

  /** What draining these items writes. */
  ghost function Gains(items: map<int, Item>, rows: map<int, Row>, epoch: nat, ready: bool): map<int, int>
  {
    map c | c in items && ready && c in Pruned(items, rows, epoch) :: Effective(rows[c])
  }

  lemma GainsOneMore(done: map<int, Item>, seat: int, item: Item, rows: map<int, Row>, epoch: nat, ready: bool,
                     native: map<int, int>)
    requires seat !in done
    ensures native + Gains(done[seat := item], rows, epoch, ready)
         == (if ready && item.epoch == epoch && Owns(rows, seat, item.owner)
             then (native + Gains(done, rows, epoch, ready))[seat := Effective(rows[seat])]
             else native + Gains(done, rows, epoch, ready))
  {
    var more := Gains(done[seat := item], rows, epoch, ready);
    var less := Gains(done, rows, epoch, ready);
    if ready && item.epoch == epoch && Owns(rows, seat, item.owner) {
      Common.MapsAgree(more, less[seat := Effective(rows[seat])]);
    } else {
      Common.MapsAgree(more, less);
    }
  }

  lemma SomeKey<K, V>(m: map<K, V>)
    requires m != map[]
    ensures m.Keys != {}
  {
    assert exists k :: k in m;
  }

  lemma SmallerMap<K, V>(m: map<K, V>, k: K)
    requires k in m
    ensures |m - {k}| < |m|
  {
    assert (m - {k}).Keys == m.Keys - {k};
  }
}
