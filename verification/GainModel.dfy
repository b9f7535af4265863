/**
 The gain dispatcher as a transition system. Each step is one lock region (or one unlocked native
 call) of some thread: a mutator changing the mix, a mutator handing one seat to the dispatcher, the
 short-lived worker popping, checking, reading and writing, the lifecycle calls, or the RPC client
 changing epoch. A run is any interleaving of such steps.
 */
module GainModel {
  import opened MixModel

  /** A pending intent owns a roster row and an RPC epoch, never a level. */
  datatype Item = Item(epoch: nat, owner: Occupant)

  datatype Worker = NoWorker | Worker(id: nat)

  /** The dispatcher's fields under its lock. */
  datatype Dispatcher = Dispatcher(pending: map<int, Item>, worker: Worker, retiring: Worker, stopped: bool)

  /** Where one worker thread stands. Checked: its item's epoch was seen to be the live one. */
  datatype Phase =
    | Unstarted
    | Top
    | Popped(seat: int, item: Item)
    | Checked(seat: int, item: Item)
    | Armed(seat: int, item: Item, level: int)
    | Exited

  /** A hand-over still to be made by a mutator; a mix restore names the row it means. */
  datatype Owed = Owed(seat: int, expected: Expected)

  datatype Expected = Anyone | Only(owner: Occupant)

  datatype Lifecycle = Idle | Starting | Stopping

  /** threads: every worker ever published, by id; born: the number of stops before it was published;
      native: the last level written per channel in the live epoch; covered: occupants with a gain
      intent accepted in the live epoch and not lost to a failed start or send;
      stops and lateWrites count stops and the native writes attempted since the latest one. */
  datatype Sys = Sys(mix: Mix, owed: multiset<Owed>, epoch: nat, ready: bool, d: Dispatcher,
                     threads: seq<Phase>, born: seq<nat>, lifecycle: Lifecycle,
                     native: map<int, int>, covered: set<Occupant>, stops: nat, lateWrites: nat)

  datatype Action =
    | Mutate(op: Op)
    | Abandon(owed: Owed)
    | Enqueue(owed: Owed)
    | StartWorker(id: nat)
    | StartWorkerFails(id: nat)
    | Pop(id: nat, seat: int)
    | CheckEpoch(id: nat)
    | Read(id: nat)
    | Write(id: nat)
    | WriteFails(id: nat)
    | Rpc(epoch: nat, ready: bool)
    | StopBegin
    | StopEnd(joined: bool)
    | StartBegin
    | StartCommit
    | StartAbort

  // ---- lock regions on the dispatcher's own fields ---------------------------------------------

  predicate Owns(rows: map<int, Row>, seat: int, owner: Occupant)
  {
    seat in rows && rows[seat].owner == owner
  }

  predicate Meets(rows: map<int, Row>, seat: int, expected: Expected)
  {
    seat in rows && (expected.Only? ==> rows[seat].owner == expected.owner)
  }

  /** Only live-epoch items of rows still seated survive a new intent. */
  function Pruned(pending: map<int, Item>, rows: map<int, Row>, epoch: nat): map<int, Item>
  {
    map c | c in pending && pending[c].epoch == epoch && Owns(rows, c, pending[c].owner) :: pending[c]
  }

  function Enqueued(d: Dispatcher, rows: map<int, Row>, epoch: nat, seat: int, newId: nat): Dispatcher
    requires seat in rows
  {
    d.(pending := Pruned(d.pending, rows, epoch)[seat := Item(epoch, rows[seat].owner)],
       worker := if d.worker.NoWorker? then Worker(newId) else d.worker)
  }

  function StartFailed(d: Dispatcher, id: nat): Dispatcher
  {
    if d.worker == Worker(id) then d.(pending := map[], worker := NoWorker) else d
  }

  /** The region at the top of the drain loop. seat is whichever pending item comes first. */
  function TopRegion(d: Dispatcher, id: nat, seat: int): (Dispatcher, Phase)
    requires d.pending != map[] ==> seat in d.pending
  {
    if d.worker != Worker(id) then (d, Exited)
    else if d.stopped || d.pending == map[] then (d.(pending := map[], worker := NoWorker), Exited)
    else (d.(pending := d.pending - {seat}), Popped(seat, d.pending[seat]))
  }

  function StopRegion(d: Dispatcher): Dispatcher
  {
    d.(stopped := true, pending := map[], retiring := if d.worker.NoWorker? then d.retiring else d.worker)
  }

  /** The region after the bounded join; joined says the captured worker is no longer alive. */
  function JoinRegion(d: Dispatcher, joined: bool): Dispatcher
  {
    if joined && d.worker != d.retiring then d.(retiring := NoWorker) else d
  }

  /** The guard at the top of start: the worker of the last stop must be done for. */
  predicate MayBegin(d: Dispatcher, alive: bool)
  {
    d.retiring.NoWorker? || (!alive && d.worker != d.retiring)
  }

  /** The region of a start that has gone through. */
  function CommitRegion(d: Dispatcher): Dispatcher
  {
    d.(stopped := false)
  }

  function Finished(threads: seq<Phase>, w: Worker): bool
  {
    w.Worker? && w.id < |threads| && (threads[w.id].Unstarted? || threads[w.id].Exited?)
  }

  // ---- one step ----------------------------------------------------------------------------------

  function Expecting(after: Mix, op: Op, c: int): Expected
  {
    if op.Restore? && c in after.rows then Only(after.rows[c].owner) else Anyone
  }

  ghost function OwedBy(m: Mix, op: Op): set<Owed>
  {
    set c | c in Reapplied(m, op) :: Owed(c, Expecting(Step(m, op), op, c))
  }

  function Move(s: Sys, id: nat, phase: Phase): Sys
    requires id < |s.threads|
  {
    s.(threads := s.threads[id := phase])
  }

  predicate Published(s: Sys, id: nat)
  {
    id < |s.threads|
  }

  ghost function Next(s: Sys, a: Action): Sys
  {
    match a
    case Mutate(op) => s.(mix := Step(s.mix, op), owed := s.owed + multiset(OwedBy(s.mix, op)))
    case Abandon(o) =>
      if o in s.owed && !Meets(s.mix.rows, o.seat, o.expected) then s.(owed := s.owed - multiset{o}) else s
    case Enqueue(o) =>
      if o !in s.owed then s
      else if s.d.stopped || !s.ready || !Meets(s.mix.rows, o.seat, o.expected) then s.(owed := s.owed - multiset{o})
      else
        var publish := s.d.worker.NoWorker?;
        s.(owed := s.owed - multiset{o},
           d := Enqueued(s.d, s.mix.rows, s.epoch, o.seat, |s.threads|),
           threads := if publish then s.threads + [Unstarted] else s.threads,
           born := if publish then s.born + [s.stops] else s.born,
           covered := s.covered + {s.mix.rows[o.seat].owner})
    case StartWorker(id) => if Published(s, id) && s.threads[id].Unstarted? then Move(s, id, Top) else s
    case StartWorkerFails(id) =>
      if Published(s, id) && s.threads[id].Unstarted? then
        Move(s, id, Exited).(d := StartFailed(s.d, id),
                             covered := if s.d.worker == Worker(id) then s.covered - Queued(s.d) else s.covered)
      else s
    case Pop(id, seat) =>
      if Published(s, id) && s.threads[id].Top? && (s.d.pending != map[] ==> seat in s.d.pending) then
        var (d, phase) := TopRegion(s.d, id, seat);
        Move(s, id, phase).(d := d)
      else s
    case CheckEpoch(id) =>
      if Published(s, id) && s.threads[id].Popped? then
        var p := s.threads[id];
        Move(s, id, if s.ready && p.item.epoch == s.epoch then Checked(p.seat, p.item) else Top)
      else s
    case Read(id) =>
      if Published(s, id) && s.threads[id].Checked? then
        var p := s.threads[id];
        Move(s, id, if Owns(s.mix.rows, p.seat, p.item.owner)
                    then Armed(p.seat, p.item, Effective(s.mix.rows[p.seat])) else Top)
      else s
    case Write(id) =>
      if Published(s, id) && s.threads[id].Armed? then
        var p := s.threads[id];
        Move(s, id, Top).(lateWrites := s.lateWrites + 1,
                          native := if s.ready && p.item.epoch == s.epoch then s.native[p.seat := p.level]
                                    else s.native)
      else s
    case WriteFails(id) =>
      if Published(s, id) && s.threads[id].Armed? then
        Move(s, id, Top).(lateWrites := s.lateWrites + 1, covered := s.covered - {s.threads[id].item.owner})
      else s
    case Rpc(epoch, ready) =>
      if epoch >= s.epoch then s.(epoch := epoch, ready := ready, native := map[], covered := {}) else s
    case StopBegin =>
      if s.lifecycle.Idle? then
        s.(lifecycle := Stopping, d := StopRegion(s.d), covered := {}, stops := s.stops + 1,
           lateWrites := if s.d.stopped then s.lateWrites else 0)
      else s
    case StopEnd(joined) =>
      if s.lifecycle.Stopping? then
        s.(lifecycle := Idle, d := JoinRegion(s.d, joined && Finished(s.threads, s.d.retiring)))
      else s
    case StartBegin =>
      if s.lifecycle.Idle? && MayBegin(s.d, !Finished(s.threads, s.d.retiring))
      then s.(lifecycle := Starting, d := s.d.(retiring := NoWorker)) else s
    case StartCommit => if s.lifecycle.Starting? then s.(lifecycle := Idle, d := CommitRegion(s.d)) else s
    case StartAbort => if s.lifecycle.Starting? then s.(lifecycle := Idle) else s
  }

  function Queued(d: Dispatcher): set<Occupant>
  {
    set c | c in d.pending :: d.pending[c].owner
  }

  ghost function Exec(s: Sys, run: seq<Action>): Sys
  {
    if run == [] then s else Next(Exec(s, run[..|run| - 1]), run[|run| - 1])
  }

  const INITIAL := Sys(EMPTY, multiset{}, 0, false, Dispatcher(map[], NoWorker, NoWorker, false),
                       [], [], Idle, map[], {}, 0, 0)
}
