/**
 The per-user component store as its disk sees it: one saved state naming installed trees, changed by
 atomic writes, any of which may be the last before a crash.
 */
module StoreModel {
  import opened Common

  /** A component version: its slot (component, role, target, variant), version and runtime digest. */
  datatype Pointer = Pointer(slot: string, version: string, digest: string)

  datatype Entry = Entry(pointer: Pointer, managed: bool)

  /** Whether a tree on disk passes verification against its registry entry. */
  datatype Tree = Intact | Broken

  datatype State = State(current: map<string, Pointer>, previous: map<string, Pointer>, ready: map<string, Pointer>)

  datatype Disk = Disk(saved: State, trees: map<Pointer, Tree>)

  const EMPTY := Disk(State(map[], map[], map[]), map[])

  /** Unknown: the idle check raised or answered nonsense. */
  datatype Busy = Idle | Busy | Unknown

  datatype Op =
    | Commit(entry: Entry, stagingOk: bool)
    | Activate(entry: Entry, busy: Busy)
    | ActivateReady(slot: string, busy: Busy)
    | Rollback(slot: string, busy: Busy)
    | Prune

  datatype Outcome =
    | Refused
    | Installed(pointer: Pointer)
    | Deferred(current: Option<Pointer>, previous: Option<Pointer>)
    | Activated(now: Pointer, previous: Option<Pointer>)
    | Pruned(removed: seq<Pointer>)

  // ---- what operations look at ------------------------------------------------------------------------

  /** A registry lists each slot and version once, so looking a pointer up comes to this. */
  predicate Approved(registry: seq<Entry>, p: Pointer)
  {
    exists i :: 0 <= i < |registry| && registry[i].pointer == p
  }

  predicate Managed(registry: seq<Entry>, e: Entry)
  {
    e in registry && e.managed
  }

  predicate Verified(d: Disk, p: Pointer)
  {
    p in d.trees && d.trees[p].Intact?
  }

  predicate ReadableMap(registry: seq<Entry>, m: map<string, Pointer>)
  {
    forall slot :: slot in m ==> m[slot].slot == slot && Approved(registry, m[slot])
  }

  /** Reading the state refuses a pointer the registry does not hold, or one in another slot. */
  predicate Readable(registry: seq<Entry>, s: State)
  {
    ReadableMap(registry, s.current) && ReadableMap(registry, s.previous) && ReadableMap(registry, s.ready)
  }

  function At(m: map<string, Pointer>, slot: string): Option<Pointer>
  {
    if slot in m then Some(m[slot]) else None
  }

  predicate Names(m: map<string, Pointer>, p: Pointer)
  {
    exists slot :: slot in m && m[slot] == p
  }

  predicate Referenced(s: State, p: Pointer)
  {
    Names(s.current, p) || Names(s.previous, p) || Names(s.ready, p)
  }

  /** Looking at a pointer for a result verifies its tree; no pointer needs no look. */
  predicate Presentable(d: Disk, p: Option<Pointer>)
  {
    p.Some? ==> Verified(d, p.value)
  }

  /** The result of a switch to now, and of an operation put off, in a slot of this disk. */
  function Switching(d: Disk, now: Pointer, slot: string): Outcome
  {
    if Presentable(d, At(d.saved.previous, slot)) then Activated(now, At(d.saved.previous, slot)) else Refused
  }

  function PuttingOff(d: Disk, slot: string): Outcome
  {
    if Presentable(d, At(d.saved.current, slot)) && Presentable(d, At(d.saved.previous, slot))
    then Deferred(At(d.saved.current, slot), At(d.saved.previous, slot)) else Refused
  }

  // ---- new states -----------------------------------------------------------------------------------

  function Switched(s: State, p: Pointer): State
  {
    var replaced := p.slot in s.current && s.current[p.slot] != p;
    var previous := if replaced then s.previous[p.slot := s.current[p.slot]] else s.previous;
    State(s.current[p.slot := p], previous, s.ready - {p.slot})
  }

  function RolledBack(s: State, slot: string): State
    requires slot in s.previous
  {
    State(s.current[slot := s.previous[slot]],
          if slot in s.current then s.previous[slot := s.current[slot]] else s.previous - {slot},
          s.ready - {slot})
  }

  // ---- the writes of one operation ---------------------------------------------------------------------

  /** The disk before the operation and after each of its atomic writes. */
  function Trace(registry: seq<Entry>, d: Disk, op: Op): (t: seq<Disk>)
    ensures t != [] && t[0] == d
  {
    match op
    case Commit(e, stagingOk) =>
      if !Managed(registry, e) || !stagingOk then [d]
      else if e.pointer in d.trees && d.trees[e.pointer].Broken? then [d]
      else
        var d1 := d.(trees := d.trees[e.pointer := Intact]);
        var t := if e.pointer in d.trees then [d] else [d, d1];
        var ready := d.saved.ready[e.pointer.slot := e.pointer];
        if Readable(registry, d.saved) then t + [d1.(saved := d.saved.(ready := ready))] else t
    case Activate(e, busy) =>
      if Managed(registry, e) && Readable(registry, d.saved) && Verified(d, e.pointer) && busy.Idle?
      then [d, d.(saved := Switched(d.saved, e.pointer))] else [d]
    case ActivateReady(slot, busy) =>
      if Readable(registry, d.saved) && slot in d.saved.ready && Verified(d, d.saved.ready[slot]) && busy.Idle?
      then [d, d.(saved := Switched(d.saved, d.saved.ready[slot]))] else [d]
    case Rollback(slot, busy) =>
      if Readable(registry, d.saved) && slot in d.saved.previous && Verified(d, d.saved.previous[slot]) && busy.Idle?
      then [d, d.(saved := RolledBack(d.saved, slot))] else [d]
    case Prune => if Readable(registry, d.saved) then PruneTrace(registry, 0, d) else [d]
  }

  predicate Prunable(d: Disk, e: Entry)
  {
    e.managed && e.pointer in d.trees && !Referenced(d.saved, e.pointer)
  }

  function Without(d: Disk, p: Pointer): Disk
  {
    d.(trees := d.trees - {p})
  }

  /** Removing a tree breaks it before it is gone; a tree that fails verification stops the pruning. */
  function PruneTrace(registry: seq<Entry>, i: nat, d: Disk): (t: seq<Disk>)
    requires i <= |registry|
    ensures t != [] && t[0] == d
    decreases |registry| - i
  {
    if i == |registry| then [d]
    else if !Prunable(d, registry[i]) then PruneTrace(registry, i + 1, d)
    else if d.trees[registry[i].pointer].Broken? then [d]
    else
      var p := registry[i].pointer;
      [d, d.(trees := d.trees[p := Broken])] + PruneTrace(registry, i + 1, Without(d, p))
  }

  function Final(registry: seq<Entry>, d: Disk, op: Op): Disk
  {
    var t := Trace(registry, d, op);
    t[|t| - 1]
  }

  // ---- runs ---------------------------------------------------------------------------------------------

  /** An operation, cut off by a crash after some number of its writes, or not at all. */
  datatype Event = Event(op: Op, crashAfter: Option<nat>)

  function After(registry: seq<Entry>, d: Disk, event: Event): Disk
  {
    var t := Trace(registry, d, event.op);
    if event.crashAfter.Some? && event.crashAfter.value < |t| then t[event.crashAfter.value] else t[|t| - 1]
  }

  function Run(registry: seq<Entry>, events: seq<Event>): Disk
  {
    if events == [] then EMPTY
    else After(registry, Run(registry, events[..|events| - 1]), events[|events| - 1])
  }

  /** Every pointer names an installed tree that verifies, approved for that very slot; what can be rolled
      back to differs from what is current. */
  ghost predicate Good(registry: seq<Entry>, d: Disk)
  {
    && GoodMap(registry, d, d.saved.current)
    && GoodMap(registry, d, d.saved.previous)
    && GoodMap(registry, d, d.saved.ready)
    && forall slot :: slot in d.saved.previous ==>
         slot in d.saved.current && d.saved.current[slot] != d.saved.previous[slot]
  }

  ghost predicate GoodMap(registry: seq<Entry>, d: Disk, m: map<string, Pointer>)
  {
    forall slot :: slot in m ==> m[slot].slot == slot && Approved(registry, m[slot]) && Verified(d, m[slot])
  }

  lemma GoodIsReadable(registry: seq<Entry>, d: Disk)
    requires Good(registry, d)
    ensures Readable(registry, d.saved)
  {
  }

  lemma ApprovedEntry(registry: seq<Entry>, e: Entry)
    requires e in registry
    ensures Approved(registry, e.pointer)
  {
  }

  lemma InstallKeepsGood(registry: seq<Entry>, d: Disk, p: Pointer)
    requires Good(registry, d)
    ensures Good(registry, d.(trees := d.trees[p := Intact]))
  {
  }

  lemma ReadyKeepsGood(registry: seq<Entry>, d: Disk, p: Pointer)
    requires Good(registry, d) && Approved(registry, p) && Verified(d, p)
    ensures Good(registry, d.(saved := d.saved.(ready := d.saved.ready[p.slot := p])))
  {
  }

  lemma CommitKeepsGood(registry: seq<Entry>, d: Disk, e: Entry, stagingOk: bool, k: nat)
    requires Good(registry, d) && k < |Trace(registry, d, Commit(e, stagingOk))|
    ensures Good(registry, Trace(registry, d, Commit(e, stagingOk))[k])
  {
    if Managed(registry, e) {
      ApprovedEntry(registry, e);
      InstallKeepsGood(registry, d, e.pointer);
      ReadyKeepsGood(registry, d.(trees := d.trees[e.pointer := Intact]), e.pointer);
    }
  }

  lemma SwitchKeepsGood(registry: seq<Entry>, d: Disk, p: Pointer)
    requires Good(registry, d) && Approved(registry, p) && Verified(d, p)
    ensures Good(registry, d.(saved := Switched(d.saved, p)))
  {
  }

  lemma RollbackKeepsGood(registry: seq<Entry>, d: Disk, slot: string)
    requires Good(registry, d) && slot in d.saved.previous
    ensures Good(registry, d.(saved := RolledBack(d.saved, slot)))
  {
  }

  /** Changing an unreferenced tree does not concern the pointers. */
  lemma UnreferencedTree(registry: seq<Entry>, d: Disk, trees: map<Pointer, Tree>, p: Pointer)
    requires Good(registry, d) && !Referenced(d.saved, p)
    requires forall q :: q in d.trees && q != p ==> q in trees && trees[q] == d.trees[q]
    ensures Good(registry, d.(trees := trees))
  {
  }

  lemma {:induction false} PruneKeepsGood(registry: seq<Entry>, i: nat, d: Disk, k: nat)
    requires i <= |registry| && Good(registry, d) && k < |PruneTrace(registry, i, d)|
    ensures Good(registry, PruneTrace(registry, i, d)[k])
    decreases |registry| - i
  {
    if i < |registry| {
      var p := registry[i].pointer;
      if !Prunable(d, registry[i]) {
        PruneKeepsGood(registry, i + 1, d, k);
      } else if d.trees[p].Intact? {
        UnreferencedTree(registry, d, d.trees[p := Broken], p);
        UnreferencedTree(registry, d, d.trees - {p}, p);
        if k >= 2 {
          PruneKeepsGood(registry, i + 1, Without(d, p), k - 2);
        }
      }
    }
  }

  lemma StepKeepsGood(registry: seq<Entry>, d: Disk, op: Op, k: nat)
    requires Good(registry, d) && k < |Trace(registry, d, op)|
    ensures Good(registry, Trace(registry, d, op)[k])
  {
    match op
    case Commit(e, stagingOk) => CommitKeepsGood(registry, d, e, stagingOk, k);
    case Activate(e, _) =>
      if k > 0 {
        ApprovedEntry(registry, e);
        SwitchKeepsGood(registry, d, e.pointer);
      }
    case ActivateReady(slot, _) =>
      if k > 0 {
        SwitchKeepsGood(registry, d, d.saved.ready[slot]);
      }
    case Rollback(slot, _) =>
      if k > 0 {
        RollbackKeepsGood(registry, d, slot);
      }
    case Prune =>
      if Readable(registry, d.saved) {
        PruneKeepsGood(registry, 0, d, k);
      }
  }

  /** Whatever operations run and wherever crashes cut them off, the pointers stay good. */
  lemma {:induction false} EveryRunIsGood(registry: seq<Entry>, events: seq<Event>)
    ensures Good(registry, Run(registry, events))
  {
    if events != [] {
      var d, event := Run(registry, events[..|events| - 1]), events[|events| - 1];
      EveryRunIsGood(registry, events[..|events| - 1]);
      var t := Trace(registry, d, event.op);
      StepKeepsGood(registry, d, event.op,
                    if event.crashAfter.Some? && event.crashAfter.value < |t| then event.crashAfter.value else |t| - 1);
    }
  }
}
