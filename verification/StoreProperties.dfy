/** Rollback, deferral, pruning, and what a crash can leave behind. */
module StoreProperties {
  import opened Common
  import opened StoreModel

  predicate SameAt(m: map<string, Pointer>, n: map<string, Pointer>, slot: string)
  {
    At(m, slot) == At(n, slot)
  }

  lemma RollbackGoesThrough(registry: seq<Entry>, d: Disk, slot: string)
    requires Good(registry, d) && slot in d.saved.previous
    ensures var d1 := d.(saved := RolledBack(d.saved, slot));
      Final(registry, d, Rollback(slot, Idle)) == d1 && Good(registry, d1) && slot in d1.saved.previous && d1 != d
  {
    RollbackKeepsGood(registry, d, slot);
    assert RolledBack(d.saved, slot).current[slot] != d.saved.current[slot];
  }

  lemma SwapTwice(s: State, slot: string, at: string)
    requires slot in s.previous && slot in s.current
    ensures var twice := RolledBack(RolledBack(s, slot), slot);
      SameAt(twice.current, s.current, at) && SameAt(twice.previous, s.previous, at)
  {
  }

  /** Rolling back changes the pointers; rolling back twice restores every current and previous one. */
  lemma RollbackTwice(registry: seq<Entry>, d: Disk, slot: string)
    requires Good(registry, d) && slot in d.saved.previous
    ensures var once := Final(registry, d, Rollback(slot, Idle));
      var twice := Final(registry, once, Rollback(slot, Idle));
      && once != d && slot in once.saved.previous && twice.trees == d.trees
      && forall s ::
           SameAt(twice.saved.current, d.saved.current, s) && SameAt(twice.saved.previous, d.saved.previous, s)
  {
    RollbackGoesThrough(registry, d, slot);
    RollbackGoesThrough(registry, d.(saved := RolledBack(d.saved, slot)), slot);
    forall s ensures var twice := RolledBack(RolledBack(d.saved, slot), slot);
      SameAt(twice.current, d.saved.current, s) && SameAt(twice.previous, d.saved.previous, s)
    {
      SwapTwice(d.saved, slot, s);
    }
  }

  /** op, with the runtime idle, activates p: named outright, or as the ready component of its slot. */
  predicate Activates(registry: seq<Entry>, d: Disk, op: Op, p: Pointer)
  {
    match op
    case Activate(e, busy) => busy.Idle? && Managed(registry, e) && e.pointer == p && Verified(d, p)
    case ActivateReady(slot, busy) => busy.Idle? && slot in d.saved.ready && d.saved.ready[slot] == p
    case _ => false
  }

  lemma ActivationSwitches(registry: seq<Entry>, d: Disk, op: Op, p: Pointer)
    requires Good(registry, d) && Activates(registry, d, op, p)
    ensures var d1 := d.(saved := Switched(d.saved, p)); Final(registry, d, op) == d1 && Good(registry, d1)
  {
    GoodIsReadable(registry, d);
    if op.Activate? {
      ApprovedEntry(registry, op.entry);
    }
    SwitchKeepsGood(registry, d, p);
  }

  /** What changes in the pointers of one slot, nothing changing in any other. */
  ghost predicate Moves(before: State, after: State, slot: string, current: Option<Pointer>, previous: Option<Pointer>,
                        ready: Option<Pointer>)
  {
    && At(after.current, slot) == current && At(after.previous, slot) == previous && At(after.ready, slot) == ready
    && forall s :: s != slot ==>
         SameAt(after.current, before.current, s) && SameAt(after.previous, before.previous, s)
         && SameAt(after.ready, before.ready, s)
  }

  /** After any run, committing a managed component whose tree is not broken installs it and makes it ready in
      its slot; nothing else changes. Activating what is ready then makes it current. */
  lemma CommitMakesReady(registry: seq<Entry>, events: seq<Event>, e: Entry)
    requires Managed(registry, e)
    requires var d := Run(registry, events); e.pointer in d.trees ==> d.trees[e.pointer].Intact?
    ensures var d := Run(registry, events); var d1 := Final(registry, d, Commit(e, true)); var slot := e.pointer.slot;
      && d1.trees == d.trees[e.pointer := Intact]
      && Moves(d.saved, d1.saved, slot, At(d.saved.current, slot), At(d.saved.previous, slot), Some(e.pointer))
      && At(Final(registry, d1, ActivateReady(slot, Idle)).saved.current, slot) == Some(e.pointer)
  {
    var d := Run(registry, events);
    EveryRunIsGood(registry, events);
    GoodIsReadable(registry, d);
    CommitKeepsGood(registry, d, e, true, |Trace(registry, d, Commit(e, true))| - 1);
    GoodIsReadable(registry, Final(registry, d, Commit(e, true)));
  }

  /** A component that is not managed, was not staged properly, or is installed and broken leaves the store as it
      was. */
  lemma CommitRefused(registry: seq<Entry>, d: Disk, e: Entry, stagingOk: bool)
    requires !(e in registry && e.managed) || !stagingOk || (e.pointer in d.trees && d.trees[e.pointer].Broken?)
    ensures Trace(registry, d, Commit(e, stagingOk)) == [d]
  {
  }

  /** After any run, activating a component, by name or the ready one, makes it the current one of its slot and
      what it replaces the previous one; nothing is ready there any more, and nothing else changes. */
  lemma ActivationTakesEffect(registry: seq<Entry>, events: seq<Event>, op: Op, p: Pointer)
    requires Activates(registry, Run(registry, events), op, p)
    ensures var d := Run(registry, events); var d1 := Final(registry, d, op);
      var replaced := p.slot in d.saved.current && d.saved.current[p.slot] != p;
      && d1.trees == d.trees
      && Moves(d.saved, d1.saved, p.slot, Some(p),
               if replaced then At(d.saved.current, p.slot) else At(d.saved.previous, p.slot), None)
  {
    EveryRunIsGood(registry, events);
    ActivationSwitches(registry, Run(registry, events), op, p);
  }

  /** After any run, rolling an idle slot back swaps its current and previous pointer and empties what is ready. */
  lemma RollbackTakesEffect(registry: seq<Entry>, events: seq<Event>, slot: string)
    requires slot in Run(registry, events).saved.previous
    ensures var d := Run(registry, events); var d1 := Final(registry, d, Rollback(slot, Idle));
      && d1.trees == d.trees
      && Moves(d.saved, d1.saved, slot, At(d.saved.previous, slot), At(d.saved.current, slot), None)
  {
    EveryRunIsGood(registry, events);
    RollbackGoesThrough(registry, Run(registry, events), slot);
  }

  /** Where a state file names a pointer in another slot's place, or one that the registry does not list, every
      operation leaves the state as it is, and all but an installation leave the trees too. */
  lemma UnreadableStopsAll(registry: seq<Entry>, d: Disk, m: map<string, Pointer>, slot: string, op: Op)
    requires m == d.saved.current || m == d.saved.previous || m == d.saved.ready
    requires slot in m
    requires m[slot].slot != slot || forall i :: 0 <= i < |registry| ==> registry[i].pointer != m[slot]
    ensures Final(registry, d, op).saved == d.saved && (op.Commit? || Final(registry, d, op) == d)
  {
  }

  /** Rolling back right after an activation, by name or of the ready component, restores the current pointers
      exactly when it replaced one; what it replaced becomes current again, what was activated the previous. */
  lemma RollbackUndoesReplacement(registry: seq<Entry>, d: Disk, op: Op, p: Pointer)
    requires Good(registry, d) && Activates(registry, d, op, p)
    ensures var d1 := Final(registry, d, op); var d2 := Final(registry, d1, Rollback(p.slot, Idle));
      var replaced := p.slot in d.saved.current && d.saved.current[p.slot] != p;
      && (replaced ==> forall s :: SameAt(d2.saved.current, d.saved.current, s))
      && (replaced ==> At(d2.saved.previous, p.slot) == Some(p))
      && (p.slot in d1.saved.previous && SameAt(d2.saved.current, d.saved.current, p.slot) <==> replaced)
  {
    ActivationSwitches(registry, d, op, p);
    var d1 := Final(registry, d, op);
    if p.slot in d1.saved.previous {
      RollbackGoesThrough(registry, d1, p.slot);
    }
  }

  /** In every reachable state a switch and a postponement are shown for what they are: neither is refused because
      a pointer beside it does not verify. */
  lemma AlwaysShown(registry: seq<Entry>, events: seq<Event>, now: Pointer, slot: string)
    ensures var d := Run(registry, events);
      && Switching(d, now, slot) == Activated(now, At(d.saved.previous, slot))
      && PuttingOff(d, slot) == Deferred(At(d.saved.current, slot), At(d.saved.previous, slot))
  {
    EveryRunIsGood(registry, events);
  }

  /** In any other state, one beside it that does not verify makes the answer a refusal. */
  lemma BrokenIsNotShown(d: Disk, now: Pointer, slot: string, p: Pointer)
    requires p !in d.trees || d.trees[p].Broken?
    ensures At(d.saved.previous, slot) == Some(p) ==> Switching(d, now, slot).Refused? && PuttingOff(d, slot).Refused?
    ensures At(d.saved.current, slot) == Some(p) ==> PuttingOff(d, slot).Refused?
  {
  }

  function BusyOf(op: Op): Busy
  {
    match op
    case Activate(_, busy) => busy
    case ActivateReady(_, busy) => busy
    case Rollback(_, busy) => busy
    case _ => Idle
  }

  /** Nothing is written while the runtime is busy or cannot prove it is idle. */
  lemma BusyChangesNothing(registry: seq<Entry>, d: Disk, op: Op)
    requires BusyOf(op) != Idle
    ensures Trace(registry, d, op) == [d]
  {
  }

  /** A crash leaves the pointers as they were before the operation or as they are after it. */
  lemma PointersChangeAtOnce(registry: seq<Entry>, d: Disk, op: Op, k: nat)
    requires k < |Trace(registry, d, op)|
    ensures var t := Trace(registry, d, op); t[k].saved == d.saved || t[k].saved == t[|t| - 1].saved
  {
    if op.Prune? && Readable(registry, d.saved) {
      PruneKeepsSaved(registry, 0, d, k);
    }
  }

  lemma {:induction false} PruneKeepsSaved(registry: seq<Entry>, i: nat, d: Disk, k: nat)
    requires i <= |registry| && k < |PruneTrace(registry, i, d)|
    ensures PruneTrace(registry, i, d)[k].saved == d.saved
    decreases |registry| - i
  {
    if i < |registry| {
      if !Prunable(d, registry[i]) {
        PruneKeepsSaved(registry, i + 1, d, k);
      } else if d.trees[registry[i].pointer].Intact? && k >= 2 {
        PruneKeepsSaved(registry, i + 1, Without(d, registry[i].pointer), k - 2);
      }
    }
  }

  // ---- pruning ---------------------------------------------------------------------------------------

  /** A registry entry from i on would be pruned for p. */
  predicate Garbage(registry: seq<Entry>, i: nat, d: Disk, p: Pointer)
  {
    exists j :: i <= j < |registry| && registry[j].pointer == p && Prunable(d, registry[j])
  }

  /** Some garbage tree does not verify. */
  predicate Stuck(registry: seq<Entry>, i: nat, d: Disk)
  {
    exists j :: i <= j < |registry| && Prunable(d, registry[j]) && d.trees[registry[j].pointer].Broken?
  }

  function PruneFinal(registry: seq<Entry>, i: nat, d: Disk): Disk
    requires i <= |registry|
  {
    var t := PruneTrace(registry, i, d);
    t[|t| - 1]
  }

  lemma PruneFinalStep(registry: seq<Entry>, i: nat, d: Disk)
    requires i < |registry|
    ensures PruneFinal(registry, i, d) ==
      if !Prunable(d, registry[i]) then PruneFinal(registry, i + 1, d)
      else if d.trees[registry[i].pointer].Broken? then d
      else PruneFinal(registry, i + 1, Without(d, registry[i].pointer))
  {
  }

  /** What remains after pruning from i on: when nothing is stuck, exactly the trees that are not garbage. */
  lemma {:induction false} PruneRemovesGarbage(registry: seq<Entry>, i: nat, d: Disk, p: Pointer)
    requires i <= |registry| && !Stuck(registry, i, d)
    ensures var after := PruneFinal(registry, i, d);
      && (p in after.trees <==> p in d.trees && !Garbage(registry, i, d, p))
      && (p in after.trees ==> after.trees[p] == d.trees[p])
    decreases |registry| - i
  {
    if i < |registry| {
      PruneFinalStep(registry, i, d);
      var e := registry[i];
      if !Prunable(d, e) {
        NotStuckLater(registry, i, d, d);
        PruneRemovesGarbage(registry, i + 1, d, p);
        assert Garbage(registry, i, d, p) == Garbage(registry, i + 1, d, p);
      } else {
        var d1 := Without(d, e.pointer);
        NotStuckLater(registry, i, d, d1);
        PruneRemovesGarbage(registry, i + 1, d1, p);
        GarbageLater(registry, i, d, p);
      }
    }
  }

  lemma NotStuckLater(registry: seq<Entry>, i: nat, d: Disk, d1: Disk)
    requires i < |registry| && !Stuck(registry, i, d)
    requires d1 == d || (Prunable(d, registry[i]) && d1 == Without(d, registry[i].pointer))
    ensures !Stuck(registry, i + 1, d1)
    ensures Prunable(d, registry[i]) ==> d.trees[registry[i].pointer].Intact?
  {
    forall j | i < j < |registry| && Prunable(d1, registry[j]) ensures d1.trees[registry[j].pointer].Intact? {
      assert Prunable(d, registry[j]);
    }
  }

  lemma GarbageLater(registry: seq<Entry>, i: nat, d: Disk, p: Pointer)
    requires i < |registry| && Prunable(d, registry[i])
    ensures var d1 := Without(d, registry[i].pointer);
      p in d1.trees && !Garbage(registry, i + 1, d1, p) <==> p in d.trees && !Garbage(registry, i, d, p)
  {
    var d1 := Without(d, registry[i].pointer);
    if p != registry[i].pointer {
      if Garbage(registry, i + 1, d1, p) {
        var j :| i + 1 <= j < |registry| && registry[j].pointer == p && Prunable(d1, registry[j]);
        assert Prunable(d, registry[j]);
      }
      if Garbage(registry, i, d, p) {
        var j :| i <= j < |registry| && registry[j].pointer == p && Prunable(d, registry[j]);
        assert Prunable(d1, registry[j]);
      }
    }
  }

  /** Said of the state file and the registry themselves. */
  ghost predicate Needed(registry: seq<Entry>, s: State, p: Pointer)
  {
    || (exists slot :: slot in s.current && s.current[slot] == p)
    || (exists slot :: slot in s.previous && s.previous[slot] == p)
    || (exists slot :: slot in s.ready && s.ready[slot] == p)
    || (forall e :: e in registry && e.pointer == p ==> !e.managed)
  }

  lemma GarbageIsNotNeeded(registry: seq<Entry>, d: Disk, p: Pointer)
    requires p in d.trees
    ensures Garbage(registry, 0, d, p) <==> !Needed(registry, d.saved, p)
  {
    if !Needed(registry, d.saved, p) {
      var e :| e in registry && e.pointer == p && e.managed;
      var j :| 0 <= j < |registry| && registry[j] == e;
      assert Prunable(d, registry[j]);
    }
  }

  /** From a readable state, pruning that is not stuck removes exactly the unreferenced trees of managed
      registry entries, and leaves every other tree and the saved state alone. */
  lemma PruneIsExact(registry: seq<Entry>, d: Disk, p: Pointer)
    requires Readable(registry, d.saved) && !Stuck(registry, 0, d)
    ensures var after := Final(registry, d, Prune);
      && after.saved == d.saved
      && (p in after.trees <==> p in d.trees && Needed(registry, d.saved, p))
      && (p in after.trees ==> after.trees[p] == d.trees[p])
  {
    PruneRemovesGarbage(registry, 0, d, p);
    if p in d.trees {
      GarbageIsNotNeeded(registry, d, p);
    }
    PruneKeepsSaved(registry, 0, d, |PruneTrace(registry, 0, d)| - 1);
  }

  /** A tree that fails verification is never repaired: no operation, crashed or not, touches it. */
  lemma BrokenStays(registry: seq<Entry>, d: Disk, op: Op, k: nat, p: Pointer)
    requires p in d.trees && d.trees[p].Broken? && k < |Trace(registry, d, op)|
    ensures p in Trace(registry, d, op)[k].trees && Trace(registry, d, op)[k].trees[p].Broken?
  {
    if op.Prune? && Readable(registry, d.saved) {
      PruneKeepsBroken(registry, 0, d, k, p);
    }
  }

  lemma {:induction false} PruneKeepsBroken(registry: seq<Entry>, i: nat, d: Disk, k: nat, p: Pointer)
    requires p in d.trees && d.trees[p].Broken? && i <= |registry| && k < |PruneTrace(registry, i, d)|
    ensures p in PruneTrace(registry, i, d)[k].trees && PruneTrace(registry, i, d)[k].trees[p].Broken?
    decreases |registry| - i
  {
    if i < |registry| {
      if !Prunable(d, registry[i]) {
        PruneKeepsBroken(registry, i + 1, d, k, p);
      } else if d.trees[registry[i].pointer].Intact? && k >= 2 {
        PruneKeepsBroken(registry, i + 1, Without(d, registry[i].pointer), k - 2, p);
      }
    }
  }

  ghost predicate AllIntact(d: Disk)
  {
    forall p :: p in d.trees ==> d.trees[p].Intact?
  }

  /** Where all trees verify, a prune cut off before its first write, between two removals or not at all leaves
      them so; cut off inside a removal it does not. */
  lemma {:induction false} TornInsideARemoval(registry: seq<Entry>, i: nat, d: Disk, k: nat)
    requires AllIntact(d) && i <= |registry| && k < |PruneTrace(registry, i, d)|
    ensures AllIntact(PruneTrace(registry, i, d)[k]) <==> k % 2 == 0
    decreases |registry| - i
  {
    if i < |registry| {
      var p := registry[i].pointer;
      if !Prunable(d, registry[i]) {
        TornInsideARemoval(registry, i + 1, d, k);
      } else if k == 1 {
        assert d.(trees := d.trees[p := Broken]).trees[p].Broken?;
      } else if k >= 2 {
        TornInsideARemoval(registry, i + 1, Without(d, p), k - 2);
      }
    }
  }

  lemma {:induction false} PruneTraceIsOdd(registry: seq<Entry>, i: nat, d: Disk)
    requires i <= |registry|
    ensures |PruneTrace(registry, i, d)| % 2 == 1
    decreases |registry| - i
  {
    if i < |registry| {
      PruneTraceIsOdd(registry, i + 1, d);
      PruneTraceIsOdd(registry, i + 1, Without(d, registry[i].pointer));
    }
  }

  /** The prune is cut off inside the removal of a tree: after an odd number of its writes. */
  predicate Torn(registry: seq<Entry>, d: Disk, event: Event)
  {
    && event.op.Prune? && event.crashAfter.Some?
    && event.crashAfter.value < |Trace(registry, d, event.op)| && event.crashAfter.value % 2 == 1
  }

  lemma {:induction false} EventTears(registry: seq<Entry>, d: Disk, event: Event)
    requires AllIntact(d)
    ensures AllIntact(After(registry, d, event)) <==> !Torn(registry, d, event)
  {
    var t := Trace(registry, d, event.op);
    if event.op.Prune? && Readable(registry, d.saved) {
      PruneTraceIsOdd(registry, 0, d);
      TornInsideARemoval(registry, 0, d, CutAt(registry, d, event));
    }
  }

  function CutAt(registry: seq<Entry>, d: Disk, event: Event): (k: nat)
    ensures k < |Trace(registry, d, event.op)| && After(registry, d, event) == Trace(registry, d, event.op)[k]
  {
    var t := Trace(registry, d, event.op);
    if event.crashAfter.Some? && event.crashAfter.value < |t| then event.crashAfter.value else |t| - 1
  }

  predicate TornAt(registry: seq<Entry>, events: seq<Event>, i: nat)
    requires i < |events|
  {
    Torn(registry, Run(registry, events[..i]), events[i])
  }

  /** No prune of the run is cut off inside a removal. */
  ghost predicate NeverTorn(registry: seq<Entry>, events: seq<Event>)
  {
    forall i :: 0 <= i < |events| ==> !TornAt(registry, events, i)
  }

  lemma NeverTornStep(registry: seq<Entry>, events: seq<Event>)
    requires events != []
    ensures var n := |events| - 1;
      NeverTorn(registry, events) <==> NeverTorn(registry, events[..n]) && !TornAt(registry, events, n)
  {
    var n := |events| - 1;
    forall i | 0 <= i < n ensures TornAt(registry, events[..n], i) == TornAt(registry, events, i) {
      assert events[..n][..i] == events[..i];
    }
  }

  lemma BrokenThroughout(registry: seq<Entry>, d: Disk, event: Event)
    requires !AllIntact(d)
    ensures !AllIntact(After(registry, d, event))
  {
    var p :| p in d.trees && d.trees[p].Broken?;
    BrokenStays(registry, d, event.op, CutAt(registry, d, event), p);
  }

  /** Over every run, whatever else crashed, all trees verify if and only if no prune was cut off inside a
      removal. */
  lemma {:induction false} OnlyATornPruneBreaks(registry: seq<Entry>, events: seq<Event>)
    ensures AllIntact(Run(registry, events)) <==> NeverTorn(registry, events)
  {
    if events != [] {
      var before, event := events[..|events| - 1], events[|events| - 1];
      var d := Run(registry, before);
      OnlyATornPruneBreaks(registry, before);
      NeverTornStep(registry, events);
      if AllIntact(d) {
        EventTears(registry, d, event);
      } else {
        BrokenThroughout(registry, d, event);
      }
    }
  }

  lemma OneMoreEvent(registry: seq<Entry>, events: seq<Event>, event: Event)
    ensures Run(registry, events + [event]) == After(registry, Run(registry, events), event)
  {
    assert (events + [event])[..|events|] == events;
  }

  /** Every tree is one of a managed registry entry. */
  ghost predicate AllManaged(registry: seq<Entry>, d: Disk)
  {
    forall p :: p in d.trees ==> exists j :: 0 <= j < |registry| && registry[j].managed && registry[j].pointer == p
  }

  lemma {:induction false} PruneKeepsManaged(registry: seq<Entry>, i: nat, d: Disk, k: nat)
    requires i <= |registry| && k < |PruneTrace(registry, i, d)|
    ensures PruneTrace(registry, i, d)[k].trees.Keys <= d.trees.Keys
    decreases |registry| - i
  {
    if i < |registry| {
      if !Prunable(d, registry[i]) {
        PruneKeepsManaged(registry, i + 1, d, k);
      } else if d.trees[registry[i].pointer].Intact? && k >= 2 {
        PruneKeepsManaged(registry, i + 1, Without(d, registry[i].pointer), k - 2);
      }
    }
  }

  lemma StepKeepsManaged(registry: seq<Entry>, d: Disk, op: Op, k: nat)
    requires AllManaged(registry, d) && k < |Trace(registry, d, op)|
    ensures AllManaged(registry, Trace(registry, d, op)[k])
  {
    if op.Prune? && Readable(registry, d.saved) {
      PruneKeepsManaged(registry, 0, d, k);
    }
  }

  lemma {:induction false} EveryRunIsManaged(registry: seq<Entry>, events: seq<Event>)
    ensures AllManaged(registry, Run(registry, events))
  {
    if events != [] {
      var before, event := events[..|events| - 1], events[|events| - 1];
      EveryRunIsManaged(registry, before);
      StepKeepsManaged(registry, Run(registry, before), event.op, CutAt(registry, Run(registry, before), event));
    }
  }

  /** In a reachable state a tree that fails verification is garbage, and pruning is stuck on it. */
  lemma BrokenIsGarbage(registry: seq<Entry>, d: Disk, p: Pointer)
    requires Good(registry, d) && AllManaged(registry, d) && p in d.trees && d.trees[p].Broken?
    ensures !Referenced(d.saved, p) && Stuck(registry, 0, d)
  {
    var j :| 0 <= j < |registry| && registry[j].managed && registry[j].pointer == p;
    assert Prunable(d, registry[j]);
  }

  /** So over every run pruning is stuck if and only if a prune was cut off inside a removal. */
  lemma StuckExactly(registry: seq<Entry>, events: seq<Event>)
    ensures Stuck(registry, 0, Run(registry, events)) <==> !NeverTorn(registry, events)
  {
    var d := Run(registry, events);
    OnlyATornPruneBreaks(registry, events);
    if !AllIntact(d) {
      var p :| p in d.trees && d.trees[p].Broken?;
      EveryRunIsGood(registry, events);
      EveryRunIsManaged(registry, events);
      BrokenIsGarbage(registry, d, p);
    }
  }

  lemma {:induction false} BrokenAfterwards(registry: seq<Entry>, events: seq<Event>, more: seq<Event>, p: Pointer)
    requires var d := Run(registry, events); p in d.trees && d.trees[p].Broken?
    ensures var d := Run(registry, events + more); p in d.trees && d.trees[p].Broken?
  {
    if more == [] {
      assert events + more == events;
    } else {
      var init, event := more[..|more| - 1], more[|more| - 1];
      BrokenAfterwards(registry, events, init, p);
      assert events + more == (events + init) + [event];
      OneMoreEvent(registry, events + init, event);
      var d := Run(registry, events + init);
      BrokenStays(registry, d, event.op, CutAt(registry, d, event), p);
    }
  }

  /** Whatever is done after a tree has come to fail verification, it goes on failing, nothing refers to it,
      pruning is stuck, and installing its version writes nothing. */
  lemma BrokenForGood(registry: seq<Entry>, events: seq<Event>, more: seq<Event>, e: Entry, stagingOk: bool)
    requires var d := Run(registry, events); e.pointer in d.trees && d.trees[e.pointer].Broken?
    ensures var d := Run(registry, events + more);
      && e.pointer in d.trees && d.trees[e.pointer].Broken? && !Referenced(d.saved, e.pointer)
      && Stuck(registry, 0, d) && Trace(registry, d, Commit(e, stagingOk)) == [d]
  {
    BrokenAfterwards(registry, events, more, e.pointer);
    EveryRunIsGood(registry, events + more);
    EveryRunIsManaged(registry, events + more);
    BrokenIsGarbage(registry, Run(registry, events + more), e.pointer);
  }

  /** It can happen: a version is installed, the machine goes down before its state is saved, and the prune
      after the restart is cut off as it removes the stray tree. */
  lemma CrashedPruneBreaks(e: Entry)
    requires e.managed
    ensures var d := Run([e], [Event(Commit(e, true), Some(1)), Event(Prune, Some(1))]);
      e.pointer in d.trees && d.trees[e.pointer].Broken? && Stuck([e], 0, d)
  {
    var install, prune := Event(Commit(e, true), Some(1)), Event(Prune, Some(1));
    OneMoreEvent([e], [], install);
    OneMoreEvent([e], [install], prune);
    assert [] + [install] == [install] && [install] + [prune] == [install, prune];
    assert Managed([e], e) && Readable([e], EMPTY.saved);
    var d1 := Run([e], [install]);
    assert d1 == EMPTY.(trees := EMPTY.trees[e.pointer := Intact]);
    assert Prunable(d1, [e][0]);
    var d2 := Run([e], [install, prune]);
    assert d2 == d1.(trees := d1.trees[e.pointer := Broken]);
    assert Prunable(d2, [e][0]);
  }
}
