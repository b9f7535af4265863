/** The store's operations as they run to completion: saved is the state file, trees the installed versions. */
module ComponentStore {
  import opened StoreModel
  import opened StoreProperties

  class ManagedComponentStore {
    const registry: seq<Entry>
    var saved: State
    var trees: map<Pointer, Tree>

    constructor (registry: seq<Entry>)
      ensures this.registry == registry && OnDisk() == EMPTY
    {
      this.registry := registry;
      saved, trees := EMPTY.saved, EMPTY.trees;
    }

    function OnDisk(): Disk
      reads this
    {
      Disk(saved, trees)
    }

    method CommitStaging(entry: Entry, stagingOk: bool) returns (r: Outcome)
      modifies this
      ensures OnDisk() == Final(registry, old(OnDisk()), Commit(entry, stagingOk))
      ensures r == Installed(entry.pointer) || r.Refused?
      ensures r.Installed? <==>
        Managed(registry, entry) && stagingOk && Verified(OnDisk(), entry.pointer) && Readable(registry, old(saved))
    {
      if !Managed(registry, entry) || !stagingOk { return Refused; }
      if entry.pointer in trees {
        if trees[entry.pointer].Broken? { return Refused; }
      } else {
        trees := trees[entry.pointer := Intact];
      }
      if !Readable(registry, saved) { return Refused; }
      var state := saved;
      state := state.(ready := state.ready[entry.pointer.slot := entry.pointer]);
      saved := state;
      return Installed(entry.pointer);
    }

    /** What an operation answers when it has switched, and when the runtime was busy. */
    method Present(now: Pointer, slot: string) returns (r: Outcome)
      ensures r == Switching(OnDisk(), now, slot)
    {
      if slot in saved.previous && !Verified(OnDisk(), saved.previous[slot]) { return Refused; }
      return Activated(now, At(saved.previous, slot));
    }

    method Defer(slot: string) returns (r: Outcome)
      ensures r == PuttingOff(OnDisk(), slot)
    {
      if slot in saved.current && !Verified(OnDisk(), saved.current[slot]) { return Refused; }
      if slot in saved.previous && !Verified(OnDisk(), saved.previous[slot]) { return Refused; }
      return Deferred(At(saved.current, slot), At(saved.previous, slot));
    }

    method Activate(entry: Entry, busy: Busy) returns (r: Outcome)
      modifies this`saved
      ensures OnDisk() == Final(registry, old(OnDisk()), Op.Activate(entry, busy))
      ensures r == if !Managed(registry, entry) || !Readable(registry, old(saved)) || !Verified(OnDisk(), entry.pointer)
                   then Refused
                   else if busy.Idle? then Switching(OnDisk(), entry.pointer, entry.pointer.slot)
                   else if busy.Busy? then PuttingOff(OnDisk(), entry.pointer.slot) else Refused
    {
      if !Managed(registry, entry) || !Readable(registry, saved) || !Verified(OnDisk(), entry.pointer) {
        return Refused;
      }
      if busy.Unknown? { return Refused; }
      if busy.Busy? {
        r := Defer(entry.pointer.slot);
        return;
      }
      var state, slot, pointer := saved, entry.pointer.slot, entry.pointer;
      if slot in state.current && state.current[slot] != pointer {
        state := state.(previous := state.previous[slot := state.current[slot]]);
      }
      state := state.(current := state.current[slot := pointer]);
      state := state.(ready := state.ready - {slot});
      saved := state;
      r := Present(pointer, slot);
    }

    method ActivateReady(slot: string, busy: Busy) returns (r: Outcome)
      modifies this`saved
      ensures OnDisk() == Final(registry, old(OnDisk()), Op.ActivateReady(slot, busy))
      ensures r == if !Readable(registry, old(saved)) || slot !in old(saved).ready
                      || !Verified(OnDisk(), old(saved).ready[slot])
                   then Refused
                   else if busy.Idle? then Switching(OnDisk(), old(saved).ready[slot], slot)
                   else if busy.Busy? then PuttingOff(OnDisk(), slot) else Refused
    {
      if !Readable(registry, saved) || slot !in saved.ready { return Refused; }
      var state, pointer := saved, saved.ready[slot];
      if !Verified(OnDisk(), pointer) || busy.Unknown? { return Refused; }
      if busy.Busy? {
        r := Defer(slot);
        return;
      }
      if slot in state.current && state.current[slot] != pointer {
        state := state.(previous := state.previous[slot := state.current[slot]]);
      }
      state := state.(current := state.current[slot := pointer]);
      state := state.(ready := state.ready - {slot});
      saved := state;
      r := Present(pointer, slot);
    }

    method Rollback(slot: string, busy: Busy) returns (r: Outcome)
      modifies this`saved
      ensures OnDisk() == Final(registry, old(OnDisk()), Op.Rollback(slot, busy))
      ensures r == if !Readable(registry, old(saved)) || slot !in old(saved).previous
                      || !Verified(OnDisk(), old(saved).previous[slot])
                   then Refused
                   else if busy.Idle? then Switching(OnDisk(), old(saved).previous[slot], slot)
                   else if busy.Busy? then PuttingOff(OnDisk(), slot) else Refused
    {
      if !Readable(registry, saved) || slot !in saved.previous { return Refused; }
      var state, prior := saved, saved.previous[slot];
      if !Verified(OnDisk(), prior) || busy.Unknown? { return Refused; }
      if busy.Busy? {
        r := Defer(slot);
        return;
      }
      var current := At(state.current, slot);
      state := state.(current := state.current[slot := prior]);
      if current.None? {
        state := state.(previous := state.previous - {slot});
      } else {
        state := state.(previous := state.previous[slot := current.value]);
      }
      state := state.(ready := state.ready - {slot});
      saved := state;
      r := Present(prior, slot);
    }

    /** removed lists what was removed in registry order. */
    method Prune() returns (r: Outcome)
      modifies this`trees
      ensures OnDisk() == Final(registry, old(OnDisk()), Op.Prune)
      ensures r.Pruned? <==> Readable(registry, saved) && !Stuck(registry, 0, old(OnDisk()))
      ensures r.Pruned? || r.Refused?
      ensures r.Pruned? ==> forall p :: p in r.removed <==> Garbage(registry, 0, old(OnDisk()), p)
    {
      if !Readable(registry, saved) { return Refused; }
      var removed: seq<Pointer> := [];
      for i := 0 to |registry|
        invariant PruneFinal(registry, i, OnDisk()) == PruneFinal(registry, 0, old(OnDisk()))
        invariant saved == old(saved)
        invariant Stuck(registry, i, OnDisk()) <==> Stuck(registry, 0, old(OnDisk()))
        invariant forall p ::
          p in removed || Garbage(registry, i, OnDisk(), p) <==> Garbage(registry, 0, old(OnDisk()), p)
      {
        var entry := registry[i];
        PruneFinalStep(registry, i, OnDisk());
        if entry.managed && entry.pointer in trees && !Referenced(saved, entry.pointer) {
          if trees[entry.pointer].Broken? { return Refused; }
          trees := trees - {entry.pointer};
          removed := removed + [entry.pointer];
        }
      }
      return Pruned(removed);
    }
  }
}
