/**
 What the two maps of ParticipantStateManager mean. A roster row's mute and the pre-solo snapshot
 together implement one personal mute per person, at most one solo, and that solo's own mute.
 */
module MixAbstract {
  import opened MixModel

  datatype Person = Person(owner: Occupant, name: Name, fader: int, pan: int, personal: bool)

  datatype Listening = Listening(people: map<int, Person>, solo: Seat, soloMuted: bool, clock: nat)

  ghost function Alpha(m: Mix): Listening
  {
    var solo := ActiveSolo(m.rows);
    Listening(map c | c in m.rows :: PersonAt(m, c), solo, solo.At? && m.rows[solo.value].muted, m.clock)
  }

  ghost function PersonAt(m: Mix, c: int): Person
    requires c in m.rows
  {
    Person(m.rows[c].owner, m.rows[c].name, m.rows[c].fader, m.rows[c].pan, Personal(m, c))
  }

  /** The roster a listening state is heard as. */
  function Heard(a: Listening): map<int, Row>
  {
    map c | c in a.people :: HeardRow(a, c)
  }

  function HeardRow(a: Listening, c: int): Row
    requires c in a.people
  {
    var p := a.people[c];
    var muted := if a.solo.Nobody? then p.personal else if a.solo == At(c) then a.soloMuted else true;
    Row(p.owner, p.name, p.fader, p.pan, muted, a.solo == At(c))
  }

  /** Nothing audible is lost by the abstraction: the roster is determined by the listening state. */
  lemma HeardIsTheRoster(m: Mix)
    requires Inv(m)
    ensures Heard(Alpha(m)) == m.rows
  {
    forall c | c in m.rows ensures HeardRow(Alpha(m), c) == m.rows[c] {
      assert m.rows[c].solo ==> Soloed(m.rows, c);
    }
  }

  // ---- the abstract machine ------------------------------------------------------------------

  function Newcomer(a: Listening, seat: int, name: Name): Person
  {
    Person(Occupant(seat, a.clock), name, 100, 50, false)
  }

  predicate Stays(a: Listening, incoming: map<int, Name>, c: int)
  {
    c in a.people && c in incoming && a.people[c].name.folded == incoming[c].folded
  }

  predicate RedundantUnsolo(a: Listening, op: Op)
  {
    op.Solo? && !op.solo && a.solo.Nobody? && op.seat in a.people
  }

  /** Adding onto an occupied seat is given its exact effect: onto the soloed seat it ends the solo and leaves
      everyone else muted; onto another seat during a solo the newcomer inherits the displaced person's mute. */
  function Joined(a: Listening, seat: int, name: Name): Listening
  {
    if a.solo == At(seat) then
      Listening((map c | c in a.people :: a.people[c].(personal := true))[seat := Newcomer(a, seat, name)],
                Nobody, false, a.clock + 1)
    else
      var inherited := a.solo.At? && seat in a.people && a.people[seat].personal;
      a.(people := a.people[seat := Newcomer(a, seat, name).(personal := inherited)], clock := a.clock + 1)
  }

  function Faded(a: Listening, seat: int, level: int): Listening
  {
    if seat !in a.people then a
    else a.(people := a.people[seat := a.people[seat].(fader := Clamp(0, 127, level))])
  }

  function Panned(a: Listening, seat: int, pan: int): Listening
  {
    if seat !in a.people then a
    else a.(people := a.people[seat := a.people[seat].(pan := Clamp(0, 100, pan))])
  }

  function AskedToMute(a: Listening, seat: int, muted: bool): Listening
  {
    if seat !in a.people then a
    else a.(people := a.people[seat := a.people[seat].(personal := muted)],
            soloMuted := if a.solo == At(seat) then muted else a.soloMuted)
  }

  function Switched(a: Listening, seat: int, solo: bool): Listening
  {
    if seat !in a.people then a
    else a.(solo := if solo then At(seat) else Nobody, soloMuted := false)
  }

  function Synchronised(a: Listening, incoming: map<int, Name>): Listening
  {
    var stay := Departed(a, set c | c in a.people && !Stays(a, incoming, c));
    stay.(people := map c | c in incoming ::
            if Stays(a, incoming, c) then a.people[c].(name := incoming[c]) else Newcomer(a, c, incoming[c]),
          clock := a.clock + 1)
  }

  /** Each gesture on the listening state. */
  function Change(a: Listening, op: Op): Listening
    requires !op.Restore? && !RedundantUnsolo(a, op)
  {
    match op
    case Add(seat, name) => Joined(a, seat, name)
    case Remove(seat) => Departed(a, {seat})
    case Fader(seat, level) => Faded(a, seat, level)
    case Pan(seat, pan) => Panned(a, seat, pan)
    case Mute(seat, muted) => AskedToMute(a, seat, muted)
    case Solo(seat, solo) => Switched(a, seat, solo)
    case Merge(incoming, _) => Synchronised(a, incoming)
    case Clear => Departed(a, a.people.Keys)
  }

  /** Departures: a solo ends with its own seat only. */
  function Departed(a: Listening, gone: set<int>): Listening
  {
    var ends := a.solo.At? && a.solo.value in gone;
    a.(people := a.people - gone, solo := if ends then Nobody else a.solo, soloMuted := !ends && a.soloMuted)
  }

  // ---- refinement ----------------------------------------------------------------------------

  lemma AlphaIs(m: Mix, a: Listening)
    requires Inv(m) && m.rows.Keys == a.people.Keys && m.clock == a.clock
    requires forall c :: c in m.rows ==> PersonAt(m, c) == a.people[c]
    requires a.solo.At? ==> Soloed(m.rows, a.solo.value) && a.soloMuted == m.rows[a.solo.value].muted
    requires a.solo.Nobody? ==> !HasSolo(m.rows) && !a.soloMuted
    ensures Alpha(m) == a
  {
    assert Alpha(m).people == a.people;
  }

  lemma AddedPerson(m: Mix, seat: int, name: Name, c: int)
    requires Inv(m) && (c == seat || c in m.rows)
    requires var solo := ActiveSolo(m.rows);
      ActiveSolo(AddAt(m, seat, name).rows) == if solo == At(seat) then Nobody else solo
    ensures PersonAt(AddAt(m, seat, name), c) == Joined(Alpha(m), seat, name).people[c]
  {
  }

  lemma AddRefines(m: Mix, seat: int, name: Name)
    requires Inv(m)
    ensures Alpha(AddAt(m, seat, name)) == Joined(Alpha(m), seat, name)
  {
    var after, a := AddAt(m, seat, name), Joined(Alpha(m), seat, name);
    AddKeepsInv(m, seat, name);
    var solo := ActiveSolo(m.rows);
    if solo.At? && solo.value != seat { assert Soloed(after.rows, solo.value); }
    assert forall c :: Soloed(after.rows, c) ==> Soloed(m.rows, c) && c != seat;
    forall c | c in after.rows ensures PersonAt(after, c) == a.people[c] {
      AddedPerson(m, seat, name, c);
    }
    AlphaIs(after, a);
  }

  lemma RemoveRefines(m: Mix, seat: int)
    requires Inv(m)
    ensures Alpha(RemoveAt(m, seat)) == Departed(Alpha(m), {seat})
  {
    var after, a := RemoveAt(m, seat), Departed(Alpha(m), {seat});
    RemoveKeepsInv(m, seat);
    if seat !in m.rows {
      assert a.people == Alpha(m).people;
    } else if Soloed(m.rows, seat) {
      assert forall c :: !Soloed(after.rows, c);
      AlphaIs(after, a);
    } else {
      assert forall c :: c != seat ==> (Soloed(m.rows - {seat}, c) <==> Soloed(m.rows, c));
      assert HasSolo(m.rows - {seat}) <==> HasSolo(m.rows);
      AlphaIs(after, a);
    }
  }

  /** Nobody's solo flag changed: neither did the solo. */
  lemma SameSolo(m: Mix, after: Mix)
    requires Inv(m) && after.rows.Keys == m.rows.Keys
    requires forall c :: c in m.rows ==> after.rows[c].solo == m.rows[c].solo
    ensures ActiveSolo(after.rows) == ActiveSolo(m.rows) && forall c :: Soloed(after.rows, c) <==> Soloed(m.rows, c)
  {
    assert forall c :: Soloed(after.rows, c) <==> Soloed(m.rows, c);
  }

  lemma FaderRefines(m: Mix, seat: int, level: int)
    requires Inv(m)
    ensures Alpha(SetFader(m, seat, level)) == Faded(Alpha(m), seat, level)
  {
    SameSolo(m, SetFader(m, seat, level));
    assert Alpha(SetFader(m, seat, level)).people == Faded(Alpha(m), seat, level).people;
  }

  lemma PanRefines(m: Mix, seat: int, pan: int)
    requires Inv(m)
    ensures Alpha(SetPan(m, seat, pan)) == Panned(Alpha(m), seat, pan)
  {
    SameSolo(m, SetPan(m, seat, pan));
    assert Alpha(SetPan(m, seat, pan)).people == Panned(Alpha(m), seat, pan).people;
  }

  lemma MuteRefines(m: Mix, seat: int, muted: bool)
    requires Inv(m)
    ensures Alpha(SetMute(m, seat, muted)) == AskedToMute(Alpha(m), seat, muted)
  {
    SameSolo(m, SetMute(m, seat, muted));
    assert Alpha(SetMute(m, seat, muted)).people == AskedToMute(Alpha(m), seat, muted).people;
  }

  lemma SoloOnRefines(m: Mix, seat: int)
    requires Inv(m) && seat in m.rows
    ensures Alpha(SetSolo(m, seat, true)) == Switched(Alpha(m), seat, true)
  {
    var after := SetSolo(m, seat, true);
    StepKeepsInv(m, Solo(seat, true));
    assert Soloed(after.rows, seat);
    AlphaIs(after, Switched(Alpha(m), seat, true));
  }

  lemma SoloOffRefines(m: Mix, seat: int)
    requires Inv(m) && seat in m.rows && HasSolo(m.rows)
    ensures Alpha(SetSolo(m, seat, false)) == Switched(Alpha(m), seat, false)
  {
    var after := SetSolo(m, seat, false);
    StepKeepsInv(m, Solo(seat, false));
    assert forall c :: !Soloed(after.rows, c);
    AlphaIs(after, Switched(Alpha(m), seat, false));
  }

  lemma SoloRefines(m: Mix, seat: int, solo: bool)
    requires Inv(m) && (solo || HasSolo(m.rows))
    ensures Alpha(SetSolo(m, seat, solo)) == Switched(Alpha(m), seat, solo)
  {
    if seat in m.rows {
      if solo {
        SoloOnRefines(m, seat);
      } else {
        SoloOffRefines(m, seat);
      }
    }
  }

  lemma KeptStay(m: Mix, incoming: map<int, Name>)
    requires Inv(m)
    ensures forall c :: c in Kept(m, incoming) <==> Stays(Alpha(m), incoming, c)
    ensures forall c :: Soloed(Kept(m, incoming), c) <==> Soloed(m.rows, c) && Stays(Alpha(m), incoming, c)
    ensures forall c :: c in Kept(m, incoming) ==> PersonAt(m.(rows := Kept(m, incoming)), c) == PersonAt(m, c)
  {
    var kept := Kept(m, incoming);
    if LosesSolo(m.rows, incoming) {
      assert HasSolo(m.rows);
      assert forall c :: !Soloed(kept, c);
    } else {
      assert forall c :: Soloed(m.rows, c) ==> c !in Leaving(m.rows, incoming);
      if HasSolo(m.rows) {
        var s :| Soloed(m.rows, s);
        assert Soloed(kept, s);
      }
    }
  }

  lemma MergedSolo(m: Mix, incoming: map<int, Name>, sweep: bool)
    requires Inv(m)
    ensures var rows := Merged(m, incoming, sweep).rows;
      && (forall c :: Soloed(rows, c) <==> Soloed(m.rows, c) && Stays(Alpha(m), incoming, c))
      && (HasSolo(rows) <==> HasSolo(Kept(m, incoming)))
      && (forall c :: Soloed(rows, c) ==> rows[c].muted == m.rows[c].muted)
  {
    KeptStay(m, incoming);
    var rows, kept := Merged(m, incoming, sweep).rows, Kept(m, incoming);
    assert forall c :: Soloed(rows, c) <==> Soloed(kept, c);
  }

  lemma MergedPerson(m: Mix, incoming: map<int, Name>, sweep: bool, c: int)
    requires Inv(m) && c in incoming
    ensures PersonAt(Merged(m, incoming, sweep), c)
         == if Stays(Alpha(m), incoming, c) then PersonAt(m, c).(name := incoming[c])
            else Newcomer(Alpha(m), c, incoming[c])
  {
    var after, kept := Merged(m, incoming, sweep), Kept(m, incoming);
    KeptStay(m, incoming);
    MergedSolo(m, incoming, sweep);
    if c in kept {
      assert PersonAt(m.(rows := kept), c) == PersonAt(m, c);
      if HasSolo(kept) { assert HasSolo(m.rows) && c in m.snapshot; }
    } else {
      assert c in Joining(m.rows, incoming);
      if HasSolo(kept) { assert HasSolo(m.rows); }
    }
  }

  lemma MergedKeys(m: Mix, incoming: map<int, Name>, sweep: bool)
    ensures Merged(m, incoming, sweep).rows.Keys == incoming.Keys
  {
    assert forall c :: c in incoming ==> c in Kept(m, incoming) || c in Joining(m.rows, incoming);
  }

  lemma MergedPeople(m: Mix, incoming: map<int, Name>, sweep: bool)
    requires Inv(m)
    ensures var after, a := Merged(m, incoming, sweep), Synchronised(Alpha(m), incoming);
      && after.rows.Keys == a.people.Keys && after.clock == a.clock
      && forall c :: c in after.rows ==> PersonAt(after, c) == a.people[c]
  {
    MergedKeys(m, incoming, sweep);
    forall c | c in incoming
      ensures PersonAt(Merged(m, incoming, sweep), c) == Synchronised(Alpha(m), incoming).people[c]
    {
      MergedPerson(m, incoming, sweep, c);
    }
  }

  lemma MergeRefines(m: Mix, incoming: map<int, Name>, sweep: bool)
    requires Inv(m)
    ensures Alpha(Merged(m, incoming, sweep)) == Synchronised(Alpha(m), incoming)
  {
    var after, a := Merged(m, incoming, sweep), Synchronised(Alpha(m), incoming);
    MergeKeepsInv(m, incoming, sweep);
    MergedPeople(m, incoming, sweep);
    MergedSolo(m, incoming, sweep);
    var solo := ActiveSolo(m.rows);
    assert forall c :: Soloed(m.rows, c) ==> solo == At(c);
    if solo.At? && Stays(Alpha(m), incoming, solo.value) {
      assert Soloed(after.rows, solo.value);
    } else {
      assert forall c :: !Soloed(after.rows, c);
    }
    AlphaIs(after, a);
  }

  /** The two maps implement the listening state, for every gesture but an unsolo with nothing soloed. */
  lemma Refines(m: Mix, op: Op)
    requires Inv(m) && !op.Restore? && !RedundantUnsolo(Alpha(m), op)
    ensures Alpha(Step(m, op)) == Change(Alpha(m), op)
  {
    match op
    case Add(seat, name) => AddRefines(m, seat, name);
    case Remove(seat) => RemoveRefines(m, seat);
    case Merge(incoming, sweep) => MergeRefines(m, incoming, sweep);
    case Clear =>
      assert !HasSolo(Step(m, op).rows);
    case Mute(seat, muted) => MuteRefines(m, seat, muted);
    case Solo(seat, solo) => if seat in m.rows || solo { SoloRefines(m, seat, solo); }
    case Fader(seat, level) => FaderRefines(m, seat, level);
    case Pan(seat, pan) => PanRefines(m, seat, pan);
  }

  // ---- the two corners -----------------------------------------------------------------------

  /** Unsolo with nothing soloed keeps everyone's personal mute exactly when the snapshot, whatever
      it was left with, agrees with the roster; with the usual empty snapshot, when nobody is muted. */
  lemma RedundantUnsoloExact(m: Mix, seat: int)
    requires Inv(m) && !HasSolo(m.rows) && seat in m.rows
    ensures var after := Step(m, Solo(seat, false));
      && after.rows.Keys == m.rows.Keys
      && ((forall c :: c in m.rows ==> Personal(after, c) == Personal(m, c))
          <==> (forall c :: c in m.rows ==> m.rows[c].muted == Lookup(m.snapshot, c, false)))
      && (m.snapshot == map[] ==>
           ((forall c :: c in m.rows ==> Personal(after, c) == Personal(m, c))
            <==> (forall c :: c in m.rows ==> !m.rows[c].muted)))
  {
    var after := Step(m, Solo(seat, false));
    assert !HasSolo(after.rows) by {
      assert forall c :: !Soloed(after.rows, c);
    }
    assert forall c :: c in m.rows ==> Personal(after, c) == Lookup(m.snapshot, c, false);
  }

  /** One person mutes themself in one's ears, then unsolo is pressed with nothing soloed: the mute is lost. */
  lemma RedundantUnsoloLosesAMute(name: Name)
    ensures var ops := [Add(0, name), Mute(0, true), Solo(0, false)];
      && 0 in Run(EMPTY, ops).rows
      && Personal(Run(EMPTY, ops[..2]), 0) && !Personal(Run(EMPTY, ops), 0)
  {
    var ops := [Add(0, name), Mute(0, true), Solo(0, false)];
    assert ops[..2][..1] == [Add(0, name)] && ops[..2][1] == Mute(0, true) && ops[..1][..0] == [];
    var m1 := Step(EMPTY, Add(0, name));
    assert Run(EMPTY, [Add(0, name)]) == m1;
    assert !HasSolo(EMPTY.rows) && forall c :: !Soloed(m1.rows, c);
    var m2 := Step(m1, Mute(0, true));
    assert Run(EMPTY, ops[..2]) == m2;
    assert forall c :: !Soloed(m2.rows, c);
    var m3 := Step(m2, Solo(0, false));
    assert Run(EMPTY, ops) == m3;
    assert forall c :: !Soloed(m3.rows, c);
  }

  /** Adding somebody keeps everyone else's personal mute exactly when the seat is not the soloed one
      or everyone else was personally muted already. */
  lemma AddKeepsOthersExactly(m: Mix, seat: int, name: Name)
    requires Inv(m)
    ensures (forall c :: c in m.rows && c != seat ==> Personal(AddAt(m, seat, name), c) == Personal(m, c))
      <==> (!Soloed(m.rows, seat) || forall c :: c in m.rows && c != seat ==> Personal(m, c))
  {
    AddRefines(m, seat, name);
    var a, b := Alpha(m), Alpha(AddAt(m, seat, name));
    assert Soloed(m.rows, seat) <==> a.solo == At(seat);
    assert forall c :: c in m.rows && c != seat ==>
      a.people[c].personal == Personal(m, c) && b.people[c].personal == Personal(AddAt(m, seat, name), c);
  }

  /** Of two people one is soloed and then added again onto that seat: the solo is gone, the other one is left
      muted without anybody having asked for it. */
  lemma AddOntoSoloMutesAnother(name: Name)
    ensures var ops := [Add(0, name), Add(1, name), Solo(0, true), Add(0, name)];
      && 1 in Run(EMPTY, ops[..3]).rows && 1 in Run(EMPTY, ops).rows
      && !Personal(Run(EMPTY, ops[..3]), 1) && Personal(Run(EMPTY, ops), 1) && !HasSolo(Run(EMPTY, ops).rows)
  {
    var ops := [Add(0, name), Add(1, name), Solo(0, true), Add(0, name)];
    assert ops[..3][..2] == ops[..2] && ops[..2][..1] == ops[..1] && ops[..1][..0] == [];
    var m1 := Step(EMPTY, Add(0, name));
    assert !HasSolo(EMPTY.rows) && Run(EMPTY, ops[..1]) == m1;
    assert forall c :: !Soloed(m1.rows, c);
    var m2 := Step(m1, Add(1, name));
    assert Run(EMPTY, ops[..2]) == m2;
    assert forall c :: !Soloed(m2.rows, c);
    var m3 := Step(m2, Solo(0, true));
    assert Run(EMPTY, ops[..3]) == m3 && Soloed(m3.rows, 0);
    assert forall c :: Soloed(m3.rows, c) ==> c == 0;
    assert Run(EMPTY, ops) == Step(m3, Add(0, name));
    assert forall c :: !Soloed(Run(EMPTY, ops).rows, c);
  }

  // ---- personal mute over whole runs ---------------------------------------------------------

  /** The last mute asked for this occupant, by a mute press or a saved mix that matched their seat;
      unmuted until then. */
  ghost function LastRequest(ops: seq<Op>, who: Occupant): bool
  {
    if ops == [] then false
    else
      var before, op := Run(EMPTY, ops[..|ops| - 1]), ops[|ops| - 1];
      if who.seat in before.rows && before.rows[who.seat].owner == who then
        match op
        case Mute(seat, muted) => if seat == who.seat then muted else LastRequest(ops[..|ops| - 1], who)
        case Restore(Participants(list)) =>
          var st := StageAll(before, list);
          if who.seat in st.rows then st.personal[who.seat] else LastRequest(ops[..|ops| - 1], who)
        case _ => LastRequest(ops[..|ops| - 1], who)
      else LastRequest(ops[..|ops| - 1], who)
  }

  /** Runs without the two corners: no unsolo with nothing soloed, nobody added onto an occupied seat. */
  ghost predicate Plain(ops: seq<Op>)
  {
    ops == [] ||
    var before, op := Run(EMPTY, ops[..|ops| - 1]), ops[|ops| - 1];
    Plain(ops[..|ops| - 1]) && !RedundantUnsolo(Alpha(before), op) && (op.Add? ==> op.seat !in before.rows)
  }

  lemma {:induction false} NobodyAskedBeforeJoining(ops: seq<Op>, who: Occupant)
    requires who.joined >= Run(EMPTY, ops).clock
    ensures !LastRequest(ops, who)
  {
    if ops != [] {
      var before := Run(EMPTY, ops[..|ops| - 1]);
      assert before.clock <= Run(EMPTY, ops).clock;
      ReachableIsSafe(ops[..|ops| - 1]);
      NobodyAskedBeforeJoining(ops[..|ops| - 1], who);
    }
  }

  lemma {:induction false} UnmatchedKeepPersonal(m: Mix, list: seq<SavedRow>, c: int)
    requires c in m.rows && c !in StageAll(m, list).rows
    ensures StageAll(m, list).personal[c] == Personal(m, c)
  {
    if list != [] { UnmatchedKeepPersonal(m, list[..|list| - 1], c); }
  }

  /** A restore leaves each seat's personal mute where the staging put it. */
  lemma RestoredPersonal(m: Mix, list: seq<SavedRow>, c: int)
    requires Inv(m) && c in m.rows
    ensures Personal(Restored(m, Participants(list)), c) == StageAll(m, list).personal[c]
  {
    var st, after := StageAll(m, list), Restored(m, Participants(list));
    StageAllWell(m, list);
    if st.order == [] {
      UnmatchedKeepPersonal(m, list, c);
    } else {
      LastSoloIsStaged(st.rows, st.order);
      var solo := RestoredSolo(m, st);
      if solo.At? { assert Soloed(after.rows, solo.value); }
      assert forall d :: Soloed(after.rows, d) ==> solo == At(d);
    }
  }

  /** One plain step: whoever is in seat c afterwards was there before with the personal mute the step
      left or asked for, or has just joined unmuted. */
  lemma PersonalStep(before: Mix, op: Op, c: int)
    requires Inv(before) && !op.Restore? && !RedundantUnsolo(Alpha(before), op)
    requires op.Add? ==> op.seat !in before.rows
    requires c in Step(before, op).rows
    ensures var after := Step(before, op); var who := after.rows[c].owner;
      if c in before.rows && before.rows[c].owner == who
      then Personal(after, c) == if op.Mute? && op.seat == c then op.muted else Personal(before, c)
      else who.joined == before.clock && !Personal(after, c)
  {
    Refines(before, op);
    var after := Step(before, op);
    assert Alpha(after).people[c] == PersonAt(after, c);
    if c in before.rows { assert Alpha(before).people[c] == PersonAt(before, c); }
  }

  /** In every plain run each person's personal mute is the last one asked for them since they joined:
      no solo, solo switch, unsolo, join, departure or replacement of others ever disturbs it. */
  lemma {:induction false} PersonalMuteIsLastRequest(ops: seq<Op>, c: int)
    requires Plain(ops) && c in Run(EMPTY, ops).rows
    ensures Personal(Run(EMPTY, ops), c) == LastRequest(ops, Run(EMPTY, ops).rows[c].owner)
  {
    if ops != [] {
      var init, op := ops[..|ops| - 1], ops[|ops| - 1];
      var before, after := Run(EMPTY, init), Run(EMPTY, ops);
      ReachableIsSafe(init);
      ReachableIsSafe(ops);
      assert after == Step(before, op) && after.rows[c].owner.seat == c;
      if c in before.rows { PersonalMuteIsLastRequest(init, c); }
      match op
      case Restore(Participants(list)) =>
        RestoredPersonal(before, list, c);
        if c !in StageAll(before, list).rows { UnmatchedKeepPersonal(before, list, c); }
      case Restore(Malformed) =>
      case _ =>
        PersonalStep(before, op, c);
        if !(c in before.rows && before.rows[c].owner == after.rows[c].owner) {
          NobodyAskedBeforeJoining(init, after.rows[c].owner);
        }
    }
  }

  // ---- a stale snapshot is unobservable --------------------------------------------------------

  /** Same roster, and the same snapshot whenever a solo could still read it. */
  ghost predicate Alike(m: Mix, n: Mix)
  {
    m.rows == n.rows && m.clock == n.clock && (HasSolo(m.rows) ==> m.snapshot == n.snapshot)
  }

  /** The same operation, except that a roster sync may come by RPC on one side and UDP on the other. */
  predicate SamePress(p: Op, q: Op)
  {
    p == q || (p.Merge? && q.Merge? && p.incoming == q.incoming)
  }

  lemma {:induction false} StagingAlike(m: Mix, n: Mix, list: seq<SavedRow>)
    requires Alike(m, n)
    ensures StageAll(m, list) == StageAll(n, list)
  {
    if list == [] {
      assert NoStaging(m) == NoStaging(n);
    } else {
      StagingAlike(m, n, list[..|list| - 1]);
    }
  }

  lemma KeptAlike(m: Mix, n: Mix, incoming: map<int, Name>)
    requires Alike(m, n)
    ensures Kept(m, incoming) == Kept(n, incoming)
  {
    if LosesSolo(m.rows, incoming) {
      assert HasSolo(m.rows);
    }
  }

  lemma MergeReappliesAlike(m: Mix, n: Mix, incoming: map<int, Name>, p: bool, q: bool)
    requires Alike(m, n)
    ensures Reapplied(m, Merge(incoming, p)) == Reapplied(n, Merge(incoming, q))
  {
    KeptAlike(m, n, incoming);
  }

  lemma MergeAlike(m: Mix, n: Mix, incoming: map<int, Name>, p: bool, q: bool)
    requires Inv(m) && Inv(n) && Alike(m, n)
    ensures Alike(Merged(m, incoming, p), Merged(n, incoming, q))
    ensures Reapplied(m, Merge(incoming, p)) == Reapplied(n, Merge(incoming, q))
  {
    KeptAlike(m, n, incoming);
    MergeReappliesAlike(m, n, incoming, p, q);
    var after := Merged(m, incoming, p);
    if s :| Soloed(after.rows, s) {
      assert Soloed(m.rows, s);
    }
  }

  lemma RosterAlike(m: Mix, n: Mix, op: Op)
    requires Inv(m) && Alike(m, n) && (op.Add? || op.Remove?)
    ensures Alike(Step(m, op), Step(n, op)) && Reapplied(m, op) == Reapplied(n, op)
  {
    if op.seat in m.rows {
      assert forall c :: Soloed(m.rows - {op.seat}, c) ==> Soloed(m.rows, c);
      if m.rows[op.seat].solo { assert Soloed(m.rows, op.seat); }
    }
    assert forall c :: Soloed(Step(m, op).rows, c) ==> Soloed(m.rows, c);
  }

  lemma GestureAlike(m: Mix, n: Mix, op: Op)
    requires Alike(m, n) && !RedundantUnsolo(Alpha(m), op)
    requires op.Fader? || op.Pan? || op.Mute? || op.Solo?
    ensures Alike(Step(m, op), Step(n, op)) && Reapplied(m, op) == Reapplied(n, op)
  {
    if !op.Solo? {
      assert forall c :: Soloed(Step(m, op).rows, c) ==> Soloed(m.rows, c);
    }
  }

  lemma StepAlike(m: Mix, n: Mix, p: Op, q: Op)
    requires Inv(m) && Inv(n) && Alike(m, n) && SamePress(p, q) && !RedundantUnsolo(Alpha(m), p)
    ensures Alike(Step(m, p), Step(n, q)) && Reapplied(m, p) == Reapplied(n, q)
  {
    match p
    case Merge(incoming, sweep) => MergeAlike(m, n, incoming, sweep, q.sweep);
    case Restore(payload) => RestoreAlike(m, n, payload);
    case Clear => assert !HasSolo(Step(m, p).rows);
    case Add(_, _) => RosterAlike(m, n, p);
    case Remove(_) => RosterAlike(m, n, p);
    case _ => GestureAlike(m, n, p);
  }

  lemma RestoreAlike(m: Mix, n: Mix, payload: Payload)
    requires Alike(m, n)
    ensures Alike(Restored(m, payload), Restored(n, payload))
    ensures Reapplied(m, Restore(payload)) == Reapplied(n, Restore(payload))
  {
    if payload.Participants? { StagingAlike(m, n, payload.list); }
  }

  /** Two mixes that differ only in a leftover snapshot stay indistinguishable: equal rosters and equal
      native re-applications at the end of every later pair of runs (hence at every point of them), in
      particular when one side synchronises by RPC and the other by UDP. */
  lemma {:induction false} StaleSnapshotUnobservable(m: Mix, n: Mix, ps: seq<Op>, qs: seq<Op>)
    requires Inv(m) && Inv(n) && Alike(m, n)
    requires |ps| == |qs| && forall i :: 0 <= i < |ps| ==> SamePress(ps[i], qs[i])
    requires NeverRedundant(m, ps)
    ensures Alike(Run(m, ps), Run(n, qs)) && Heard(Alpha(Run(m, ps))) == Heard(Alpha(Run(n, qs)))
    ensures ps != [] ==>
      Reapplied(Run(m, ps[..|ps| - 1]), ps[|ps| - 1]) == Reapplied(Run(n, qs[..|qs| - 1]), qs[|qs| - 1])
  {
    if ps != [] {
      var k := |ps| - 1;
      StaleSnapshotUnobservable(m, n, ps[..k], qs[..k]);
      RunKeepsInv(m, ps[..k]);
      RunKeepsInv(n, qs[..k]);
      StepAlike(Run(m, ps[..k]), Run(n, qs[..k]), ps[k], qs[k]);
    }
    RunKeepsInv(m, ps);
    RunKeepsInv(n, qs);
    HeardIsTheRoster(Run(m, ps));
    HeardIsTheRoster(Run(n, qs));
  }

  ghost predicate NeverRedundant(m: Mix, ops: seq<Op>)
  {
    ops == [] || (NeverRedundant(m, ops[..|ops| - 1])
                  && !RedundantUnsolo(Alpha(Run(m, ops[..|ops| - 1])), ops[|ops| - 1]))
  }

  /** The bare roster clear leaves a snapshot behind that an emptied roster would not have, unobservably. */
  lemma ClearLeavesAlike(m: Mix)
    ensures Alike(Step(m, Clear), Step(m, Clear).(snapshot := map[]))
  {
    assert forall c :: !Soloed(Step(m, Clear).rows, c);
  }
}
