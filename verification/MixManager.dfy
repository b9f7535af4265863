/** The participant-state manager itself: rows updated in place, tied to the mix they show. */
module MixManager {
  import opened Common
  import opened MixModel
  import opened MixRestore
  import opened MixFile

  class JamulusParticipant {
    /** Stands for the object's identity; owner.seat is its channel number. */
    const owner: Occupant
    var name: Name
    var fader: int
    var pan: int
    var muted: bool
    var solo: bool

    constructor (channel: int, name: Name, joined: nat)
      ensures AsRow() == NewRow(channel, joined, name)
    {
      owner := Occupant(channel, joined);
      this.name := name;
      fader, pan, muted, solo := 100, 50, false, false;
    }

    function AsRow(): Row
      reads this
    {
      Row(owner, name, fader, pan, muted, solo)
    }
  }

  ghost predicate OneSolo(rows: map<int, Row>)
  {
    forall c :: Soloed(rows, c) ==> ActiveSolo(rows) == At(c)
  }

  /** Exclusive solo is kept by every operation on its own account. */
  lemma StepKeepsOneSolo(m: Mix, op: Op)
    requires OneSolo(m.rows)
    ensures OneSolo(Step(m, op).rows)
  {
    var after := Step(m, op).rows;
    if !op.Solo? && !op.Restore? {
      assert forall c :: Soloed(after, c) ==> Soloed(m.rows, c);
    }
  }

  /** What adding comes to, given who is soloed. */
  lemma AddIs(m: Mix, seat: int, name: Name)
    requires OneSolo(m.rows)
    ensures var solo, row := ActiveSolo(m.rows), NewRow(seat, m.clock, name);
      var held := solo.At? && solo.value != seat;
      && AddAt(m, seat, name) == Mix(m.rows[seat := row.(muted := held)],
                                     if held then m.snapshot[seat := Lookup(m.snapshot, seat, false)] else m.snapshot,
                                     m.clock + 1)
      && Reapplied(m, Add(seat, name)) == (if held then {seat} else {})
      && OneSolo(AddAt(m, seat, name).rows)
  {
    StepKeepsOneSolo(m, Add(seat, name));
  }

  /** What removing comes to: whether the seat is empty, was the solo, or neither. */
  lemma RemoveIs(m: Mix, seat: int)
    requires OneSolo(m.rows)
    ensures OneSolo(RemoveAt(m, seat).rows)
    ensures seat !in m.rows ==> RemoveAt(m, seat) == m && Reapplied(m, Remove(seat)) == {}
    ensures seat in m.rows ==>
      var rows, snapshot := m.rows - {seat}, m.snapshot - {seat};
      if m.rows[seat].solo
      then RemoveAt(m, seat) == Mix(Unsoloed(rows, snapshot), map[], m.clock) && Reapplied(m, Remove(seat)) == rows.Keys
      else OneSolo(rows) && Reapplied(m, Remove(seat)) == {}
           && RemoveAt(m, seat) == Mix(rows, if ActiveSolo(rows).At? then snapshot else map[], m.clock)
  {
    StepKeepsOneSolo(m, Remove(seat));
    assert forall c :: Soloed(m.rows - {seat}, c) ==> Soloed(m.rows, c);
  }

  /** What merging a payload comes to, given who is still soloed among those kept. */
  lemma MergeIs(m: Mix, incoming: map<int, Name>)
    ensures var kept, joining, replaced := Kept(m, incoming), Joining(m.rows, incoming), Replaced(m.rows, incoming);
      var held, lost := ActiveSolo(kept).At?, LosesSolo(m.rows, incoming);
      var left := if lost then map[] else m.snapshot - Leaving(m.rows, incoming);
      var rows := Renamed(kept + Newcomers(joining, incoming, m.clock, held), incoming, kept.Keys);
      && kept.Keys == m.rows.Keys - Leaving(m.rows, incoming)
      && Merged(m, incoming, false) == Mix(rows, if held then left + HeldMutes(joining, left) else left, m.clock + 1)
      && Reapplied(m, Merge(incoming, false)) == (if lost then kept.Keys else {}) + (if held then joining else replaced)
  {
  }

  /** The two maps when the newcomers in done have been seated. */
  ghost predicate JoinedSoFar(rows0: map<int, Row>, mutes0: map<int, bool>, joining: set<int>, newcomers: map<int, Row>,
                              held: bool, done: set<int>, rows: map<int, Row>, mutes: map<int, bool>)
  {
    && done <= joining && joining == newcomers.Keys
    && rows == Overwritten(rows0, done, newcomers)
    && mutes == if held then Overwritten(mutes0, done, HeldMutes(joining, mutes0)) else mutes0
  }

  lemma OneMoreJoins(rows0: map<int, Row>, mutes0: map<int, bool>, joining: set<int>, newcomers: map<int, Row>,
                     held: bool, done: set<int>, rows: map<int, Row>, mutes: map<int, bool>, c: int)
    requires JoinedSoFar(rows0, mutes0, joining, newcomers, held, done, rows, mutes) && c in joining && c !in done
    ensures JoinedSoFar(rows0, mutes0, joining, newcomers, held, done + {c}, rows[c := newcomers[c]],
                        if held then mutes[c := Lookup(mutes, c, false)] else mutes)
  {
    OverwriteOneMore(rows0, done, newcomers, c);
    OverwriteOneMore(mutes0, done, HeldMutes(joining, mutes0), c);
  }

  lemma AllJoined(rows0: map<int, Row>, mutes0: map<int, bool>, joining: set<int>, newcomers: map<int, Row>,
                  held: bool, rows: map<int, Row>, mutes: map<int, bool>)
    requires JoinedSoFar(rows0, mutes0, joining, newcomers, held, joining, rows, mutes)
    ensures rows == rows0 + newcomers && mutes == if held then mutes0 + HeldMutes(joining, mutes0) else mutes0
  {
    OverwriteAll(rows0, newcomers);
    OverwriteAll(mutes0, HeldMutes(joining, mutes0));
  }

  ghost predicate SoloAmong(rows: map<int, Row>, seats: set<int>)
  {
    exists c :: c in seats && Soloed(rows, c)
  }

  lemma SoloAmongOneMore(rows: map<int, Row>, seats: set<int>, c: int)
    ensures SoloAmong(rows, seats + {c}) <==> SoloAmong(rows, seats) || Soloed(rows, c)
  {
    if Soloed(rows, c) { assert c in seats + {c}; }
    if SoloAmong(rows, seats) {
      var d :| d in seats && Soloed(rows, d);
      assert d in seats + {c};
    }
  }

  /** Who is kept by a merge, and that no second solo comes of it. */
  lemma KeptIs(m: Mix, incoming: map<int, Name>)
    requires OneSolo(m.rows)
    ensures var leaving := Leaving(m.rows, incoming);
      Kept(m, incoming) == if SoloAmong(m.rows, leaving) then Unsoloed(m.rows - leaving, m.snapshot - leaving)
                           else m.rows - leaving
    ensures LosesSolo(m.rows, incoming) == SoloAmong(m.rows, Leaving(m.rows, incoming))
    ensures OneSolo(m.rows - Leaving(m.rows, incoming))
  {
    assert forall c :: Soloed(m.rows - Leaving(m.rows, incoming), c) ==> Soloed(m.rows, c);
  }

  lemma SingletonCount<T>(s: set<T>)
    ensures |s| == 1 <==> exists c :: s == {c}
  {
    if |s| == 1 {
      var c :| c in s;
      assert |s - {c}| == 0;
      assert s == {c};
    }
  }

  /** The rows settled so far; those in todo are still as they were. */
  ghost predicate Settling(before: map<int, Row>, rows: map<int, Row>, todo: set<int>, st: Staging, solo: Seat)
  {
    && (forall c :: c in rows <==> c in before)
    && (forall c :: c in rows ==> rows[c] == if c in todo then before[c] else RestoredRow(before[c], st, solo, c))
  }

  lemma Settled(before: map<int, Row>, rows: map<int, Row>, st: Staging, solo: Seat)
    requires Settling(before, rows, {}, st, solo)
    ensures rows == SettledRows(before, st, solo)
  {
    MapsAgree(rows, SettledRows(before, st, solo));
  }

  ghost function Affected(rows: map<int, Row>, staged: map<int, Row>, mutes: map<int, bool>, solo: Seat): set<int>
    requires mutes.Keys == rows.Keys
  {
    set c | c in rows && (c in staged || rows[c].muted != mutes[c] || rows[c].solo != (solo == At(c)))
  }

  lemma AffectedAre(m: Mix, list: seq<SavedRow>, after: map<int, Row>, affected: set<int>)
    requires OneSolo(m.rows) && StageAll(m, list).order != [] && after == Restored(m, Participants(list)).rows
    requires affected == Affected(after, StageAll(m, list).rows, MutesOf(m.rows), ActiveSolo(m.rows))
    ensures affected == Reapplied(m, Restore(Participants(list)))
  {
    SoloFlags(m.rows);
  }

  lemma SoloFlags(rows: map<int, Row>)
    requires OneSolo(rows)
    ensures forall c :: c in rows ==> rows[c].solo == (ActiveSolo(rows) == At(c))
  {
    assert forall c :: c in rows ==> (rows[c].solo <==> Soloed(rows, c));
  }

  class ParticipantStateManager {
    var participants: map<int, JamulusParticipant>
    var preSoloMute: map<int, bool>
    var clock: nat
    /** What the row objects currently say. */
    ghost var rows: map<int, Row>
    /** The row objects this manager has made. */
    ghost var repr: set<JamulusParticipant>

    ghost function View(): Mix
      reads this
    {
      Mix(rows, preSoloMute, clock)
    }

    /** The row objects say r, and different seats hold different objects. */
    ghost predicate Shows(r: map<int, Row>)
      reads this`participants, this`repr, repr
    {
      && r.Keys == participants.Keys
      && forall c :: c in participants ==>
        participants[c] in repr && participants[c].owner.seat == c && participants[c].AsRow() == r[c]
    }

    ghost predicate Seated()
      reads this`participants, this`rows, this`repr, repr
    {
      Shows(rows)
    }

    ghost predicate Valid()
      reads this`participants, this`rows, this`repr, repr
    {
      Seated() && OneSolo(rows)
    }

    constructor ()
      ensures Valid() && View() == EMPTY
    {
      participants, preSoloMute, clock, rows, repr := map[], map[], 0, map[], {};
    }

    method FindSolo() returns (solo: Seat)
      requires Valid()
      ensures solo == ActiveSolo(rows)
    {
      var todo := participants.Keys;
      solo := Nobody;
      while todo != {}
        invariant todo <= participants.Keys
        invariant solo.Nobody? && forall c :: c in participants && c !in todo ==> !rows[c].solo
      {
        var c := AnyOf(todo);
        if participants[c].solo {
          assert Soloed(rows, c);
          return At(c);
        }
        todo := todo - {c};
      }
      assert forall c :: !Soloed(rows, c);
    }

    /** Every seat with its current mute. */
    method CurrentMutes() returns (mutes: map<int, bool>)
      requires Seated()
      ensures mutes == MutesOf(rows)
    {
      mutes := map c | c in participants :: participants[c].muted;
      assert forall c :: c in participants ==> participants[c].muted == rows[c].muted;
      assert mutes.Keys == MutesOf(rows).Keys;
    }

    /** The gain a row is heard at, or nothing when the seat is empty or taken by somebody else. */
    method ListeningGain(channel: int, expected: JamulusParticipant?) returns (level: Option<int>)
      requires Seated()
      ensures level == if channel in rows && (expected == null || participants[channel] == expected)
                       then Some(Effective(rows[channel])) else None
    {
      if channel !in participants || (expected != null && participants[channel] != expected) {
        return None;
      }
      var p := participants[channel];
      return Some(if p.muted then 0 else p.fader);
    }

    /** The seat given to someone added without one: the first above all that are taken. */
    method NextChannel() returns (channel: int)
      ensures participants == map[] ==> channel == 0
      ensures participants != map[] ==> channel - 1 in participants
      ensures forall c :: c in participants ==> c < channel
    {
      var todo := participants.Keys;
      if todo == {} { return 0; }
      var top := AnyOf(todo);
      while todo != {}
        invariant todo <= participants.Keys && top in participants
        invariant forall c :: c in participants && c !in todo ==> c <= top
      {
        var c := AnyOf(todo);
        todo := todo - {c};
        if c > top { top := c; }
      }
      return top + 1;
    }

    /** A new row in its seat; held back by somebody else's solo, it starts muted with an unmuted snapshot. */
    method SeatNewcomer(seat: int, name: Name, held: bool) returns (p: JamulusParticipant)
      requires Seated()
      modifies this
      ensures Seated() && fresh(p) && repr == old(repr) + {p} && participants == old(participants)[seat := p]
      ensures clock == old(clock) && rows == old(rows)[seat := NewRow(seat, clock, name).(muted := held)]
      ensures preSoloMute ==
        if held then old(preSoloMute)[seat := Lookup(old(preSoloMute), seat, false)] else old(preSoloMute)
    {
      p := new JamulusParticipant(seat, name, clock);
      if held {
        p.muted := true;
        if seat !in preSoloMute { preSoloMute := preSoloMute[seat := false]; }
      }
      participants := participants[seat := p];
      rows, repr := rows[seat := p.AsRow()], repr + {p};
    }

    method AddParticipant(name: Name, channel: Seat) returns (p: JamulusParticipant, seat: int, applied: set<int>)
      requires Valid()
      modifies this
      ensures channel.At? ==> seat == channel.value
      ensures channel.Nobody? ==> forall c :: c in old(participants) ==> c < seat
      ensures channel.Nobody? ==> if old(participants) == map[] then seat == 0 else seat - 1 in old(participants)
      ensures Valid() && fresh(p) && repr == old(repr) + {p} && participants == old(participants)[seat := p]
      ensures View() == AddAt(old(View()), seat, name) && applied == Reapplied(old(View()), Add(seat, name))
    {
      if channel.Nobody? { seat := NextChannel(); } else { seat := channel.value; }
      AddIs(View(), seat, name);
      var solo := FindSolo();
      var held := solo.At? && solo.value != seat;
      p := SeatNewcomer(seat, name, held);
      clock := clock + 1;
      applied := if held then {seat} else {};
    }

    /** Nobody is soloed any more; everyone gets the mute the snapshot kept, or none where it kept nothing. */
    method ClearSolo()
      requires Seated()
      modifies this`rows, repr
      ensures Seated() && rows == Unsoloed(old(rows), preSoloMute)
    {
      var todo := participants.Keys;
      while todo != {}
        invariant todo <= participants.Keys && rows == old(rows) && repr == old(repr)
        invariant forall c :: c in todo ==> participants[c].AsRow() == rows[c]
        invariant forall c :: c in participants && c !in todo ==>
          participants[c].AsRow() == rows[c].(solo := false, muted := Lookup(preSoloMute, c, false))
      {
        var c := AnyOf(todo);
        var p := participants[c];
        p.solo := false;
        p.muted := if c in preSoloMute then preSoloMute[c] else false;
        todo := todo - {c};
      }
      assert Shows(Unsoloed(rows, preSoloMute));
      rows := Unsoloed(rows, preSoloMute);
    }

    /** A departed solo gives everyone left their own mute back. */
    method EndSolo() returns (applied: set<int>)
      requires Seated()
      modifies this`rows, this`preSoloMute, repr
      ensures Valid() && rows == Unsoloed(old(rows), old(preSoloMute)) && preSoloMute == map[]
      ensures applied == participants.Keys
    {
      ClearSolo();
      assert forall c :: !Soloed(rows, c);
      applied := participants.Keys;
      preSoloMute := map[];
    }

    /** With no solo left, no snapshot either. */
    method SweepSnapshot()
      requires Valid()
      modifies this`preSoloMute
      ensures preSoloMute == if ActiveSolo(rows).At? then old(preSoloMute) else map[]
    {
      var still := FindSolo();
      if still.Nobody? { preSoloMute := map[]; }
    }

    /** The seat is emptied, and forgotten by the snapshot. */
    method Unseat(channel: int)
      requires Seated() && channel in participants
      modifies this`participants, this`preSoloMute, this`rows
      ensures Seated() && participants == old(participants) - {channel} && rows == old(rows) - {channel}
      ensures preSoloMute == old(preSoloMute) - {channel}
    {
      participants, preSoloMute, rows := participants - {channel}, preSoloMute - {channel}, rows - {channel};
    }

    method RemoveParticipant(channel: int) returns (applied: set<int>)
      requires Valid()
      modifies this, repr
      ensures Valid() && repr == old(repr) && participants == old(participants) - {channel}
      ensures View() == RemoveAt(old(View()), channel) && applied == Reapplied(old(View()), Remove(channel))
    {
      RemoveIs(View(), channel);
      applied := {};
      if channel !in participants {
        assert participants == participants - {channel};
        return;
      }
      var soloed := participants[channel].solo;
      Unseat(channel);
      if soloed {
        applied := EndSolo();
      } else {
        SweepSnapshot();
      }
    }

    method SetFaderLevel(channel: int, level: int) returns (applied: set<int>)
      requires Valid()
      modifies this`rows, repr
      ensures Valid()
      ensures View() == SetFader(old(View()), channel, level)
      ensures applied == Reapplied(old(View()), Fader(channel, level))
    {
      StepKeepsOneSolo(View(), Fader(channel, level));
      if channel !in participants { return {}; }
      var p := participants[channel];
      p.fader := Clamp(0, 127, level);
      rows := rows[channel := p.AsRow()];
      applied := {channel};
    }

    method SetPanLevel(channel: int, pan: int)
      requires Valid()
      modifies this`rows, repr
      ensures Valid()
      ensures View() == SetPan(old(View()), channel, pan)
    {
      StepKeepsOneSolo(View(), Pan(channel, pan));
      if channel !in participants { return; }
      var p := participants[channel];
      p.pan := Clamp(0, 100, pan);
      rows := rows[channel := p.AsRow()];
    }

    /** The two maps after a mute press, given who is soloed. */
    method RecordMute(channel: int, muted: bool, solo: Seat)
      requires Seated() && channel in participants
      modifies this`rows, this`preSoloMute, repr
      ensures Seated()
      ensures preSoloMute == if solo.Nobody? then old(preSoloMute)
        else (if old(preSoloMute) == map[] then MutesOf(old(rows)) else old(preSoloMute))[channel := muted]
      ensures rows == old(rows)[channel := old(rows)[channel].(muted := solo.Nobody? || solo == At(channel) ==> muted)]
    {
      var p := participants[channel];
      if solo.Nobody? {
        p.muted := muted;
      } else {
        if preSoloMute == map[] { preSoloMute := CurrentMutes(); }
        preSoloMute := preSoloMute[channel := muted];
        p.muted := if solo == At(channel) then muted else true;
      }
      rows := rows[channel := p.AsRow()];
    }

    method SetMuted(channel: int, muted: bool) returns (applied: set<int>)
      requires Valid()
      modifies this`rows, this`preSoloMute, repr
      ensures Valid()
      ensures View() == SetMute(old(View()), channel, muted) && applied == Reapplied(old(View()), Mute(channel, muted))
    {
      StepKeepsOneSolo(View(), Mute(channel, muted));
      if channel !in participants { return {}; }
      var solo := FindSolo();
      RecordMute(channel, muted, solo);
      applied := {channel};
    }

    /** This seat alone is soloed; everyone else is muted. */
    method SoloOnly(channel: int)
      requires Seated()
      modifies this`rows, repr
      ensures Seated() && rows == map c | c in old(rows) :: old(rows)[c].(solo := c == channel, muted := c != channel)
    {
      var todo := participants.Keys;
      while todo != {}
        invariant todo <= participants.Keys && rows == old(rows) && repr == old(repr)
        invariant forall c :: c in todo ==> participants[c].AsRow() == rows[c]
        invariant forall c :: c in participants && c !in todo ==>
          participants[c].AsRow() == rows[c].(solo := c == channel, muted := c != channel)
      {
        var c := AnyOf(todo);
        var p := participants[c];
        p.solo, p.muted := c == channel, c != channel;
        todo := todo - {c};
      }
      rows := map c | c in rows :: rows[c].(solo := c == channel, muted := c != channel);
    }

    /** Exclusive solo; the mutes of a mix without one are put away first. */
    method BeginSolo(channel: int) returns (applied: set<int>)
      requires Valid() && channel in participants
      modifies this`rows, this`preSoloMute, repr
      ensures Valid() && View() == SetSolo(old(View()), channel, true) && applied == participants.Keys
    {
      var current := FindSolo();
      if current.Nobody? || preSoloMute == map[] { preSoloMute := CurrentMutes(); }
      SoloOnly(channel);
      assert forall c :: Soloed(rows, c) ==> c == channel;
      applied := participants.Keys;
    }

    method SetSoloed(channel: int, solo: bool) returns (applied: set<int>)
      requires Valid()
      modifies this`rows, this`preSoloMute, repr
      ensures Valid()
      ensures View() == SetSolo(old(View()), channel, solo) && applied == Reapplied(old(View()), Solo(channel, solo))
    {
      if channel !in participants { return {}; }
      if solo {
        applied := BeginSolo(channel);
      } else {
        applied := EndSolo();
      }
    }

    /** The bare roster clear of an empty RPC roster: the snapshot is left behind. */
    method ClearRoster()
      requires Valid()
      modifies this`participants, this`rows
      ensures Valid() && View() == Step(old(View()), Op.Clear)
    {
      participants, rows := map[], map[];
    }

    // ---- roster synchronisation ----

    /** Everyone who left or was replaced is dropped from both maps. */
    method DropLeaving(leaving: set<int>) returns (lostSolo: bool)
      requires Seated() && leaving <= participants.Keys
      modifies this
      ensures Seated() && repr == old(repr) && clock == old(clock) && participants == old(participants) - leaving
      ensures rows == old(rows) - leaving && preSoloMute == old(preSoloMute) - leaving
      ensures lostSolo <==> SoloAmong(old(rows), leaving)
    {
      var todo := leaving;
      ghost var gone: set<int> := {};
      lostSolo := false;
      while todo != {}
        invariant todo !! gone && todo + gone == leaving && Seated() && repr == old(repr) && clock == old(clock)
        invariant participants == old(participants) - gone
        invariant rows == old(rows) - gone && preSoloMute == old(preSoloMute) - gone
        invariant lostSolo <==> SoloAmong(old(rows), gone)
      {
        var c := AnyOf(todo);
        lostSolo := lostSolo || participants[c].solo;
        SoloAmongOneMore(old(rows), gone, c);
        DropOneMore(old(participants), gone, c);
        DropOneMore(old(rows), gone, c);
        DropOneMore(old(preSoloMute), gone, c);
        todo, gone := todo - {c}, gone + {c};
        participants, preSoloMute, rows := participants - {c}, preSoloMute - {c}, rows - {c};
      }
      assert gone == leaving;
    }

    method SeatJoining(incoming: map<int, Name>, joining: set<int>, held: bool)
      requires Seated() && joining <= incoming.Keys && joining !! participants.Keys
      modifies this
      ensures Seated() && fresh(repr - old(repr)) && clock == old(clock)
      ensures forall c :: c in old(participants) ==> c in participants && participants[c] == old(participants[c])
      ensures rows == old(rows) + Newcomers(joining, incoming, clock, held)
      ensures preSoloMute == if held then old(preSoloMute) + HeldMutes(joining, old(preSoloMute)) else old(preSoloMute)
    {
      var todo := joining;
      ghost var done: set<int> := {};
      ghost var rows0, mutes0, newcomers := rows, preSoloMute, Newcomers(joining, incoming, clock, held);
      while todo != {}
        invariant todo !! done && todo + done == joining && Seated() && fresh(repr - old(repr)) && clock == old(clock)
        invariant forall c :: c in old(participants) ==> c in participants && participants[c] == old(participants[c])
        invariant todo !! participants.Keys
        invariant JoinedSoFar(rows0, mutes0, joining, newcomers, held, done, rows, preSoloMute)
      {
        var c := AnyOf(todo);
        OneMoreJoins(rows0, mutes0, joining, newcomers, held, done, rows, preSoloMute, c);
        var p := SeatNewcomer(c, incoming[c], held);
        todo, done := todo - {c}, done + {c};
      }
      assert done == joining;
      AllJoined(rows0, mutes0, joining, newcomers, held, rows, preSoloMute);
    }

    method Rename(incoming: map<int, Name>, staying: set<int>)
      requires Seated() && staying <= incoming.Keys && staying <= participants.Keys
      modifies this`rows, repr
      ensures Seated()
      ensures rows == Renamed(old(rows), incoming, staying)
    {
      var todo := staying;
      while todo != {}
        invariant todo <= staying && rows == old(rows) && repr == old(repr)
        invariant forall c :: c in participants && (c in todo || c !in staying) ==> participants[c].AsRow() == rows[c]
        invariant forall c :: c in staying && c !in todo ==> participants[c].AsRow() == rows[c].(name := incoming[c])
      {
        var c := AnyOf(todo);
        participants[c].name := incoming[c];
        todo := todo - {c};
      }
      rows := Renamed(rows, incoming, staying);
    }

    /** Departures and replacements; a departing solo gives everyone left their own mute back. */
    method RemoveLeaving(incoming: map<int, Name>, leaving: set<int>) returns (applied: set<int>)
      requires Valid() && leaving == Leaving(rows, incoming)
      modifies this, repr
      ensures Valid() && repr == old(repr) && clock == old(clock) && participants == old(participants) - leaving
      ensures rows == Kept(old(View()), incoming)
      ensures preSoloMute == if LosesSolo(old(rows), incoming) then map[] else old(preSoloMute) - leaving
      ensures applied == if LosesSolo(old(rows), incoming) then rows.Keys else {}
    {
      KeptIs(View(), incoming);
      var lostSolo := DropLeaving(leaving);
      applied := {};
      if lostSolo {
        applied := EndSolo();
      }
    }

    method FindReplacements(incoming: map<int, Name>) returns (replacements: set<int>)
      requires Seated()
      ensures replacements == Replaced(rows, incoming)
    {
      replacements := set c | c in participants && c in incoming
                              && participants[c].name.folded != incoming[c].folded;
      assert forall c :: c in participants ==> participants[c].name == rows[c].name;
    }

    method SeatAndRename(incoming: map<int, Name>, joining: set<int>, staying: set<int>, held: bool)
      requires Seated() && joining <= incoming.Keys && joining !! participants.Keys
      requires staying <= incoming.Keys && staying <= participants.Keys
      modifies this, repr
      ensures Seated() && fresh(repr - old(repr)) && clock == old(clock) + 1
      ensures forall c :: c in old(participants) ==> c in participants && participants[c] == old(participants[c])
      ensures rows == Renamed(old(rows) + Newcomers(joining, incoming, old(clock), held), incoming, staying)
      ensures preSoloMute == if held then old(preSoloMute) + HeldMutes(joining, old(preSoloMute)) else old(preSoloMute)
    {
      SeatJoining(incoming, joining, held);
      Rename(incoming, staying);
      clock := clock + 1;
    }

    /** The merge up to the sweep of a leftover snapshot. */
    method MergeRoster(incoming: map<int, Name>) returns (applied: set<int>)
      requires Valid()
      modifies this, repr
      ensures Seated() && fresh(repr - old(repr))
      ensures View() == Merged(old(View()), incoming, false)
      ensures applied == Reapplied(old(View()), Merge(incoming, false))
      ensures forall c :: c in old(participants) && c !in Leaving(old(rows), incoming) ==>
        c in participants && participants[c] == old(participants[c])
    {
      var replacements := FindReplacements(incoming);
      var leaving := (participants.Keys - incoming.Keys) + replacements;
      var joining := (incoming.Keys - participants.Keys) + replacements;
      var staying := participants.Keys - leaving;
      MergeIs(View(), incoming);
      applied := RemoveLeaving(incoming, leaving);
      var solo := FindSolo();
      applied := applied + (if solo.At? then joining else replacements);
      SeatAndRename(incoming, joining, staying, solo.At?);
    }

    /** RPC sync (sweep false) and UDP sync (sweep true). */
    method MergeProtocolPayload(incoming: map<int, Name>, sweep: bool) returns (applied: set<int>)
      requires Valid()
      modifies this, repr
      ensures Valid() && fresh(repr - old(repr))
      ensures View() == Merged(old(View()), incoming, sweep)
      ensures applied == Reapplied(old(View()), Merge(incoming, sweep))
      ensures forall c :: c in old(participants) && c !in Leaving(old(rows), incoming) ==>
        c in participants && participants[c] == old(participants[c])
    {
      StepKeepsOneSolo(View(), Merge(incoming, false));
      applied := MergeRoster(incoming);
      if sweep { SweepSnapshot(); }
    }

    // ---- saved mixes ----

    /** The saved rows of serialize_mix, in the order the roster happened to be listed. */
    method SerializeMix() returns (order: seq<int>, list: seq<SavedRow>)
      requires Valid()
      ensures Lists(order, rows.Keys) && list == Saved(View(), order)
    {
      var solo := FindSolo();
      var todo := participants.Keys;
      order, list := [], [];
      while todo != {}
        invariant todo <= participants.Keys && Lists(order, rows.Keys - todo)
        invariant list == Saved(View(), order)
      {
        var c := AnyOf(todo);
        assert c !in order by { assert forall i :: 0 <= i < |order| ==> order[i] != c; }
        var p := participants[c];
        var preSolo := if solo.At? then Some(if c in preSoloMute then preSoloMute[c] else p.muted) else None;
        var saved :=
          SavedRow(At(c), p.name.folded, Some(p.fader), Some(p.pan), Some(p.solo), Some(Some(p.muted)), preSolo);
        assert saved == SavedOf(View(), c) by { assert p.AsRow() == rows[c]; }
        assert (order + [c])[..|order|] == order;
        order, list := order + [c], list + [saved];
        todo := todo - {c};
      }
    }

    method FindSeat(saved: SavedRow) returns (seat: Seat)
      requires Seated()
      ensures seat == Resolve(rows, saved) && forall d :: seat == At(d) <==> Belongs(rows, saved, d)
    {
      forall d ensures Resolve(rows, saved) == At(d) <==> Belongs(rows, saved, d) {
        ResolveIsBelonging(rows, saved, d);
      }
      assert forall c :: c in participants ==> participants[c].AsRow() == rows[c];
      assert forall c :: c in participants ==> participants[c].name == rows[c].name;
      if saved.NotARow? { return Nobody; }
      if saved.channel.At? && saved.channel.value in participants
         && (saved.folded == "" || participants[saved.channel.value].name.folded == saved.folded) {
        return saved.channel;
      }
      if saved.folded == "" { return Nobody; }
      var matches := set c | c in participants && participants[c].name.folded == saved.folded;
      assert matches == Named(rows, saved.folded);
      SingletonCount(matches);
      if |matches| == 1 {
        var c := AnyOf(matches);
        return At(c);
      }
      return Nobody;
    }

    /** Everyone's mute outside solo. */
    method PersonalMutes() returns (mutes: map<int, bool>)
      requires Valid()
      ensures mutes == NoStaging(View()).personal
    {
      var solo := FindSolo();
      mutes := map c | c in participants ::
        if solo.At? && c in preSoloMute then preSoloMute[c] else participants[c].muted;
      assert forall c :: c in participants ==> participants[c].muted == rows[c].muted;
      assert forall c :: c in rows ==> mutes[c] == Personal(View(), c);
    }

    method StageRows(list: seq<SavedRow>) returns (staged: map<int, Row>, order: seq<int>, personal: map<int, bool>)
      requires Valid()
      ensures Staging(staged, order, personal) == StageAll(View(), list)
    {
      staged, order := map[], [];
      personal := PersonalMutes();
      for i := 0 to |list|
        invariant Staging(staged, order, personal) == StageAll(View(), list[..i])
      {
        assert list[..i + 1][..i] == list[..i];
        var seat := FindSeat(list[i]);
        if seat.At? {
          var c := seat.value;
          var before := if c in staged then staged[c] else participants[c].AsRow();
          staged := staged[c := Candidate(before, list[i])];
          order := Without(order, c) + [c];
          personal := personal[c := SavedPersonal(personal[c], list[i])];
        }
      }
      assert list[..|list|] == list;
    }

    /** Among the staged rows that ask for solo, the one staged last. */
    method FindLastSolo(staged: map<int, Row>, order: seq<int>) returns (solo: Seat)
      ensures solo == LastSolo(staged, order)
    {
      var i := |order|;
      assert order[..i] == order;
      while i > 0
        invariant 0 <= i <= |order| && LastSolo(staged, order) == LastSolo(staged, order[..i])
      {
        i := i - 1;
        if order[i] in staged && staged[order[i]].solo { return At(order[i]); }
        assert order[..i + 1][..i] == order[..i];
      }
      return Nobody;
    }

    /** One row takes its restored levels, solo and mute. */
    method SettleRow(c: int, st: Staging, solo: Seat, soloMuted: bool)
      requires Seated() && c in participants && c in st.personal
      requires solo == At(c) ==> soloMuted == if c in st.rows then st.rows[c].muted else rows[c].muted
      modifies this`rows, repr
      ensures Seated() && rows == old(rows)[c := RestoredRow(old(rows)[c], st, solo, c)]
    {
      var p := participants[c];
      assert p.AsRow() == rows[c];
      if c in st.rows { p.fader, p.pan := st.rows[c].fader, st.rows[c].pan; }
      p.solo := solo == At(c);
      p.muted := if solo.Nobody? then st.personal[c] else if p.solo then soloMuted else true;
      rows := rows[c := p.AsRow()];
    }

    /** The mute the solo itself is left with. */
    method SoloMute(st: Staging, solo: Seat) returns (soloMuted: bool)
      requires Seated() && (solo.At? ==> solo.value in rows)
      ensures solo.At? ==>
        soloMuted == if solo.value in st.rows then st.rows[solo.value].muted else rows[solo.value].muted
    {
      soloMuted := false;
      if solo.At? {
        assert solo.value in participants && participants[solo.value].AsRow() == rows[solo.value];
        soloMuted := if solo.value in st.rows then st.rows[solo.value].muted else participants[solo.value].muted;
      }
    }

    method SettleRows(st: Staging, solo: Seat)
      requires Seated() && st.personal.Keys == rows.Keys && st.rows.Keys <= rows.Keys
      requires solo.At? ==> solo.value in rows
      modifies this`rows, repr
      ensures Seated() && rows == SettledRows(old(rows), st, solo)
    {
      var soloMuted := SoloMute(st, solo);
      ghost var before := rows;
      var todo := participants.Keys;
      while todo != {}
        invariant Seated() && repr == old(repr) && todo <= rows.Keys
        invariant Settling(before, rows, todo, st, solo)
      {
        var c := AnyOf(todo);
        SettleRow(c, st, solo, soloMuted);
        todo := todo - {c};
      }
      Settled(before, rows, st, solo);
    }

    /** The solo a restore settles on: the last staged one, else the current one if it was not staged. */
    method ChooseSolo(staged: map<int, Row>, order: seq<int>, ghost st: Staging) returns (solo: Seat)
      requires Valid() && st.rows.Keys <= rows.Keys && staged == st.rows && order == st.order
      ensures solo == RestoredSolo(View(), st) && (solo.At? ==> solo.value in rows)
    {
      var current := FindSolo();
      solo := FindLastSolo(staged, order);
      LastSoloIsStaged(staged, order);
      if solo.Nobody? && current.At? && current.value !in staged { solo := current; }
    }

    /** The staged rows replace the mix in one go. */
    method SettleStaged(st: Staging)
      requires Valid() && st.order != [] && st.rows.Keys <= rows.Keys && st.personal.Keys == rows.Keys
      modifies this`rows, this`preSoloMute, repr
      ensures Seated() && View() == Finish(old(View()), st)
    {
      var solo := ChooseSolo(st.rows, st.order, st);
      SettleRows(st, solo);
      preSoloMute := if solo.At? then st.personal else map[];
    }

    /** Seats whose gain a restore queues again: those matched, or whose mute or solo changed. */
    method AffectedSeats(staged: map<int, Row>, mutes: map<int, bool>, solo: Seat) returns (affected: set<int>)
      requires Seated() && mutes.Keys == rows.Keys
      ensures affected == Affected(rows, staged, mutes, solo)
    {
      affected := set c | c in participants
        && (c in staged || participants[c].muted != mutes[c] || participants[c].solo != (solo == At(c)));
      assert forall c :: c in participants ==> participants[c].AsRow() == rows[c];
    }

    method ApplyMixData(payload: Payload) returns (count: Option<nat>, applied: set<int>)
      requires Valid()
      modifies this`rows, this`preSoloMute, repr
      ensures Valid()
      ensures View() == Restored(old(View()), payload)
      ensures count == RestoredCount(old(View()), payload) && applied == Reapplied(old(View()), Restore(payload))
    {
      StepKeepsOneSolo(View(), Restore(payload));
      if payload.Malformed? { return None, {}; }
      var staged, order, personal := StageRows(payload.list);
      StageAllWell(View(), payload.list);
      count, applied := Some(|order|), {};
      if order != [] {
        var mutes := CurrentMutes();
        var solo := FindSolo();
        SettleStaged(Staging(staged, order, personal));
        applied := AffectedSeats(staged, mutes, solo);
        AffectedAre(old(View()), payload.list, rows, applied);
      }
    }
  }
}
