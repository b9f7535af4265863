/**
 The listening mix as a value: the roster, the pre-solo mute snapshot, and every operation of
 ParticipantStateManager as a function from one mix to the next.
 */
module MixModel {
  import opened Common

  /** A display name together with its stripped, case-folded form. */
  datatype Name = Name(text: string, folded: string)

  /** Identity of one roster row: two rows are the same object exactly when their occupants are equal. */
  datatype Occupant = Occupant(seat: int, joined: nat)

  datatype Row = Row(owner: Occupant, name: Name, fader: int, pan: int, muted: bool, solo: bool)

  /** A seat, or nobody's (None where the program looks for a channel). */
  datatype Seat = Nobody | At(value: int)

  /** clock stamps the next roster change, so an occupant is never issued twice. */
  datatype Mix = Mix(rows: map<int, Row>, snapshot: map<int, bool>, clock: nat)

  /** One row of a saved mix; an absent or unusable field is None.
      muted tells an absent field (None) from an unusable one (Some(None)). */
  datatype SavedRow = NotARow
                    | SavedRow(channel: Seat, folded: string, fader: Option<int>, pan: Option<int>,
                               solo: Option<bool>, muted: Option<Option<bool>>, preSolo: Option<bool>)

  datatype Payload = Malformed | Participants(list: seq<SavedRow>)

  datatype Op =
    | Add(seat: int, name: Name)
    | Remove(seat: int)
    | Fader(seat: int, level: int)
    | Pan(seat: int, pan: int)
    | Mute(seat: int, muted: bool)
    | Solo(seat: int, solo: bool)
    | Merge(incoming: map<int, Name>, sweep: bool)
    | Clear
    | Restore(payload: Payload)

  const EMPTY := Mix(map[], map[], 0)

  function Clamp(low: int, high: int, x: int): int
  {
    if x < low then low else if x > high then high else x
  }

  function NewRow(seat: int, clock: nat, name: Name): Row
  {
    Row(Occupant(seat, clock), name, 100, 50, false, false)
  }

  function Effective(row: Row): int
  {
    if row.muted then 0 else row.fader
  }

  predicate Soloed(rows: map<int, Row>, c: int)
  {
    c in rows && rows[c].solo
  }

  ghost predicate HasSolo(rows: map<int, Row>)
  {
    exists c :: Soloed(rows, c)
  }

  ghost function ActiveSolo(rows: map<int, Row>): (r: Seat)
    ensures r.At? <==> HasSolo(rows)
    ensures r.At? ==> Soloed(rows, r.value)
  {
    if HasSolo(rows) then var c :| Soloed(rows, c); At(c) else Nobody
  }

  function Lookup(snapshot: map<int, bool>, c: int, default: bool): bool
  {
    if c in snapshot then snapshot[c] else default
  }

  /** Leaving solo: every row gets its snapshot mute back, unmuted when the snapshot has none. */
  function Unsoloed(rows: map<int, Row>, snapshot: map<int, bool>): map<int, Row>
  {
    map c | c in rows :: rows[c].(solo := false, muted := Lookup(snapshot, c, false))
  }

  function MutesOf(rows: map<int, Row>): map<int, bool>
  {
    map c | c in rows :: rows[c].muted
  }

  // ---- roster and listening gestures -------------------------------------------------------

  ghost function AddAt(m: Mix, seat: int, name: Name): Mix
  {
    var row := NewRow(seat, m.clock, name);
    if HasSolo(m.rows) && ActiveSolo(m.rows) != At(seat) then
      Mix(m.rows[seat := row.(muted := true)],
          m.snapshot[seat := Lookup(m.snapshot, seat, false)], m.clock + 1)
    else
      Mix(m.rows[seat := row], m.snapshot, m.clock + 1)
  }

  ghost function RemoveAt(m: Mix, seat: int): Mix
  {
    if seat !in m.rows then m
    else
      var rows, snapshot := m.rows - {seat}, m.snapshot - {seat};
      if m.rows[seat].solo then m.(rows := Unsoloed(rows, snapshot), snapshot := map[])
      else m.(rows := rows, snapshot := if HasSolo(rows) then snapshot else map[])
  }

  function SetFader(m: Mix, seat: int, level: int): Mix
  {
    if seat !in m.rows then m
    else m.(rows := m.rows[seat := m.rows[seat].(fader := Clamp(0, 127, level))])
  }

  function SetPan(m: Mix, seat: int, pan: int): Mix
  {
    if seat !in m.rows then m
    else m.(rows := m.rows[seat := m.rows[seat].(pan := Clamp(0, 100, pan))])
  }

  ghost function SetMute(m: Mix, seat: int, muted: bool): Mix
  {
    if seat !in m.rows then m
    else if !HasSolo(m.rows) then m.(rows := m.rows[seat := m.rows[seat].(muted := muted)])
    else
      var snapshot := if m.snapshot == map[] then MutesOf(m.rows) else m.snapshot;
      var heard := if ActiveSolo(m.rows) == At(seat) then muted else true;
      m.(rows := m.rows[seat := m.rows[seat].(muted := heard)], snapshot := snapshot[seat := muted])
  }

  ghost function SetSolo(m: Mix, seat: int, solo: bool): Mix
  {
    if seat !in m.rows then m
    else if solo then
      var snapshot := if !HasSolo(m.rows) || m.snapshot == map[] then MutesOf(m.rows) else m.snapshot;
      m.(rows := map c | c in m.rows :: m.rows[c].(solo := c == seat, muted := c != seat), snapshot := snapshot)
    else
      m.(rows := Unsoloed(m.rows, m.snapshot), snapshot := map[])
  }

  // ---- roster synchronisation --------------------------------------------------------------

  function Replaced(rows: map<int, Row>, incoming: map<int, Name>): set<int>
  {
    set c | c in rows && c in incoming && rows[c].name.folded != incoming[c].folded
  }

  function Leaving(rows: map<int, Row>, incoming: map<int, Name>): set<int>
  {
    (rows.Keys - incoming.Keys) + Replaced(rows, incoming)
  }

  function Joining(rows: map<int, Row>, incoming: map<int, Name>): set<int>
  {
    (incoming.Keys - rows.Keys) + Replaced(rows, incoming)
  }

  ghost predicate LosesSolo(rows: map<int, Row>, incoming: map<int, Name>)
  {
    exists c :: c in Leaving(rows, incoming) && Soloed(rows, c)
  }

  ghost function Kept(m: Mix, incoming: map<int, Name>): map<int, Row>
  {
    var leaving := Leaving(m.rows, incoming);
    if LosesSolo(m.rows, incoming) then Unsoloed(m.rows - leaving, m.snapshot - leaving) else m.rows - leaving
  }

  /** The rows newcomers are given; held back by a continuing solo, they start muted. */
  function Newcomers(joining: set<int>, incoming: map<int, Name>, stamp: nat, held: bool): map<int, Row>
    requires joining <= incoming.Keys
  {
    map c | c in joining :: NewRow(c, stamp, incoming[c]).(muted := held)
  }

  /** What the snapshot says of the newcomers: what it said already, else that they are not muted. */
  function HeldMutes(joining: set<int>, snapshot: map<int, bool>): map<int, bool>
  {
    map c | c in joining :: Lookup(snapshot, c, false)
  }

  function Renamed(rows: map<int, Row>, incoming: map<int, Name>, staying: set<int>): map<int, Row>
  {
    map c | c in rows :: if c in staying && c in incoming then rows[c].(name := incoming[c]) else rows[c]
  }

  ghost function Merged(m: Mix, incoming: map<int, Name>, sweep: bool): Mix
  {
    var joining, kept := Joining(m.rows, incoming), Kept(m, incoming);
    var held := HasSolo(kept);
    var left := if LosesSolo(m.rows, incoming) then map[] else m.snapshot - Leaving(m.rows, incoming);
    var snapshot := if held then left + HeldMutes(joining, left) else left;
    var rows := Renamed(kept + Newcomers(joining, incoming, m.clock, held), incoming, kept.Keys);
    Mix(rows, if sweep && !HasSolo(rows) then map[] else snapshot, m.clock + 1)
  }

  // ---- saved mixes -------------------------------------------------------------------------

  function Named(rows: map<int, Row>, folded: string): set<int>
  {
    set c | c in rows && rows[c].name.folded == folded
  }

  /** The seat a saved row belongs to: its own channel when the name agrees or is blank, else the one
      seat carrying that name. */
  ghost function Resolve(rows: map<int, Row>, saved: SavedRow): (r: Seat)
    ensures r.At? ==> r.value in rows
  {
    if saved.NotARow? then Nobody
    else if saved.channel.At? && saved.channel.value in rows
         && (saved.folded == "" || rows[saved.channel.value].name.folded == saved.folded) then saved.channel
    else if saved.folded != "" && exists c :: Named(rows, saved.folded) == {c} then
      var c :| Named(rows, saved.folded) == {c};
      assert c in Named(rows, saved.folded);
      At(c)
    else Nobody
  }

  /** Rows staged so far with their last-touched order, and each person's mute outside solo. */
  datatype Staging = Staging(rows: map<int, Row>, order: seq<int>, personal: map<int, bool>)

  ghost function Personal(m: Mix, c: int): bool
    requires c in m.rows
  {
    if HasSolo(m.rows) then Lookup(m.snapshot, c, m.rows[c].muted) else m.rows[c].muted
  }

  ghost function NoStaging(m: Mix): Staging
  {
    Staging(map[], [], map c | c in m.rows :: Personal(m, c))
  }

  function Candidate(before: Row, saved: SavedRow): Row
    requires saved.SavedRow?
  {
    var fader := if saved.fader.Some? then saved.fader.value else before.fader;
    var pan := if saved.pan.Some? then saved.pan.value else before.pan;
    var solo := if saved.solo.Some? then saved.solo.value else before.solo;
    var muted := match saved.muted
      case Some(Some(value)) => value
      case Some(None) => before.muted
      case None => if solo && !before.solo then false else before.muted;
    before.(fader := Clamp(0, 127, fader), pan := Clamp(0, 100, pan), solo := solo, muted := muted)
  }

  function SavedPersonal(before: bool, saved: SavedRow): bool
    requires saved.SavedRow?
  {
    if saved.preSolo.Some? then saved.preSolo.value
    else match saved.muted case Some(Some(value)) => value case _ => before
  }

  function Without(order: seq<int>, c: int): (r: seq<int>)
  {
    if order == [] then []
    else if order[|order| - 1] == c then Without(order[..|order| - 1], c)
    else Without(order[..|order| - 1], c) + [order[|order| - 1]]
  }

  ghost function Stage(rows: map<int, Row>, st: Staging, saved: SavedRow): (r: Staging)
    requires st.personal.Keys == rows.Keys
    ensures r.personal.Keys == rows.Keys
  {
    match Resolve(rows, saved)
    case Nobody => st
    case At(c) =>
      var before := if c in st.rows then st.rows[c] else rows[c];
      Staging(st.rows[c := Candidate(before, saved)], Without(st.order, c) + [c],
              st.personal[c := SavedPersonal(st.personal[c], saved)])
  }

  ghost function StageAll(m: Mix, list: seq<SavedRow>): (r: Staging)
    ensures r.personal.Keys == m.rows.Keys
  {
    if list == [] then NoStaging(m)
    else Stage(m.rows, StageAll(m, list[..|list| - 1]), list[|list| - 1])
  }

  function LastSolo(staged: map<int, Row>, order: seq<int>): Seat
  {
    if order == [] then Nobody
    else if Soloed(staged, order[|order| - 1]) then At(order[|order| - 1])
    else LastSolo(staged, order[..|order| - 1])
  }

  ghost function RestoredSolo(m: Mix, st: Staging): Seat
  {
    match LastSolo(st.rows, st.order)
    case At(c) => At(c)
    case Nobody =>
      var current := ActiveSolo(m.rows);
      if current.At? && current.value !in st.rows then current else Nobody
  }

  function RestoredRow(row: Row, st: Staging, solo: Seat, c: int): Row
  {
    var own := if c in st.rows then row.(fader := st.rows[c].fader, pan := st.rows[c].pan) else row;
    var heard := if c in st.rows then st.rows[c].muted else row.muted;
    own.(solo := solo == At(c),
         muted := if solo.Nobody? then Lookup(st.personal, c, false) else if solo == At(c) then heard else true)
  }

  function SettledRows(rows: map<int, Row>, st: Staging, solo: Seat): map<int, Row>
  {
    map c | c in rows :: RestoredRow(rows[c], st, solo, c)
  }

  ghost function Finish(m: Mix, st: Staging): Mix
  {
    if st.order == [] then m
    else
      var solo := RestoredSolo(m, st);
      m.(rows := SettledRows(m.rows, st, solo),
         snapshot := if solo.At? then st.personal else map[])
  }

  ghost function Restored(m: Mix, payload: Payload): Mix
  {
    if payload.Malformed? then m else Finish(m, StageAll(m, payload.list))
  }

  /** The count apply_mix_data reports: None for a malformed payload, else the seats it matched. */
  ghost function RestoredCount(m: Mix, payload: Payload): Option<nat>
  {
    if payload.Malformed? then None else Some(|StageAll(m, payload.list).order|)
  }

  // ---- one step, and what it re-applies natively -------------------------------------------

  ghost function Step(m: Mix, op: Op): Mix
  {
    match op
    case Add(seat, name) => AddAt(m, seat, name)
    case Remove(seat) => RemoveAt(m, seat)
    case Fader(seat, level) => SetFader(m, seat, level)
    case Pan(seat, pan) => SetPan(m, seat, pan)
    case Mute(seat, muted) => SetMute(m, seat, muted)
    case Solo(seat, solo) => SetSolo(m, seat, solo)
    case Merge(incoming, sweep) => Merged(m, incoming, sweep)
    case Clear => m.(rows := map[])
    case Restore(payload) => Restored(m, payload)
  }

  /** Seats whose listening gain the operation hands to the native dispatcher. */
  ghost function Reapplied(m: Mix, op: Op): set<int>
  {
    match op
    case Add(seat, _) => if HasSolo(m.rows) && ActiveSolo(m.rows) != At(seat) then {seat} else {}
    case Remove(seat) => if Soloed(m.rows, seat) then m.rows.Keys - {seat} else {}
    case Fader(seat, _) => m.rows.Keys * {seat}
    case Pan(_, _) => {}
    case Mute(seat, _) => m.rows.Keys * {seat}
    case Solo(seat, _) => if seat in m.rows then m.rows.Keys else {}
    case Merge(incoming, _) =>
      (if LosesSolo(m.rows, incoming) then Kept(m, incoming).Keys else {})
      + (if HasSolo(Kept(m, incoming)) then Joining(m.rows, incoming) else Replaced(m.rows, incoming))
    case Clear => {}
    case Restore(payload) =>
      if payload.Malformed? then {}
      else
        var st := StageAll(m, payload.list);
        var after := Finish(m, st);
        if st.order == [] then {}
        else set c | c in m.rows && (c in st.rows || after.rows[c].muted != m.rows[c].muted
                                                  || after.rows[c].solo != m.rows[c].solo)
  }

  ghost function Run(m: Mix, ops: seq<Op>): Mix
  {
    if ops == [] then m else Step(Run(m, ops[..|ops| - 1]), ops[|ops| - 1])
  }

  // ---- solo safety ---------------------------------------------------------------------------

  /** At most one solo; everyone else is muted while it lasts and the snapshot covers exactly the
      roster; levels in range; occupants belong to their seats and are older than the clock. */
  ghost predicate Inv(m: Mix)
  {
    && (forall c :: c in m.rows ==>
      0 <= m.rows[c].fader <= 127 && 0 <= m.rows[c].pan <= 100
      && m.rows[c].owner.seat == c && m.rows[c].owner.joined < m.clock)
    && (forall c, d :: Soloed(m.rows, c) && d in m.rows && d != c ==> !m.rows[d].solo && m.rows[d].muted)
    && (HasSolo(m.rows) ==> m.snapshot.Keys == m.rows.Keys)
  }

  ghost predicate StagedWell(rows: map<int, Row>, st: Staging)
  {
    && st.rows.Keys <= rows.Keys && st.personal.Keys == rows.Keys
    && (forall c :: c in st.rows <==> c in st.order)
    && (forall i, j :: 0 <= i < j < |st.order| ==> st.order[i] != st.order[j])
    && (forall c :: c in st.rows ==> 0 <= st.rows[c].fader <= 127 && 0 <= st.rows[c].pan <= 100)
  }

  lemma {:induction false} WithoutContents(order: seq<int>, c: int)
    requires forall i, j :: 0 <= i < j < |order| ==> order[i] != order[j]
    ensures forall d :: d in Without(order, c) <==> d in order && d != c
    ensures forall i, j :: 0 <= i < j < |Without(order, c)| ==> Without(order, c)[i] != Without(order, c)[j]
  {
    if order != [] {
      var init := order[..|order| - 1];
      assert order == init + [order[|order| - 1]];
      WithoutContents(init, c);
      var w, last := Without(init, c), order[|order| - 1];
      assert last !in init;
      forall i, j | 0 <= i < j < |w + [last]| ensures (w + [last])[i] != (w + [last])[j] {
        assert (w + [last])[i] == w[i] && w[i] in w;
      }
    }
  }

  lemma StageKeepsStaging(rows: map<int, Row>, st: Staging, saved: SavedRow)
    requires StagedWell(rows, st)
    ensures StagedWell(rows, Stage(rows, st, saved))
  {
    var r := Resolve(rows, saved);
    if r.At? { WithoutContents(st.order, r.value); }
  }

  lemma {:induction false} StageAllWell(m: Mix, list: seq<SavedRow>)
    ensures StagedWell(m.rows, StageAll(m, list))
  {
    if list != [] {
      StageAllWell(m, list[..|list| - 1]);
      StageKeepsStaging(m.rows, StageAll(m, list[..|list| - 1]), list[|list| - 1]);
    }
  }

  lemma {:induction false} LastSoloIsStaged(staged: map<int, Row>, order: seq<int>)
    ensures LastSolo(staged, order).At? ==> Soloed(staged, LastSolo(staged, order).value)
  {
    if order != [] { LastSoloIsStaged(staged, order[..|order| - 1]); }
  }

  lemma RestoreKeepsInv(m: Mix, payload: Payload)
    requires Inv(m)
    ensures Inv(Restored(m, payload))
  {
    if payload.Participants? {
      var st := StageAll(m, payload.list);
      StageAllWell(m, payload.list);
      LastSoloIsStaged(st.rows, st.order);
    }
  }

  /** A solo after a merge is the solo before it, and nobody lost it. */
  lemma MergedSoloWas(m: Mix, incoming: map<int, Name>, sweep: bool, s: int)
    requires Soloed(Merged(m, incoming, sweep).rows, s)
    ensures Soloed(Kept(m, incoming), s) && Soloed(m.rows, s) && !LosesSolo(m.rows, incoming)
  {
    assert Soloed(Kept(m, incoming), s);
  }

  lemma MergeKeepsSnapshot(m: Mix, incoming: map<int, Name>, sweep: bool)
    requires Inv(m) && HasSolo(Merged(m, incoming, sweep).rows)
    ensures Merged(m, incoming, sweep).snapshot.Keys == Merged(m, incoming, sweep).rows.Keys
  {
    var s :| Soloed(Merged(m, incoming, sweep).rows, s);
    MergedSoloWas(m, incoming, sweep, s);
  }

  lemma MergeKeepsRow(m: Mix, incoming: map<int, Name>, sweep: bool, c: int)
    requires Inv(m) && c in Merged(m, incoming, sweep).rows
    ensures var after := Merged(m, incoming, sweep); var row := after.rows[c];
      0 <= row.fader <= 127 && 0 <= row.pan <= 100 && row.owner.seat == c && row.owner.joined < after.clock
  {
  }

  lemma MergeKeepsSoloMutes(m: Mix, incoming: map<int, Name>, sweep: bool, s: int, c: int)
    requires Inv(m) && Soloed(Merged(m, incoming, sweep).rows, s) && c in Merged(m, incoming, sweep).rows && c != s
    ensures !Merged(m, incoming, sweep).rows[c].solo && Merged(m, incoming, sweep).rows[c].muted
  {
    MergedSoloWas(m, incoming, sweep, s);
  }

  lemma MergeKeepsInv(m: Mix, incoming: map<int, Name>, sweep: bool)
    requires Inv(m)
    ensures Inv(Merged(m, incoming, sweep))
  {
    var after := Merged(m, incoming, sweep);
    forall c | c in after.rows
      ensures var row := after.rows[c];
        0 <= row.fader <= 127 && 0 <= row.pan <= 100 && row.owner.seat == c && row.owner.joined < after.clock
    {
      MergeKeepsRow(m, incoming, sweep, c);
    }
    forall s, c | Soloed(after.rows, s) && c in after.rows && c != s
      ensures !after.rows[c].solo && after.rows[c].muted
    {
      MergeKeepsSoloMutes(m, incoming, sweep, s, c);
    }
    if HasSolo(after.rows) {
      MergeKeepsSnapshot(m, incoming, sweep);
    }
  }

  lemma AddKeepsInv(m: Mix, seat: int, name: Name)
    requires Inv(m)
    ensures Inv(AddAt(m, seat, name))
  {
    var rows := AddAt(m, seat, name).rows;
    assert forall c :: Soloed(rows, c) ==> Soloed(m.rows, c) && c != seat;
    if c :| Soloed(rows, c) {
      assert ActiveSolo(m.rows) == At(c);
    }
  }

  lemma RemoveKeepsInv(m: Mix, seat: int)
    requires Inv(m)
    ensures Inv(RemoveAt(m, seat))
  {
    if seat in m.rows {
      var rows := m.rows - {seat};
      assert forall c :: Soloed(rows, c) ==> Soloed(m.rows, c);
    }
  }

  lemma LevelKeepsInv(m: Mix, seat: int, level: int)
    requires Inv(m)
    ensures Inv(SetFader(m, seat, level)) && Inv(SetPan(m, seat, level))
  {
    assert forall c :: Soloed(SetFader(m, seat, level).rows, c) ==> Soloed(m.rows, c);
    assert forall c :: Soloed(SetPan(m, seat, level).rows, c) ==> Soloed(m.rows, c);
  }

  lemma MuteKeepsInv(m: Mix, seat: int, muted: bool)
    requires Inv(m)
    ensures Inv(SetMute(m, seat, muted))
  {
    assert forall c :: Soloed(SetMute(m, seat, muted).rows, c) <==> Soloed(m.rows, c);
  }

  lemma StepKeepsInv(m: Mix, op: Op)
    requires Inv(m)
    ensures Inv(Step(m, op))
  {
    match op
    case Add(seat, name) => AddKeepsInv(m, seat, name);
    case Remove(seat) => RemoveKeepsInv(m, seat);
    case Fader(seat, level) => LevelKeepsInv(m, seat, level);
    case Pan(seat, pan) => LevelKeepsInv(m, seat, pan);
    case Mute(seat, muted) => MuteKeepsInv(m, seat, muted);
    case Merge(incoming, sweep) => MergeKeepsInv(m, incoming, sweep);
    case Restore(payload) => RestoreKeepsInv(m, payload);
    case _ =>
  }

  lemma {:induction false} RunKeepsInv(m: Mix, ops: seq<Op>)
    requires Inv(m)
    ensures Inv(Run(m, ops))
  {
    if ops != [] {
      RunKeepsInv(m, ops[..|ops| - 1]);
      StepKeepsInv(Run(m, ops[..|ops| - 1]), ops[|ops| - 1]);
    }
  }

  /** Every reachable mix, whatever mix files and rosters it was fed, is safe. */
  lemma ReachableIsSafe(ops: seq<Op>)
    ensures Inv(Run(EMPTY, ops))
  {
    RunKeepsInv(EMPTY, ops);
  }

  /** Whoever keeps the seat and hears a different gain is handed to the dispatcher again. */
  lemma ReappliesEveryChange(m: Mix, op: Op, c: int)
    requires c in m.rows && c in Step(m, op).rows
    requires Step(m, op).rows[c].owner == m.rows[c].owner
    requires m.rows[c].owner.joined < m.clock
    requires Effective(Step(m, op).rows[c]) != Effective(m.rows[c])
    ensures c in Reapplied(m, op)
  {
  }
}
