/**
 What a mix file decides, read off its rows alone: whom each row belongs to, the last word said on each
 person's levels, mute and solo, and nothing for anybody the file does not name.
 */
module MixFile {
  import opened Common
  import opened MixModel
  import opened MixAbstract
  import opened MixRestore

  ghost predicate Mentions(rows: map<int, Row>, list: seq<SavedRow>, d: int)
  {
    exists i :: 0 <= i < |list| && Belongs(rows, list[i], d)
  }

  /** The last thing a row of d's says. */
  ghost function LastWord<T>(rows: map<int, Row>, list: seq<SavedRow>, d: int, says: SavedRow -> Option<T>): Option<T>
  {
    if list == [] then None
    else
      var init, last := list[..|list| - 1], list[|list| - 1];
      if Belongs(rows, last, d) && says(last).Some? then says(last) else LastWord(rows, init, d, says)
  }

  function OnFader(saved: SavedRow): Option<int> { if saved.SavedRow? then saved.fader else None }

  function OnPan(saved: SavedRow): Option<int> { if saved.SavedRow? then saved.pan else None }

  function OnSolo(saved: SavedRow): Option<bool> { if saved.SavedRow? then saved.solo else None }

  /** The mute outside solo: said outright, or else by the plain mute. */
  function OnMute(saved: SavedRow): Option<bool>
  {
    if saved.NotARow? then None
    else if saved.preSolo.Some? then saved.preSolo
    else if saved.muted.Some? then saved.muted.value
    else None
  }

  function Or<T>(word: Option<T>, default: T): T
  {
    if word.Some? then word.value else default
  }

  ghost predicate Asks(n: Mix, list: seq<SavedRow>, d: int)
    requires d in n.rows
  {
    Or(LastWord(n.rows, list, d, OnSolo), n.rows[d].solo)
  }

  /** The mute of d as the soloed one: the last plain mute given, or unmuted where a row that gave none began
      the solo. */
  ghost function MuteWhenSoloed(n: Mix, list: seq<SavedRow>, d: int): bool
    requires d in n.rows
  {
    if list == [] then n.rows[d].muted
    else
      var init, last := list[..|list| - 1], list[|list| - 1];
      if !Belongs(n.rows, last, d) then MuteWhenSoloed(n, init, d)
      else if last.muted.Some? && last.muted.value.Some? then last.muted.value.value
      else if last.muted.None? && Asks(n, list, d) && !Asks(n, init, d) then false
      else MuteWhenSoloed(n, init, d)
  }

  /** r is the level nearest to x that the range allows. */
  function Distance(a: int, b: int): int { if a < b then b - a else a - b }

  ghost predicate Nearest(low: int, high: int, x: int, r: int)
  {
    low <= r <= high && forall y :: low <= y <= high ==> Distance(r, x) <= Distance(y, x)
  }

  lemma ClampIsNearest(low: int, high: int, x: int, r: int)
    requires low <= high
    ensures Nearest(low, high, x, r) <==> r == Clamp(low, high, x)
  {
    var c := Clamp(low, high, x);
    assert Distance(c, x) >= 0;
    if Nearest(low, high, x, r) {
      assert Distance(r, x) <= Distance(c, x);
    }
  }

  /** Setting a fader or pan takes the nearest level allowed, of that seat only. */
  lemma GestureTakesNearest(m: Mix, seat: int, level: int, c: int)
    requires seat in m.rows && c in m.rows
    ensures var after := SetFader(m, seat, level);
      after.rows.Keys == m.rows.Keys && after.snapshot == m.snapshot && after.clock == m.clock
      && after.rows[c].(fader := 0) == m.rows[c].(fader := 0)
      && if c == seat then Nearest(0, 127, level, after.rows[c].fader) else after.rows[c] == m.rows[c]
    ensures var after := SetPan(m, seat, level);
      after.rows.Keys == m.rows.Keys && after.snapshot == m.snapshot && after.clock == m.clock
      && after.rows[c].(pan := 0) == m.rows[c].(pan := 0)
      && if c == seat then Nearest(0, 100, level, after.rows[c].pan) else after.rows[c] == m.rows[c]
  {
    ClampIsNearest(0, 127, level, Clamp(0, 127, level));
    ClampIsNearest(0, 100, level, Clamp(0, 100, level));
  }

  // ---- the staging says what the file says ------------------------------------------------------------

  ghost predicate AsSaid(n: Mix, list: seq<SavedRow>, st: Staging, d: int)
    requires d in n.rows && d in st.rows
  {
    var row := st.rows[d];
    && row.fader == Clamp(0, 127, Or(LastWord(n.rows, list, d, OnFader), n.rows[d].fader))
    && row.pan == Clamp(0, 100, Or(LastWord(n.rows, list, d, OnPan), n.rows[d].pan))
    && row.solo == Asks(n, list, d) && row.muted == MuteWhenSoloed(n, list, d)
  }

  /** Where nothing has been said yet the current row stands in. */
  ghost function Before(n: Mix, st: Staging, d: int): Row
    requires d in n.rows
  {
    if d in st.rows then st.rows[d] else n.rows[d]
  }

  lemma {:induction false} Unmentioned(n: Mix, list: seq<SavedRow>, d: int)
    requires d in n.rows && !Mentions(n.rows, list, d)
    ensures LastWord(n.rows, list, d, OnFader).None? && LastWord(n.rows, list, d, OnPan).None?
    ensures LastWord(n.rows, list, d, OnSolo).None? && LastWord(n.rows, list, d, OnMute).None?
    ensures MuteWhenSoloed(n, list, d) == n.rows[d].muted
  {
    if list != [] {
      assert !Belongs(n.rows, list[|list| - 1], d);
      assert forall i :: 0 <= i < |list| - 1 ==> list[..|list| - 1][i] == list[i];
      Unmentioned(n, list[..|list| - 1], d);
    }
  }

  lemma MentionsStep(rows: map<int, Row>, list: seq<SavedRow>, d: int)
    requires list != []
    ensures var init, last := list[..|list| - 1], list[|list| - 1];
      Mentions(rows, list, d) <==> Belongs(rows, last, d) || Mentions(rows, init, d)
  {
    var init := list[..|list| - 1];
    assert forall i :: 0 <= i < |init| ==> init[i] == list[i];
  }

  lemma CandidateAsSaid(n: Mix, list: seq<SavedRow>, d: int, before: Row)
    requires Inv(n) && d in n.rows && list != [] && Belongs(n.rows, list[|list| - 1], d)
    requires var init := list[..|list| - 1];
      && before.fader == Clamp(0, 127, Or(LastWord(n.rows, init, d, OnFader), n.rows[d].fader))
      && before.pan == Clamp(0, 100, Or(LastWord(n.rows, init, d, OnPan), n.rows[d].pan))
      && before.solo == Asks(n, init, d) && before.muted == MuteWhenSoloed(n, init, d)
    ensures var row := Candidate(before, list[|list| - 1]);
      && row.fader == Clamp(0, 127, Or(LastWord(n.rows, list, d, OnFader), n.rows[d].fader))
      && row.pan == Clamp(0, 100, Or(LastWord(n.rows, list, d, OnPan), n.rows[d].pan))
      && row.solo == Asks(n, list, d) && row.muted == MuteWhenSoloed(n, list, d)
  {
  }

  lemma OthersSayNothing(n: Mix, list: seq<SavedRow>, d: int)
    requires d in n.rows && list != [] && !Belongs(n.rows, list[|list| - 1], d)
    ensures var init := list[..|list| - 1];
      && LastWord(n.rows, list, d, OnFader) == LastWord(n.rows, init, d, OnFader)
      && LastWord(n.rows, list, d, OnPan) == LastWord(n.rows, init, d, OnPan)
      && LastWord(n.rows, list, d, OnMute) == LastWord(n.rows, init, d, OnMute)
      && Asks(n, list, d) == Asks(n, init, d) && MuteWhenSoloed(n, list, d) == MuteWhenSoloed(n, init, d)
  {
  }

  ghost predicate SaidSo(n: Mix, list: seq<SavedRow>, st: Staging, d: int)
    requires d in n.rows && st.personal.Keys == n.rows.Keys
  {
    && (d in st.rows <==> Mentions(n.rows, list, d))
    && (d in st.rows ==> AsSaid(n, list, st, d))
    && st.personal[d] == Or(LastWord(n.rows, list, d, OnMute), Personal(n, d))
  }

  lemma BeforeAsSaid(n: Mix, list: seq<SavedRow>, st: Staging, d: int)
    requires Inv(n) && d in n.rows && st.personal.Keys == n.rows.Keys && SaidSo(n, list, st, d)
    ensures var before := Before(n, st, d);
      && before.fader == Clamp(0, 127, Or(LastWord(n.rows, list, d, OnFader), n.rows[d].fader))
      && before.pan == Clamp(0, 100, Or(LastWord(n.rows, list, d, OnPan), n.rows[d].pan))
      && before.solo == Asks(n, list, d) && before.muted == MuteWhenSoloed(n, list, d)
  {
    if d !in st.rows {
      Unmentioned(n, list, d);
    }
  }

  lemma StepAsSaid(n: Mix, list: seq<SavedRow>, st: Staging, d: int)
    requires Inv(n) && d in n.rows && st.personal.Keys == n.rows.Keys && list != []
    requires SaidSo(n, list[..|list| - 1], st, d)
    ensures SaidSo(n, list, Stage(n.rows, st, list[|list| - 1]), d)
  {
    var init, last := list[..|list| - 1], list[|list| - 1];
    MentionsStep(n.rows, list, d);
    ResolveIsBelonging(n.rows, last, d);
    if Belongs(n.rows, last, d) {
      BeforeAsSaid(n, init, st, d);
      CandidateAsSaid(n, list, d, Before(n, st, d));
    } else {
      OthersSayNothing(n, list, d);
    }
  }

  lemma {:induction false} StagedAsSaid(n: Mix, list: seq<SavedRow>, d: int)
    requires Inv(n) && d in n.rows
    ensures SaidSo(n, list, StageAll(n, list), d)
  {
    if list != [] {
      StagedAsSaid(n, list[..|list| - 1], d);
      StepAsSaid(n, list, StageAll(n, list[..|list| - 1]), d);
    }
  }

  // ---- and so does the restored mix --------------------------------------------------------------------

  ghost predicate Candidates(n: Mix, list: seq<SavedRow>, d: int)
  {
    d in n.rows && Mentions(n.rows, list, d) && Asks(n, list, d)
  }

  /** Who the file leaves soloed: of those it mentions and leaves asking for solo, the one whose last row comes
      last; if none asks, the solo that was, unless mentioned; else nobody. */
  ghost predicate SoloByFile(n: Mix, list: seq<SavedRow>, solo: Seat)
  {
    if exists e :: Candidates(n, list, e) then
      solo.At? && Candidates(n, list, solo.value)
      && forall e :: Candidates(n, list, e) ==> LastRow(n, list, e) <= LastRow(n, list, solo.value)
    else
      match solo
      case At(c) => Soloed(n.rows, c) && !Mentions(n.rows, list, c)
      case Nobody => forall c :: Soloed(n.rows, c) ==> Mentions(n.rows, list, c)
  }

  lemma StagedSoloAsks(n: Mix, list: seq<SavedRow>, e: int)
    requires Inv(n)
    ensures Soloed(StageAll(n, list).rows, e) <==> Candidates(n, list, e)
  {
    StageAllWell(n, list);
    if e in n.rows {
      StagedAsSaid(n, list, e);
    }
  }

  lemma SoloFollowsFile(n: Mix, list: seq<SavedRow>)
    requires Inv(n)
    ensures SoloByFile(n, list, ActiveSolo(Restored(n, Participants(list)).rows))
  {
    SoloAfterRestore(n, list);
    forall e ensures Soloed(StageAll(n, list).rows, e) <==> Candidates(n, list, e) {
      StagedSoloAsks(n, list, e);
    }
    forall c | c in n.rows ensures c in StageAll(n, list).rows <==> Mentions(n.rows, list, c) {
      StagedAsSaid(n, list, c);
    }
  }

  /** What a file of these rows makes of d: the last fader and pan said, at the nearest level allowed, else what
      was; the last word on its mute outside solo; and for the soloed one its own mute, everyone else muted. */
  ghost predicate Decided(n: Mix, list: seq<SavedRow>, after: Mix, d: int)
    requires d in n.rows && d in after.rows
  {
    var row, solo := after.rows[d], ActiveSolo(after.rows);
    && row.owner == n.rows[d].owner && row.name == n.rows[d].name
    && Nearest(0, 127, Or(LastWord(n.rows, list, d, OnFader), n.rows[d].fader), row.fader)
    && Nearest(0, 100, Or(LastWord(n.rows, list, d, OnPan), n.rows[d].pan), row.pan)
    && Personal(after, d) == Or(LastWord(n.rows, list, d, OnMute), Personal(n, d))
    && row.solo == (solo == At(d))
    && row.muted == if solo.Nobody? then Personal(after, d)
                    else if solo == At(d) then MuteWhenSoloed(n, list, d) else true
  }

  lemma RestoredSeat(n: Mix, list: seq<SavedRow>, d: int)
    requires Inv(n) && d in n.rows
    ensures var after, st := Restored(n, Participants(list)), StageAll(n, list);
      && d in after.rows
      && after.rows[d].fader == Before(n, st, d).fader && after.rows[d].pan == Before(n, st, d).pan
      && (after.rows[d].solo ==> after.rows[d].muted == Before(n, st, d).muted)
  {
    StageAllWell(n, list);
  }

  lemma RestoredMute(n: Mix, list: seq<SavedRow>, d: int)
    requires Inv(n) && d in n.rows
    ensures var after := Restored(n, Participants(list)); var solo := ActiveSolo(after.rows);
      && d in after.rows && after.rows[d].solo == (solo == At(d))
      && (solo.Nobody? ==> after.rows[d].muted == Personal(after, d))
      && (solo.At? && solo != At(d) ==> after.rows[d].muted)
  {
    RestoreKeepsInv(n, Participants(list));
    RestoreMovesNobody(n, Participants(list));
    var after := Restored(n, Participants(list));
    assert after.rows[d].solo ==> Soloed(after.rows, d);
  }

  lemma RestoredAsSaid(n: Mix, list: seq<SavedRow>, d: int)
    requires Inv(n) && d in n.rows
    ensures var after := Restored(n, Participants(list));
      && d in after.rows
      && after.rows[d].fader == Clamp(0, 127, Or(LastWord(n.rows, list, d, OnFader), n.rows[d].fader))
      && after.rows[d].pan == Clamp(0, 100, Or(LastWord(n.rows, list, d, OnPan), n.rows[d].pan))
      && (after.rows[d].solo ==> after.rows[d].muted == MuteWhenSoloed(n, list, d))
      && Personal(after, d) == Or(LastWord(n.rows, list, d, OnMute), Personal(n, d))
  {
    StagedAsSaid(n, list, d);
    BeforeAsSaid(n, list, StageAll(n, list), d);
    RestoredSeat(n, list, d);
    RestoredPersonal(n, list, d);
  }

  /** Every field of every row after a restore. */
  lemma FileDecides(n: Mix, list: seq<SavedRow>, d: int)
    requires Inv(n) && d in n.rows
    ensures d in Restored(n, Participants(list)).rows && Decided(n, list, Restored(n, Participants(list)), d)
    ensures SoloByFile(n, list, ActiveSolo(Restored(n, Participants(list)).rows))
  {
    var after := Restored(n, Participants(list));
    SoloFollowsFile(n, list);
    RestoreMovesNobody(n, Participants(list));
    RestoredAsSaid(n, list, d);
    RestoredMute(n, list, d);
    ClampIsNearest(0, 127, Or(LastWord(n.rows, list, d, OnFader), n.rows[d].fader), after.rows[d].fader);
    ClampIsNearest(0, 100, Or(LastWord(n.rows, list, d, OnPan), n.rows[d].pan), after.rows[d].pan);
  }

  /** The count reported is the number of people mentioned. */
  lemma CountsTheMentioned(n: Mix, list: seq<SavedRow>)
    requires Inv(n)
    ensures RestoredCount(n, Participants(list)) == Some(|set d | d in n.rows && Mentions(n.rows, list, d)|)
  {
    var st := StageAll(n, list);
    StageAllWell(n, list);
    var mentioned := set d | d in n.rows && Mentions(n.rows, list, d);
    forall d | d in n.rows ensures d in st.order <==> d in mentioned {
      StagedAsSaid(n, list, d);
    }
    DistinctCount(st.order, mentioned);
  }

  /** A row naming nobody here, whatever channel it gives, or naming two people of the same name and the channel
      of neither, is nobody's. */
  lemma StrangerIsNobody(rows: map<int, Row>, saved: SavedRow, d: int)
    requires saved.SavedRow? && saved.folded != ""
    requires (forall e :: e in rows ==> !Called(rows, e, saved.folded))
      || (exists e, f :: e != f && e in rows && f in rows && Called(rows, e, saved.folded)
            && Called(rows, f, saved.folded)
            && (forall c :: saved.channel == At(c) ==> !Called(rows, c, saved.folded)))
    ensures !Belongs(rows, saved, d)
  {
  }

  /** Someone whose name no row gives and whose channel no nameless row gives is left alone and not counted. */
  lemma UnnamedIsLeftAlone(n: Mix, list: seq<SavedRow>, d: int)
    requires Inv(n) && d in n.rows
    requires forall i :: 0 <= i < |list| && list[i].SavedRow? ==>
      list[i].folded != n.rows[d].name.folded && !(list[i].folded == "" && list[i].channel == At(d))
    ensures !Mentions(n.rows, list, d)
    ensures var after := Restored(n, Participants(list));
      && d in after.rows && after.rows[d].fader == n.rows[d].fader && after.rows[d].pan == n.rows[d].pan
      && Personal(after, d) == Personal(n, d)
  {
    forall i | 0 <= i < |list| ensures !Belongs(n.rows, list[i], d) {
    }
    FileDecides(n, list, d);
    Unmentioned(n, list, d);
    ClampIsNearest(0, 127, n.rows[d].fader, Restored(n, Participants(list)).rows[d].fader);
    ClampIsNearest(0, 100, n.rows[d].pan, Restored(n, Participants(list)).rows[d].pan);
  }

  /** A file none of whose rows is anybody's changes nothing, and says so. */
  lemma StrangersChangeNothing(n: Mix, list: seq<SavedRow>)
    requires Inv(n) && forall d :: d in n.rows ==> !Mentions(n.rows, list, d)
    ensures Restored(n, Participants(list)) == n && RestoredCount(n, Participants(list)) == Some(0)
  {
    var st := StageAll(n, list);
    StageAllWell(n, list);
    if st.order != [] {
      var c := st.order[0];
      assert c in st.order && c in st.rows;
      StagedAsSaid(n, list, c);
    }
  }

  // ---- what is re-applied --------------------------------------------------------------------------------

  /** The seats an operation has reason to send a gain for: the one a fader, a mute or a held-back newcomer is
      about; everyone when a solo is pressed or ends; whoever joins under a solo or takes somebody's seat; whom a
      file mentions or changes. */
  ghost predicate HasReason(m: Mix, op: Op, c: int)
    requires c in Step(m, op).rows
  {
    var after := Step(m, op);
    match op
    case Add(seat, _) => c == seat && after.rows[c].muted
    case Remove(seat) => Soloed(m.rows, seat)
    case Fader(seat, _) => c == seat
    case Mute(seat, _) => c == seat
    case Solo(_, _) => true
    case Merge(_, _) =>
      || (after.rows[c].owner.joined == m.clock && (HasSolo(after.rows) || c in m.rows))
      || (HasSolo(m.rows) && !HasSolo(after.rows))
    case Restore(Participants(list)) =>
      c in m.rows
      && (Mentions(m.rows, list, c) || after.rows[c].muted != m.rows[c].muted || after.rows[c].solo != m.rows[c].solo)
    case _ => false
  }

  /** No operation sends a gain for a seat that is empty afterwards or that it has no reason to. */
  lemma ReappliesNothingElse(m: Mix, op: Op, c: int)
    requires Inv(m) && c in Reapplied(m, op)
    ensures c in Step(m, op).rows && HasReason(m, op, c)
  {
    match op
    case Merge(incoming, sweep) =>
      MergedKeys(m, incoming, sweep);
      KeptStay(m, incoming);
      MergedSolo(m, incoming, sweep);
      if LosesSolo(m.rows, incoming) {
        var s :| s in Leaving(m.rows, incoming) && Soloed(m.rows, s);
        assert forall d :: !Soloed(Step(m, op).rows, d);
      }
    case Restore(Participants(list)) =>
      StageAllWell(m, list);
      StagedAsSaid(m, list, c);
    case _ =>
  }

  // ---- what is left of a snapshot ------------------------------------------------------------------------

  /** Whether the operation puts an unused snapshot away: leaving a solo, removing somebody, a roster by UDP, a file
      that mentions somebody. */
  ghost predicate Tidies(m: Mix, op: Op)
  {
    match op
    case Remove(seat) => seat in m.rows
    case Solo(seat, solo) => seat in m.rows && !solo
    case Merge(incoming, sweep) => sweep || exists c :: Soloed(m.rows, c) && !Stays(Alpha(m), incoming, c)
    case Restore(Participants(list)) => exists d :: d in m.rows && Mentions(m.rows, list, d)
    case _ => false
  }

  /** With nobody soloed after it, an operation leaves the snapshot empty if it is one of these; otherwise as it
      was, but for those a roster no longer lists or lists anew. */
  lemma LeftoverSnapshot(m: Mix, op: Op)
    requires Inv(m) && !HasSolo(Step(m, op).rows)
    ensures Step(m, op).snapshot ==
      if Tidies(m, op) then map[]
      else if op.Merge? then m.snapshot - (set c | c in m.snapshot && c in m.rows && !Stays(Alpha(m), op.incoming, c))
      else m.snapshot
  {
    match op
    case Merge(incoming, sweep) => LeftoverOfMerge(m, incoming, sweep);
    case Restore(Participants(list)) => LeftoverOfFile(m, list);
    case Solo(seat, solo) =>
      if solo && seat in m.rows {
        assert Soloed(Step(m, op).rows, seat);
      }
    case Add(seat, name) =>
      if HasSolo(m.rows) && ActiveSolo(m.rows) != At(seat) {
        assert Soloed(Step(m, op).rows, ActiveSolo(m.rows).value);
      }
    case Mute(seat, muted) =>
      if HasSolo(m.rows) {
        assert Soloed(Step(m, op).rows, ActiveSolo(m.rows).value);
      }
    case _ =>
  }

  lemma LeftoverOfMerge(m: Mix, incoming: map<int, Name>, sweep: bool)
    requires Inv(m) && !HasSolo(Merged(m, incoming, sweep).rows)
    ensures Merged(m, incoming, sweep).snapshot ==
      if Tidies(m, Merge(incoming, sweep)) then map[]
      else m.snapshot - (set c | c in m.snapshot && c in m.rows && !Stays(Alpha(m), incoming, c))
  {
    KeptStay(m, incoming);
    MergedSolo(m, incoming, sweep);
    forall c ensures c in Leaving(m.rows, incoming) <==> c in m.rows && !Stays(Alpha(m), incoming, c) {
    }
    if exists c :: Soloed(m.rows, c) && !Stays(Alpha(m), incoming, c) {
      var c :| Soloed(m.rows, c) && !Stays(Alpha(m), incoming, c);
      assert c in Leaving(m.rows, incoming);
    } else if !sweep {
      LeftoverOfStaying(m, incoming);
    }
  }

  lemma LeftoverOfStaying(m: Mix, incoming: map<int, Name>)
    requires forall c :: c in Leaving(m.rows, incoming) <==> c in m.rows && !Stays(Alpha(m), incoming, c)
    ensures m.snapshot - Leaving(m.rows, incoming)
         == m.snapshot - (set c | c in m.snapshot && c in m.rows && !Stays(Alpha(m), incoming, c))
  {
    var gone := set c | c in m.snapshot && c in m.rows && !Stays(Alpha(m), incoming, c);
    MapsAgree(m.snapshot - Leaving(m.rows, incoming), m.snapshot - gone);
  }

  lemma LeftoverOfFile(m: Mix, list: seq<SavedRow>)
    requires Inv(m) && !HasSolo(Restored(m, Participants(list)).rows)
    ensures Restored(m, Participants(list)).snapshot ==
      if exists d :: d in m.rows && Mentions(m.rows, list, d) then map[] else m.snapshot
  {
    var st, after := StageAll(m, list), Restored(m, Participants(list));
    StageAllWell(m, list);
    if d :| d in m.rows && Mentions(m.rows, list, d) {
      StagedAsSaid(m, list, d);
      assert d in st.order;
      LastSoloIsStaged(st.rows, st.order);
      var solo := RestoredSolo(m, st);
      if solo.At? {
        assert Soloed(after.rows, solo.value);
      }
    } else {
      StrangersChangeNothing(m, list);
    }
  }
}
