/** Saved mixes: what serialize_mix writes, apply_mix_data reproduces. */
module MixRestore {
  import opened Common
  import opened MixModel
  import opened MixAbstract

  ghost function SavedOf(m: Mix, c: int): SavedRow
    requires c in m.rows
  {
    var row := m.rows[c];
    SavedRow(At(c), row.name.folded, Some(row.fader), Some(row.pan), Some(row.solo), Some(Some(row.muted)),
             if HasSolo(m.rows) then Some(Lookup(m.snapshot, c, row.muted)) else None)
  }

  /** The seats in some order, each once. */
  ghost predicate Lists(order: seq<int>, seats: set<int>)
  {
    && (forall i :: 0 <= i < |order| ==> order[i] in seats)
    && (forall c :: c in seats ==> c in order)
    && (forall i, j :: 0 <= i < j < |order| ==> order[i] != order[j])
  }

  /** The participants list of serialize_mix, rows in the roster's iteration order. */
  ghost function Saved(m: Mix, order: seq<int>): (list: seq<SavedRow>)
    requires forall i :: 0 <= i < |order| ==> order[i] in m.rows
    ensures |list| == |order| && forall i :: 0 <= i < |order| ==> list[i] == SavedOf(m, order[i])
  {
    if order == [] then [] else Saved(m, order[..|order| - 1]) + [SavedOf(m, order[|order| - 1])]
  }

  predicate Called(rows: map<int, Row>, d: int, folded: string)
  {
    d in rows && rows[d].name.folded == folded
  }

  /** A row is d's if it names d's channel and d's name, or d's channel and no name, or d's name which nobody
      else has. */
  predicate Belongs(rows: map<int, Row>, saved: SavedRow, d: int)
  {
    && saved.SavedRow? && d in rows
    && (|| (saved.channel == At(d) && saved.folded == "")
        || (saved.channel == At(d) && Called(rows, d, saved.folded))
        || (saved.folded != "" && Called(rows, d, saved.folded)
            && forall e :: e in rows && Called(rows, e, saved.folded) ==> e == d))
  }

  lemma NamedAlone(rows: map<int, Row>, folded: string, d: int)
    ensures Named(rows, folded) == {d}
      <==> d in rows && Called(rows, d, folded) && forall e :: e in rows && Called(rows, e, folded) ==> e == d
  {
    var found := Named(rows, folded);
    assert forall e: int :: e in found <==> e in rows && Called(rows, e, folded);
    if found == {d} {
      assert d in found;
      forall e | e in rows && Called(rows, e, folded) ensures e == d {
        assert e in found;
      }
    }
    if d in rows && Called(rows, d, folded) && forall e :: e in rows && Called(rows, e, folded) ==> e == d {
      Subset(found, {d});
      Subset({d}, found);
    }
  }

  lemma ResolveIsBelonging(rows: map<int, Row>, saved: SavedRow, d: int)
    ensures Resolve(rows, saved) == At(d) <==> Belongs(rows, saved, d)
  {
    if saved.SavedRow? {
      NamedAlone(rows, saved.folded, d);
      if c :| Named(rows, saved.folded) == {c} {
        NamedAlone(rows, saved.folded, c);
      }
    }
  }

  /** The people of m sit in n, person c of m in seat[c]: either nobody moved, or everyone has a name of
      their own to be found by. Nothing is said about n's levels, mutes or solo. */
  ghost predicate SamePeople(m: Mix, n: Mix, seat: map<int, int>)
  {
    && seat.Keys == m.rows.Keys
    && (forall c :: c in seat ==> seat[c] in n.rows && n.rows[seat[c]].name.folded == m.rows[c].name.folded)
    && (forall c, d :: c in seat && d in seat && seat[c] == seat[d] ==> c == d)
    && (forall d :: d in n.rows ==> exists c :: c in seat && seat[c] == d)
    && ((forall c :: c in seat ==> seat[c] == c)
        || ((forall d :: d in n.rows ==> n.rows[d].name.folded != "")
            && (forall d, e ::
                  d in n.rows && e in n.rows && n.rows[d].name.folded == n.rows[e].name.folded ==> d == e)))
  }

  lemma SavedRowFindsItsPerson(m: Mix, n: Mix, seat: map<int, int>, c: int)
    requires SamePeople(m, n, seat) && c in m.rows
    ensures Resolve(n.rows, SavedOf(m, c)) == At(seat[c])
  {
    if !(forall c :: c in seat ==> seat[c] == c) {
      var found := Named(n.rows, m.rows[c].name.folded);
      assert seat[c] in found;
      forall d | d in found ensures d == seat[c] {
        assert n.rows[d].name.folded == n.rows[seat[c]].name.folded;
      }
      assert found == {seat[c]};
    }
  }

  lemma {:induction false} WithoutAbsent(order: seq<int>, c: int)
    requires c !in order
    ensures Without(order, c) == order
  {
    if order != [] {
      assert order == order[..|order| - 1] + [order[|order| - 1]];
      WithoutAbsent(order[..|order| - 1], c);
    }
  }

  /** Row d of the staging carries exactly what was saved for person c. */
  ghost predicate Carries(m: Mix, n: Mix, st: Staging, c: int, d: int)
    requires c in m.rows && d in n.rows
  {
    && d in st.rows && d in st.personal
    && st.rows[d] == n.rows[d].(fader := m.rows[c].fader, pan := m.rows[c].pan,
                                solo := m.rows[c].solo, muted := m.rows[c].muted)
    && st.personal[d] == Personal(m, c)
  }

  lemma StagesOne(m: Mix, n: Mix, st: Staging, seat: map<int, int>, c: int)
    requires Inv(m) && SamePeople(m, n, seat) && c in m.rows && st.personal.Keys == n.rows.Keys
    requires seat[c] !in st.order && seat[c] !in st.rows
    ensures var after := Stage(n.rows, st, SavedOf(m, c));
      && after.order == st.order + [seat[c]] && after.rows.Keys == st.rows.Keys + {seat[c]}
      && Carries(m, n, after, c, seat[c])
      && (forall d :: d in n.rows && d != seat[c] ==>
            (d in after.rows <==> d in st.rows) && (d in st.rows ==> after.rows[d] == st.rows[d])
            && after.personal[d] == st.personal[d])
  {
    SavedRowFindsItsPerson(m, n, seat, c);
    WithoutAbsent(st.order, seat[c]);
  }

  function SeatsOf(order: seq<int>, seat: map<int, int>): (seats: seq<int>)
    requires forall i :: 0 <= i < |order| ==> order[i] in seat
    ensures |seats| == |order| && forall i :: 0 <= i < |order| ==> seats[i] == seat[order[i]]
  {
    if order == [] then [] else SeatsOf(order[..|order| - 1], seat) + [seat[order[|order| - 1]]]
  }

  /** Everyone listed is staged, in that order and as saved. */
  ghost predicate CarriesAll(m: Mix, n: Mix, st: Staging, order: seq<int>, seat: map<int, int>)
    requires SamePeople(m, n, seat) && forall i :: 0 <= i < |order| ==> order[i] in m.rows
  {
    && st.order == SeatsOf(order, seat)
    && forall i :: 0 <= i < |order| ==> Carries(m, n, st, order[i], seat[order[i]])
  }

  /** All but one of them staged, the last person is staged too and the others keep what they carry. */
  lemma StagesLast(m: Mix, n: Mix, order: seq<int>, seat: map<int, int>, st: Staging)
    requires Inv(m) && SamePeople(m, n, seat) && order != []
    requires st.personal.Keys == n.rows.Keys && forall d :: d in st.rows ==> d in st.order
    requires forall i :: 0 <= i < |order| ==> order[i] in m.rows
    requires forall i, j :: 0 <= i < j < |order| ==> order[i] != order[j]
    requires CarriesAll(m, n, st, order[..|order| - 1], seat)
    ensures CarriesAll(m, n, Stage(n.rows, st, SavedOf(m, order[|order| - 1])), order, seat)
  {
    var k := |order| - 1;
    var init, c := order[..k], order[k];
    forall i | 0 <= i < |st.order| ensures st.order[i] != seat[c] {
      assert st.order[i] == seat[init[i]] && init[i] == order[i] != c;
    }
    assert seat[c] !in st.rows;
    StagesOne(m, n, st, seat, c);
    var after := Stage(n.rows, st, SavedOf(m, c));
    forall i | 0 <= i < k ensures Carries(m, n, after, order[i], seat[order[i]]) {
      assert Carries(m, n, st, init[i], seat[init[i]]) && seat[init[i]] == st.order[i] != seat[c];
    }
  }

  lemma StagesOneMore(m: Mix, n: Mix, order: seq<int>)
    requires order != [] && forall i :: 0 <= i < |order| ==> order[i] in m.rows
    ensures var init, c := order[..|order| - 1], order[|order| - 1];
      StageAll(n, Saved(m, order)) == Stage(n.rows, StageAll(n, Saved(m, init)), SavedOf(m, c))
  {
    assert Saved(m, order)[..|order| - 1] == Saved(m, order[..|order| - 1]);
  }

  lemma {:induction false} StagesEveryone(m: Mix, n: Mix, order: seq<int>, seat: map<int, int>)
    requires Inv(m) && SamePeople(m, n, seat)
    requires forall i :: 0 <= i < |order| ==> order[i] in m.rows
    requires forall i, j :: 0 <= i < j < |order| ==> order[i] != order[j]
    ensures CarriesAll(m, n, StageAll(n, Saved(m, order)), order, seat)
  {
    if order != [] {
      var init := order[..|order| - 1];
      StagesEveryone(m, n, init, seat);
      StageAllWell(n, Saved(m, init));
      StagesLast(m, n, order, seat, StageAll(n, Saved(m, init)));
      StagesOneMore(m, n, order);
    }
  }

  lemma {:induction false} LastSoloIsTheOne(staged: map<int, Row>, order: seq<int>, c: int)
    requires c in order && forall d :: Soloed(staged, d) <==> d == c
    ensures LastSolo(staged, order) == At(c)
  {
    if order[|order| - 1] != c { LastSoloIsTheOne(staged, order[..|order| - 1], c); }
  }

  /** The mix as one person of it has it: levels, solo, what is heard and the mute outside solo. */
  ghost predicate SameMixFor(m: Mix, c: int, n: Mix, d: int)
    requires c in m.rows && d in n.rows
  {
    && n.rows[d].fader == m.rows[c].fader && n.rows[d].pan == m.rows[c].pan
    && n.rows[d].solo == m.rows[c].solo && n.rows[d].muted == m.rows[c].muted
    && Personal(n, d) == Personal(m, c)
    && (HasSolo(m.rows) ==> d in n.snapshot && c in m.snapshot && n.snapshot[d] == m.snapshot[c])
  }

  lemma SoloFollows(m: Mix, n: Mix, st: Staging, seat: map<int, int>)
    requires Inv(m) && SamePeople(m, n, seat) && StagedWell(n.rows, st)
    requires forall c :: c in m.rows ==> Carries(m, n, st, c, seat[c])
    ensures RestoredSolo(n, st) == if HasSolo(m.rows) then At(seat[ActiveSolo(m.rows).value]) else Nobody
  {
    LastSoloIsStaged(st.rows, st.order);
    forall d | Soloed(st.rows, d) ensures HasSolo(m.rows) && d == seat[ActiveSolo(m.rows).value] {
      var c :| c in seat && seat[c] == d;
      assert Carries(m, n, st, c, d) && Soloed(m.rows, c);
    }
    if HasSolo(m.rows) {
      var s := ActiveSolo(m.rows).value;
      assert Carries(m, n, st, s, seat[s]);
      LastSoloIsTheOne(st.rows, st.order, seat[s]);
    } else if ActiveSolo(n.rows).At? {
      var c :| c in seat && seat[c] == ActiveSolo(n.rows).value;
      assert Carries(m, n, st, c, seat[c]);
    }
  }

  lemma RestoredFor(m: Mix, n: Mix, list: seq<SavedRow>, seat: map<int, int>, c: int)
    requires Inv(m) && Inv(n) && SamePeople(m, n, seat) && c in m.rows
    requires forall e :: e in m.rows ==> Carries(m, n, StageAll(n, list), e, seat[e])
    ensures SameMixFor(m, c, Restored(n, Participants(list)), seat[c])
  {
    var st, d, after := StageAll(n, list), seat[c], Restored(n, Participants(list));
    StageAllWell(n, list);
    SoloFollows(m, n, st, seat);
    RestoredPersonal(n, list, d);
    assert Carries(m, n, st, c, d);
    assert st.order != [] by { assert d in st.order; }
    assert m.rows[c].solo ==> Soloed(m.rows, c);
  }

  lemma EveryoneIsMatched(m: Mix, n: Mix, list: seq<SavedRow>, seat: map<int, int>)
    requires SamePeople(m, n, seat)
    requires forall e :: e in m.rows ==> Carries(m, n, StageAll(n, list), e, seat[e])
    ensures RestoredCount(n, Participants(list)) == Some(|n.rows|)
  {
    var st := StageAll(n, list);
    StageAllWell(n, list);
    EveryoneIsStaged(m, n, st, seat);
    DistinctCount(st.order, n.rows.Keys);
  }

  lemma EveryoneIsStaged(m: Mix, n: Mix, st: Staging, seat: map<int, int>)
    requires SamePeople(m, n, seat) && StagedWell(n.rows, st)
    requires forall e :: e in m.rows ==> Carries(m, n, st, e, seat[e])
    ensures forall d :: d in n.rows ==> d in st.order
  {
    forall d | d in n.rows ensures d in st.order {
      var c :| c in seat && seat[c] == d;
      assert Carries(m, n, st, c, d);
    }
  }

  lemma EveryoneIsCarried(m: Mix, n: Mix, order: seq<int>, seat: map<int, int>)
    requires Inv(m) && Lists(order, m.rows.Keys) && SamePeople(m, n, seat)
    ensures forall e :: e in m.rows ==> Carries(m, n, StageAll(n, Saved(m, order)), e, seat[e])
  {
    assert forall i :: 0 <= i < |order| ==> order[i] in order;
    StagesEveryone(m, n, order, seat);
    forall e | e in m.rows ensures Carries(m, n, StageAll(n, Saved(m, order)), e, seat[e]) {
      var i :| 0 <= i < |order| && order[i] == e;
      assert Carries(m, n, StageAll(n, Saved(m, order)), order[i], seat[order[i]]);
    }
  }

  /** A restore, whatever the payload, seats nobody and renames nobody. */
  lemma RestoreMovesNobody(n: Mix, payload: Payload)
    ensures Restored(n, payload).rows.Keys == n.rows.Keys
    ensures forall d :: d in n.rows ==>
      Restored(n, payload).rows[d].owner == n.rows[d].owner && Restored(n, payload).rows[d].name == n.rows[d].name
  {
  }

  ghost predicate Reproduces(m: Mix, after: Mix, seat: map<int, int>)
  {
    forall c :: c in m.rows ==> c in seat && seat[c] in after.rows && SameMixFor(m, c, after, seat[c])
  }

  /** Saving any safe mix and restoring it over any mix of the same people reproduces it for each of
      them and reports the whole roster as matched. */
  lemma RoundTrip(m: Mix, n: Mix, order: seq<int>, seat: map<int, int>)
    requires Inv(m) && Inv(n) && Lists(order, m.rows.Keys) && SamePeople(m, n, seat)
    ensures Reproduces(m, Restored(n, Participants(Saved(m, order))), seat)
    ensures RestoredCount(n, Participants(Saved(m, order))) == Some(|n.rows|)
  {
    var list := Saved(m, order);
    EveryoneIsCarried(m, n, order, seat);
    EveryoneIsMatched(m, n, list, seat);
    var after := Restored(n, Participants(list));
    forall c | c in m.rows ensures c in seat && seat[c] in after.rows && SameMixFor(m, c, after, seat[c]) {
      RestoredFor(m, n, list, seat, c);
    }
  }

  lemma {:induction false} DistinctCount(order: seq<int>, seats: set<int>)
    requires Lists(order, seats)
    ensures |order| == |seats|
  {
    if order == [] {
      assert forall c :: c in seats ==> c in order;
      assert seats == {};
    } else {
      var k := |order| - 1;
      assert order == order[..k] + [order[k]];
      assert order[k] in order && order[k] in seats;
      assert Lists(order[..k], seats - {order[k]});
      DistinctCount(order[..k], seats - {order[k]});
    }
  }

  /** Whatever the file says, whoever no row of it matches keeps fader, pan and personal mute; and
      nobody's seat, identity or name is touched. */
  lemma UnmatchedUntouched(n: Mix, list: seq<SavedRow>, d: int)
    requires Inv(n) && d in n.rows && forall i :: 0 <= i < |list| ==> !Belongs(n.rows, list[i], d)
    ensures var after := Restored(n, Participants(list));
      && d in after.rows && after.rows[d].owner == n.rows[d].owner && after.rows[d].name == n.rows[d].name
      && after.rows[d].fader == n.rows[d].fader && after.rows[d].pan == n.rows[d].pan
      && Personal(after, d) == Personal(n, d)
  {
    NeverStaged(n, list, d);
    UnmatchedKeepPersonal(n, list, d);
    RestoredPersonal(n, list, d);
  }

  lemma {:induction false} NeverStaged(n: Mix, list: seq<SavedRow>, d: int)
    requires forall i :: 0 <= i < |list| ==> !Belongs(n.rows, list[i], d)
    ensures d !in StageAll(n, list).rows
  {
    if list != [] {
      ResolveIsBelonging(n.rows, list[|list| - 1], d);
      NeverStaged(n, list[..|list| - 1], d);
    }
  }

  // ---- who a file leaves soloed ---------------------------------------------------------------

  /** The number of the last saved row that belongs to seat c, counting from 1; 0 if none does. */
  ghost function LastRow(n: Mix, list: seq<SavedRow>, c: int): (k: nat)
    ensures k <= |list|
  {
    if list == [] then 0
    else if Belongs(n.rows, list[|list| - 1], c) then |list|
    else LastRow(n, list[..|list| - 1], c)
  }

  ghost predicate ByLastRow(n: Mix, list: seq<SavedRow>, order: seq<int>)
  {
    forall p, q :: 0 <= p < q < |order| ==> LastRow(n, list, order[p]) < LastRow(n, list, order[q])
  }

  lemma {:induction false} WithoutKeepsOrder(n: Mix, list: seq<SavedRow>, order: seq<int>, c: int)
    requires ByLastRow(n, list, order)
    ensures ByLastRow(n, list, Without(order, c))
    ensures forall i :: 0 <= i < |Without(order, c)| ==> Without(order, c)[i] != c
    ensures forall i :: 0 <= i < |Without(order, c)| ==>
      exists k :: 0 <= k < |order| && order[k] == Without(order, c)[i]
  {
    if order != [] {
      var init, last := order[..|order| - 1], order[|order| - 1];
      assert forall k :: 0 <= k < |init| ==> init[k] == order[k];
      WithoutKeepsOrder(n, list, init, c);
      var w := Without(init, c);
      forall i | 0 <= i < |w| ensures LastRow(n, list, w[i]) < LastRow(n, list, last) {
        var k :| 0 <= k < |init| && init[k] == w[i];
        assert order[k] == w[i];
      }
      forall i | 0 <= i < |Without(order, c)| ensures exists k :: 0 <= k < |order| && order[k] == Without(order, c)[i] {
        if i < |w| {
          var k :| 0 <= k < |init| && init[k] == w[i];
          assert order[k] == Without(order, c)[i];
        } else {
          assert order[|order| - 1] == Without(order, c)[i];
        }
      }
    }
  }

  /** Seats are staged in the order of their last rows. */
  lemma {:induction false} StagedByLastRow(n: Mix, list: seq<SavedRow>)
    ensures ByLastRow(n, list, StageAll(n, list).order)
  {
    if list != [] {
      var init, before := list[..|list| - 1], StageAll(n, list[..|list| - 1]).order;
      StagedByLastRow(n, init);
      forall c ensures Resolve(n.rows, list[|list| - 1]) == At(c) <==> Belongs(n.rows, list[|list| - 1], c) {
        ResolveIsBelonging(n.rows, list[|list| - 1], c);
      }
      match Resolve(n.rows, list[|list| - 1])
      case Nobody =>
        assert forall c :: LastRow(n, list, c) == LastRow(n, init, c);
      case At(c) =>
        WithoutKeepsOrder(n, init, before, c);
        assert forall e :: e != c ==> LastRow(n, list, e) == LastRow(n, init, e);
        var w := Without(before, c);
        assert forall i :: 0 <= i < |w| ==> LastRow(n, list, w[i]) < LastRow(n, list, c);
    }
  }

  lemma {:induction false} LastSoloIsLatest(n: Mix, list: seq<SavedRow>, staged: map<int, Row>, order: seq<int>)
    requires ByLastRow(n, list, order)
    ensures match LastSolo(staged, order)
      case Nobody => forall i :: 0 <= i < |order| ==> !Soloed(staged, order[i])
      case At(c) =>
        forall i :: 0 <= i < |order| && Soloed(staged, order[i]) ==>
          LastRow(n, list, order[i]) <= LastRow(n, list, c)
  {
    if order != [] && !Soloed(staged, order[|order| - 1]) {
      LastSoloIsLatest(n, list, staged, order[..|order| - 1]);
    }
  }

  /** Who is soloed after a restore: among the seats the file leaves asking for solo, the one whose last row
      comes last, however its rows and everyone else's are repeated; if none asks, the solo that was, as long
      as the file does not mention it; otherwise nobody. */
  ghost predicate SoloAsFiled(n: Mix, list: seq<SavedRow>, solo: Seat)
  {
    var staged, current := StageAll(n, list).rows, ActiveSolo(n.rows);
    if exists e :: Soloed(staged, e) then
      solo.At? && Soloed(staged, solo.value)
      && forall e :: Soloed(staged, e) ==> LastRow(n, list, e) <= LastRow(n, list, solo.value)
    else solo == if current.At? && current.value !in staged then current else Nobody
  }

  lemma RestoredSoloIsFiled(n: Mix, list: seq<SavedRow>)
    ensures SoloAsFiled(n, list, RestoredSolo(n, StageAll(n, list)))
  {
    var st := StageAll(n, list);
    StageAllWell(n, list);
    StagedByLastRow(n, list);
    LastSoloIsStaged(st.rows, st.order);
    LastSoloIsLatest(n, list, st.rows, st.order);
    forall e | Soloed(st.rows, e) ensures exists i :: 0 <= i < |st.order| && st.order[i] == e {
      assert e in st.order;
    }
  }

  lemma SoloAfterRestore(n: Mix, list: seq<SavedRow>)
    requires Inv(n)
    ensures SoloAsFiled(n, list, ActiveSolo(Restored(n, Participants(list)).rows))
  {
    var st, after := StageAll(n, list), Restored(n, Participants(list));
    StageAllWell(n, list);
    LastSoloIsStaged(st.rows, st.order);
    RestoredSoloIsFiled(n, list);
    var solo := RestoredSolo(n, st);
    assert forall c :: Soloed(after.rows, c) <==> c in n.rows && solo == At(c);
    if solo.At? {
      assert Soloed(after.rows, solo.value);
    }
  }
}
