/** What every run of observations and confirmations makes the evidence mean. */
module BandCheckRuns {
  import opened Common
  import opened BandCheckModel

  /** Observe and Judge are the live session's own; Other is any update of a step other than the music path. */
  datatype Event = Observe(o: Observation) | Judge(heard: bool) | Other(key: Key, status: Status)

  predicate Proper(e: Event)
  {
    (e.Observe? ==> e.o.Valid()) && (e.Other? ==> e.key != MusicPath)
  }

  function Next(s: Session, e: Event): Session
  {
    match e
    case Observe(o) => Applied(s, o)
    case Judge(heard) => Confirmed(s, heard)
    case Other(key, status) => WithStep(s, key, status)
  }

  function Run(steps: seq<Step>, events: seq<Event>): Session
  {
    if events == [] then Session(steps, NO_EVIDENCE, false)
    else Next(Run(steps, events[..|events| - 1]), events[|events| - 1])
  }

  // ---- what the events themselves say ---------------------------------------------------------------

  /** The path named last, with its generation and quality. */
  datatype Route = Route(path: Option<TransportPath>, quality: Quality, generation: nat)

  function LastRoute(events: seq<Event>): Route
  {
    if events == [] then Route(None, UnknownQuality, 0)
    else
      var e := events[|events| - 1];
      if e.Observe? && e.o.generation > 0 then Route(e.o.path, e.o.quality, e.o.generation)
      else LastRoute(events[..|events| - 1])
  }

  predicate LastPeer(events: seq<Event>)
  {
    if events == [] then false
    else if events[|events| - 1].Observe? then events[|events| - 1].o.peerConnected
    else LastPeer(events[..|events| - 1])
  }

  /** e names a generation or path other than the one named last before it. */
  predicate Changes(before: seq<Event>, e: Event)
  {
    var last := LastRoute(before);
    e.Observe? && e.o.generation > 0 && last.generation > 0
    && (e.o.generation != last.generation || e.o.path != last.path)
  }

  predicate Confirms(before: seq<Event>, e: Event)
  {
    match e
    case Observe(o) => o.confirmed == Some(true)
    case Judge(heard) => heard && LastPeer(before)
    case Other(_, _) => false
  }

  /** Saying no, or saying yes when no bandmate is there to be heard. */
  predicate Denies(before: seq<Event>, e: Event)
  {
    match e
    case Observe(o) => o.confirmed == Some(false)
    case Judge(heard) => !heard || !LastPeer(before)
    case Other(_, _) => false
  }

  /** What one event means for the evidence, given the events before it. */
  datatype Mark = Mark(changed: bool, confirmed: bool, denied: bool, datagrams: bool, localSignal: bool,
                       remoteSignal: bool, decoded: bool)

  function MarkOf(before: seq<Event>, e: Event): Mark
  {
    Mark(Changes(before, e), Confirms(before, e), Denies(before, e), e.Observe? && e.o.datagrams,
         e.Observe? && e.o.localSignal, e.Observe? && e.o.remoteSignal, e.Observe? && e.o.decoded)
  }

  function Marks(events: seq<Event>): (r: seq<Mark>)
    ensures |r| == |events|
  {
    if events == [] then []
    else
      var before := events[..|events| - 1];
      Marks(before) + [MarkOf(before, events[|events| - 1])]
  }

  /** Some event says yes, and none after it says no. */
  predicate Holds(marks: seq<Mark>, yes: Mark -> bool, no: Mark -> bool)
  {
    exists k :: 0 <= k < |marks| && yes(marks[k]) && NoneFrom(marks, no, k + 1)
  }

  predicate NoneFrom(marks: seq<Mark>, no: Mark -> bool, from: nat)
  {
    forall j :: from <= j < |marks| ==> !no(marks[j])
  }

  lemma HoldsStep(marks: seq<Mark>, m: Mark, yes: Mark -> bool, no: Mark -> bool)
    ensures Holds(marks + [m], yes, no) <==> yes(m) || (Holds(marks, yes, no) && !no(m))
  {
    var more := marks + [m];
    if yes(m) {
      assert yes(more[|marks|]) && NoneFrom(more, no, |marks| + 1);
    }
    if Holds(marks, yes, no) && !no(m) {
      var k :| 0 <= k < |marks| && yes(marks[k]) && NoneFrom(marks, no, k + 1);
      assert yes(more[k]) && NoneFrom(more, no, k + 1);
    }
    if Holds(more, yes, no) && !yes(m) {
      var k :| 0 <= k < |more| && yes(more[k]) && NoneFrom(more, no, k + 1);
      assert no(more[|marks|]) ==> false;
      forall j | k + 1 <= j < |marks| ensures !no(marks[j]) {
        assert !no(more[j]);
      }
      assert yes(marks[k]) && NoneFrom(marks, no, k + 1);
    }
  }

  predicate Changed(m: Mark) { m.changed }

  predicate Affirmed(m: Mark) { m.confirmed }

  predicate Withdrawn(m: Mark) { m.changed || m.denied }

  predicate LeftUnconfirmed(m: Mark) { m.changed && !m.confirmed }

  predicate Datagrams(m: Mark) { m.datagrams }

  predicate LocalSignal(m: Mark) { m.localSignal }

  predicate RemoteSignal(m: Mark) { m.remoteSignal }

  predicate Decoded(m: Mark) { m.decoded }

  /** The evidence is what the run says of it: the confirmation stands exactly when it was given with or
      after the latest change of path and not withdrawn since, and agrees with the manual confirmations; a
      recheck is asked for exactly when a change has gone unconfirmed; every other path fact was seen since
      the latest change. */
  ghost predicate Faithful(s: Session, events: seq<Event>)
  {
    var e, marks := s.evidence, Marks(events);
    && Route(e.path, e.quality, e.generation) == LastRoute(events) && e.participant == LastPeer(events)
    && (e.path.Some? ==> e.generation > 0)
    && (e.confirmed <==> Holds(marks, Affirmed, Withdrawn))
    && (s.twoWay <==> e.confirmed)
    && (e.recheck <==> Holds(marks, LeftUnconfirmed, Affirmed))
    && (e.datagrams <==> Holds(marks, Datagrams, Changed))
    && (e.localSignal <==> Holds(marks, LocalSignal, Changed))
    && (e.remoteSignal <==> Holds(marks, RemoteSignal, Changed))
    && (e.decoded <==> Holds(marks, Decoded, Changed))
  }

  ghost predicate AllProper(events: seq<Event>)
  {
    forall i :: 0 <= i < |events| ==> Proper(events[i])
  }

  lemma HoldsSteps(marks: seq<Mark>, m: Mark)
    ensures Holds(marks + [m], Affirmed, Withdrawn)
      <==> Affirmed(m) || (Holds(marks, Affirmed, Withdrawn) && !Withdrawn(m))
    ensures Holds(marks + [m], LeftUnconfirmed, Affirmed)
      <==> LeftUnconfirmed(m) || (Holds(marks, LeftUnconfirmed, Affirmed) && !Affirmed(m))
    ensures Holds(marks + [m], Datagrams, Changed)
      <==> Datagrams(m) || (Holds(marks, Datagrams, Changed) && !Changed(m))
    ensures Holds(marks + [m], LocalSignal, Changed)
      <==> LocalSignal(m) || (Holds(marks, LocalSignal, Changed) && !Changed(m))
    ensures Holds(marks + [m], RemoteSignal, Changed)
      <==> RemoteSignal(m) || (Holds(marks, RemoteSignal, Changed) && !Changed(m))
    ensures Holds(marks + [m], Decoded, Changed)
      <==> Decoded(m) || (Holds(marks, Decoded, Changed) && !Changed(m))
  {
    HoldsStep(marks, m, Affirmed, Withdrawn);
    HoldsStep(marks, m, LeftUnconfirmed, Affirmed);
    HoldsStep(marks, m, Datagrams, Changed);
    HoldsStep(marks, m, LocalSignal, Changed);
    HoldsStep(marks, m, RemoteSignal, Changed);
    HoldsStep(marks, m, Decoded, Changed);
  }

  lemma ObserveIsFaithful(s: Session, before: seq<Event>, o: Observation)
    requires Faithful(s, before) && o.Valid()
    ensures Faithful(WithEvidence(s, o), before + [Observe(o)])
  {
    assert (before + [Observe(o)])[..|before|] == before;
    HoldsSteps(Marks(before), MarkOf(before, Observe(o)));
  }

  lemma JudgeIsFaithful(s: Session, before: seq<Event>, heard: bool)
    requires Faithful(s, before)
    ensures Faithful(Confirmed(s, heard), before + [Judge(heard)])
  {
    assert (before + [Judge(heard)])[..|before|] == before;
    HoldsSteps(Marks(before), MarkOf(before, Judge(heard)));
  }

  lemma OtherIsFaithful(s: Session, before: seq<Event>, e: Event)
    requires Faithful(s, before) && e.Other?
    ensures Faithful(Next(s, e), before + [e])
  {
    assert (before + [e])[..|before|] == before;
    HoldsSteps(Marks(before), MarkOf(before, e));
  }

  lemma NextIsFaithful(s: Session, before: seq<Event>, e: Event)
    requires Faithful(s, before) && Proper(e)
    ensures Faithful(Next(s, e), before + [e])
  {
    match e
    case Observe(o) =>
      ObserveIsFaithful(s, before, o);
      assert SameEvidence(WithEvidence(s, o), Applied(s, o));
    case Judge(heard) => JudgeIsFaithful(s, before, heard);
    case Other(_, _) => OtherIsFaithful(s, before, e);
  }

  lemma {:induction false} EveryRunIsFaithful(steps: seq<Step>, events: seq<Event>)
    requires AllProper(events)
    ensures Faithful(Run(steps, events), events)
  {
    if events != [] {
      var before, e := events[..|events| - 1], events[|events| - 1];
      EveryRunIsFaithful(steps, before);
      NextIsFaithful(Run(steps, before), before, e);
      assert before + [e] == events;
    }
  }

  // ---- confirmed in whose company? -----------------------------------------------------------------

  /** A confirmation that comes with an observation of no bandmate. */
  predicate Alone(e: Event)
  {
    e.Observe? && e.o.confirmed == Some(true) && !e.o.peerConnected
  }

  /** Event k confirmed, and nothing after it withdrew that. */
  predicate Standing(events: seq<Event>, k: nat)
    requires k < |events|
  {
    Confirms(events[..k], events[k]) && NoneFrom(Marks(events), Withdrawn, k + 1)
  }

  /** Some standing confirmation was given with a bandmate present. */
  ghost predicate Accompanied(events: seq<Event>)
  {
    exists k :: 0 <= k < |events| && Standing(events, k) && LastPeer(events[..k + 1])
  }

  lemma {:induction false} MarkAt(events: seq<Event>, k: nat)
    requires k < |events|
    ensures Marks(events)[k] == MarkOf(events[..k], events[k])
  {
    if k < |events| - 1 {
      MarkAt(events[..|events| - 1], k);
      assert events[..|events| - 1][..k] == events[..k];
    }
  }

  /** A confirmation was given in company exactly when it did not come with an observation of no bandmate. */
  lemma PresentUnlessAlone(events: seq<Event>, k: nat)
    requires k < |events| && Confirms(events[..k], events[k])
    ensures LastPeer(events[..k + 1]) <==> !Alone(events[k])
  {
    assert events[..k + 1][..k] == events[..k];
  }

  /** A confirmation stands although nobody was there to be heard exactly when some confirmation stands and
      every one that does came with an observation of no bandmate. */
  lemma HeardNobodyExactly(steps: seq<Step>, events: seq<Event>)
    requires AllProper(events)
    ensures Run(steps, events).evidence.confirmed && !Accompanied(events) <==>
      && (exists k :: 0 <= k < |events| && Standing(events, k))
      && (forall k :: 0 <= k < |events| && Standing(events, k) ==> Alone(events[k]))
  {
    EveryRunIsFaithful(steps, events);
    forall k | 0 <= k < |events|
      ensures Standing(events, k) <==> Affirmed(Marks(events)[k]) && NoneFrom(Marks(events), Withdrawn, k + 1)
      ensures Standing(events, k) ==> (LastPeer(events[..k + 1]) <==> !Alone(events[k]))
    {
      MarkAt(events, k);
      if Confirms(events[..k], events[k]) {
        PresentUnlessAlone(events, k);
      }
    }
  }

  /** It can happen: the first observation confirms and reports no bandmate. */
  lemma ConfirmedAlone(steps: seq<Step>, o: Observation)
    requires o.Valid() && o.confirmed == Some(true) && !o.peerConnected
    ensures Run(steps, [Observe(o)]).evidence.confirmed && !Accompanied([Observe(o)])
  {
    assert [Observe(o)][..0] == [];
    HeardNobodyExactly(steps, [Observe(o)]);
    assert Standing([Observe(o)], 0);
  }

  // ---- readiness ---------------------------------------------------------------------------------------

  function FirstOf(steps: seq<Step>, key: Key): Option<Step>
  {
    if steps == [] then None else if steps[0].key == key then Some(steps[0]) else FirstOf(steps[1..], key)
  }

  lemma {:induction false} FirstIsThere(steps: seq<Step>, key: Key)
    requires FirstOf(steps, key).Some?
    ensures exists i :: 0 <= i < |steps| && steps[i] == FirstOf(steps, key).value
  {
    if steps[0].key != key {
      FirstIsThere(steps[1..], key);
      var i :| 0 <= i < |steps[1..]| && steps[1..][i] == FirstOf(steps[1..], key).value;
      assert steps[i + 1] == FirstOf(steps, key).value;
    }
  }

  lemma {:induction false} FirstOfUpdated(steps: seq<Step>, key: Key, status: Status, other: Key)
    ensures var now, was := FirstOf(Updated(steps, key, status), other), FirstOf(steps, other);
      now == if was.Some? && key == other then Some(was.value.(status := status)) else was
  {
    if steps != [] {
      FirstOfUpdated(steps[1..], key, status, other);
    }
  }

  /** The music-path step is required, and passes only on evidence that passes. */
  predicate PathShown(s: Session)
  {
    var shown := FirstOf(s.steps, MusicPath);
    shown.Some? && shown.value.required
    && (shown.value.status.Pass? || shown.value.status.Warning? || shown.value.status.ActionNeeded?)
    && (shown.value.status.Pass? ==> PathStatus(s.evidence).Pass?)
  }

  lemma WithStepShows(s: Session, key: Key, status: Status)
    requires key != MusicPath
    ensures FirstOf(WithStep(s, key, status).steps, MusicPath) == FirstOf(s.steps, MusicPath)
  {
    FirstOfUpdated(s.steps, key, status, MusicPath);
  }

  lemma BeforePath(s: Session, o: Observation)
    ensures FirstOf(WithEngine(WithMeter(s, o)).steps, MusicPath) == FirstOf(s.steps, MusicPath)
  {
    if o.meter.Some? {
      FirstOfUpdated(s.steps, AudioInput, InputStatus(o.meter.value), MusicPath);
    }
    var s1 := WithMeter(s, o);
    WithStepShows(s1, MusicEngine, if s1.evidence.processStarted && s1.evidence.responsive then Pass else ActionNeeded);
  }

  lemma AfterPath(s: Session, o: Observation)
    ensures FirstOf(WithServices(s, o).steps, MusicPath) == FirstOf(s.steps, MusicPath)
  {
    var s1 := s;
    if o.bandServerRunning.Some? && HasStep(s.steps, BandServer) {
      WithStepShows(s, BandServer, if o.bandServerRunning.value then Pass else ActionNeeded);
      s1 := WithStep(s, BandServer, if o.bandServerRunning.value then Pass else ActionNeeded);
    }
    if o.recorderReady.Some? {
      WithStepShows(s1, RecordingPath, if o.recorderReady.value then Pass else Warning);
    }
  }

  /** After an observation the music-path step passes exactly on evidence that passes. */
  lemma AppliedShows(s: Session, o: Observation)
    requires PathShown(s)
    ensures PathShown(Applied(s, o))
    ensures FirstOf(Applied(s, o).steps, MusicPath).value.status == PathStatus(Applied(s, o).evidence)
  {
    var s1 := WithEvidence(s, o);
    BeforePath(s1, o);
    var s2 := WithEngine(WithMeter(s1, o));
    FirstOfUpdated(s2.steps, MusicPath, PathStatus(s2.evidence), MusicPath);
    ShownKey(s2.steps, MusicPath);
    AfterPath(WithPath(s2), o);
  }

  lemma {:induction false} ShownKey(steps: seq<Step>, key: Key)
    requires FirstOf(steps, key).Some?
    ensures HasStep(steps, key)
  {
    if steps[0].key != key {
      ShownKey(steps[1..], key);
      var i :| 0 <= i < |steps[1..]| && steps[1..][i].key == key;
      assert steps[i + 1].key == key;
    }
  }

  lemma NextShows(s: Session, e: Event)
    requires PathShown(s) && Proper(e)
    ensures PathShown(Next(s, e))
  {
    match e
    case Observe(o) => AppliedShows(s, o);
    case Judge(heard) =>
      var ok := heard && s.evidence.participant;
      FirstOfUpdated(s.steps, MusicPath, if ok then PathStatus(Judged(s.evidence, heard)) else ActionNeeded, MusicPath);
    case Other(key, status) => FirstOfUpdated(s.steps, key, status, MusicPath);
  }

  lemma {:induction false} EveryRunShows(steps: seq<Step>, events: seq<Event>)
    requires AllProper(events) && PathShown(Session(steps, NO_EVIDENCE, false))
    ensures PathShown(Run(steps, events))
  {
    if events != [] {
      EveryRunShows(steps, events[..|events| - 1]);
      NextShows(Run(steps, events[..|events| - 1]), events[|events| - 1]);
    }
  }

  /** Ready is only ever said on a playable path with a responsive engine and a bandmate present, where the
      musician confirmed two-way hearing with or after the latest change of path and has not withdrawn it. */
  lemma ReadyMeansHeard(steps: seq<Step>, events: seq<Event>)
    requires AllProper(events) && PathShown(Session(steps, NO_EVIDENCE, false))
    requires OutcomeOf(Run(steps, events).steps) == Ready
    ensures var e := Run(steps, events).evidence;
      && e.confirmed && !e.recheck && e.quality.Playable? && e.responsive && e.participant
      && Holds(Marks(events), Affirmed, Withdrawn) && LastPeer(events) && LastRoute(events).quality.Playable?
  {
    var s := Run(steps, events);
    EveryRunShows(steps, events);
    EveryRunIsFaithful(steps, events);
    FirstIsThere(s.steps, MusicPath);
    var shown := FirstOf(s.steps, MusicPath).value;
    var i :| 0 <= i < |s.steps| && s.steps[i] == shown;
    assert !Blocking(s.steps[i].status) && !s.steps[i].status.Warning?;
    ConfirmedNeedsNoRecheck(Marks(events));
  }

  /** A standing confirmation leaves no change unconfirmed. */
  lemma ConfirmedNeedsNoRecheck(marks: seq<Mark>)
    requires Holds(marks, Affirmed, Withdrawn)
    ensures !Holds(marks, LeftUnconfirmed, Affirmed)
  {
    var k :| 0 <= k < |marks| && Affirmed(marks[k]) && NoneFrom(marks, Withdrawn, k + 1);
  }
}
