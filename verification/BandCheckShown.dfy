/** What every step shows, told from the run's events alone, and what the outcome says of the steps. */
module BandCheckShown {
  import opened Common
  import opened BandCheckModel
  import opened BandCheckRuns

  predicate LastResponsive(events: seq<Event>)
  {
    if events == [] then false
    else if events[|events| - 1].Observe? then events[|events| - 1].o.engineResponsive
    else LastResponsive(events[..|events| - 1])
  }

  /** Clipped or at full scale is too loud; below both marks nothing is heard. */
  predicate TooLoud(m: Meter) { m.clipped || m.peak >= 0.99 }

  predicate Audible(m: Meter) { TooLoud(m) || m.peak >= 0.02 || m.rms >= 0.005 }

  predicate Heard(e: Event)
  {
    e.Observe? && e.o.meter.Some? && Audible(e.o.meter.value)
  }

  /** The music path: unusable needs action; it passes with a responsive engine, a bandmate present, a playable
      path and a confirmation that stands; anything else is a warning. */
  ghost function PathSays(events: seq<Event>): Status
  {
    var quality := LastRoute(events).quality;
    if quality.Unusable? then ActionNeeded
    else if quality.Playable? && LastResponsive(events) && LastPeer(events)
         && Holds(Marks(events), Affirmed, Withdrawn) then Pass
    else Warning
  }

  function MeterSays(o: Observation, k: Key): Option<Status>
  {
    if k != AudioInput || o.meter.None? then None
    else Some(if TooLoud(o.meter.value) then Warning else if Audible(o.meter.value) then Pass else Running)
  }

  function EngineSays(o: Observation, k: Key): Option<Status>
  {
    if k != MusicEngine then None else Some(if o.engineRunning && o.engineResponsive then Pass else ActionNeeded)
  }

  function ServicesSay(o: Observation, k: Key): Option<Status>
  {
    if k == BandServer && o.bandServerRunning.Some?
    then Some(if o.bandServerRunning.value then Pass else ActionNeeded)
    else if k == RecordingPath && o.recorderReady.Some?
    then Some(if o.recorderReady.value then Pass else Warning)
    else None
  }

  /** What an observation makes a step show, path being what the music path is to show; nothing where it leaves
      the step alone. */
  function ObservationSays(o: Observation, k: Key, path: Status): Option<Status>
  {
    if k == MusicPath then Some(path)
    else if k == AudioInput then MeterSays(o, k)
    else if k == MusicEngine then EngineSays(o, k)
    else ServicesSay(o, k)
  }

  /** What the last event, after all before it, makes a step show. */
  ghost function Says(events: seq<Event>, k: Key): Option<Status>
    requires events != []
  {
    match events[|events| - 1]
    case Observe(o) => ObservationSays(o, k, PathSays(events))
    case Judge(heard) =>
      if k != MusicPath then None
      else Some(if heard && LastPeer(events) then PathSays(events) else ActionNeeded)
    case Other(other, status) => if k == other then Some(status) else None
  }

  function Showing(step: Option<Step>, says: Option<Status>): Option<Step>
  {
    if step.Some? && says.Some? then Some(step.value.(status := says.value)) else step
  }

  // ---- the engine's last word ---------------------------------------------------------------------------

  lemma {:induction false} LastAnswer(steps: seq<Step>, events: seq<Event>)
    ensures Run(steps, events).evidence.responsive == LastResponsive(events)
  {
    if events != [] {
      LastAnswer(steps, events[..|events| - 1]);
    }
  }

  /** The input counts as observed exactly when some observation heard it. */
  lemma {:induction false} InputHeard(steps: seq<Step>, events: seq<Event>)
    ensures Run(steps, events).evidence.inputObserved <==> exists i :: 0 <= i < |events| && Heard(events[i])
  {
    if events != [] {
      var n := |events| - 1;
      var init := events[..n];
      InputHeard(steps, init);
      HeardStep(Run(steps, init), events[n]);
      assert forall i :: 0 <= i < n ==> init[i] == events[i];
    }
  }

  lemma LoudnessShows(m: Meter)
    ensures InputStatus(m) == if TooLoud(m) then Warning else if Audible(m) then Pass else Running
  {
  }

  lemma MeterHears(s: Session, o: Observation)
    ensures WithMeter(s, o).evidence.inputObserved
      <==> s.evidence.inputObserved || (o.meter.Some? && Audible(o.meter.value))
  {
    if o.meter.Some? {
      LoudnessShows(o.meter.value);
    }
  }

  lemma AppliedHears(s: Session, o: Observation)
    ensures Applied(s, o).evidence.inputObserved == WithMeter(WithEvidence(s, o), o).evidence.inputObserved
  {
    var s1 := WithMeter(WithEvidence(s, o), o);
    var s2 := WithEngine(s1);
    var s3 := WithPath(s2);
    assert s2.evidence == s1.evidence && s3.evidence == s2.evidence;
    assert Applied(s, o) == WithServices(s3, o) && WithServices(s3, o).evidence == s3.evidence;
  }

  lemma HeardStep(s: Session, e: Event)
    ensures Next(s, e).evidence.inputObserved <==> s.evidence.inputObserved || Heard(e)
  {
    match e
    case Observe(o) =>
      AppliedHears(s, o);
      MeterHears(WithEvidence(s, o), o);
    case Judge(_) =>
    case Other(_, _) =>
  }

  // ---- each step --------------------------------------------------------------------------------------

  lemma UpdateShows(s: Session, key: Key, status: Status, k: Key)
    ensures FirstOf(WithStep(s, key, status).steps, k)
         == Showing(FirstOf(s.steps, k), if k == key then Some(status) else None)
  {
    FirstOfUpdated(s.steps, key, status, k);
  }

  lemma {:induction false} NoSuchStep(steps: seq<Step>, key: Key)
    ensures HasStep(steps, key) <==> FirstOf(steps, key).Some?
  {
    if steps != [] {
      NoSuchStep(steps[1..], key);
      assert forall i :: 0 <= i < |steps| - 1 ==> steps[1..][i] == steps[i + 1];
      if steps[0].key != key && HasStep(steps, key) {
        var i :| 0 <= i < |steps| && steps[i].key == key;
        assert steps[1..][i - 1].key == key;
      }
    }
  }

  lemma MeterShows(s: Session, o: Observation, k: Key)
    ensures FirstOf(WithMeter(s, o).steps, k) == Showing(FirstOf(s.steps, k), MeterSays(o, k))
  {
    if o.meter.Some? {
      LoudnessShows(o.meter.value);
      UpdateShows(s, AudioInput, InputStatus(o.meter.value), k);
    }
  }

  lemma EngineShows(s: Session, o: Observation, k: Key)
    requires s.evidence.processStarted == o.engineRunning && s.evidence.responsive == o.engineResponsive
    ensures FirstOf(WithEngine(s).steps, k) == Showing(FirstOf(s.steps, k), EngineSays(o, k))
  {
    UpdateShows(s, MusicEngine, if o.engineRunning && o.engineResponsive then Pass else ActionNeeded, k);
  }

  lemma PathStepShows(s: Session, k: Key)
    ensures FirstOf(WithPath(s).steps, k)
         == Showing(FirstOf(s.steps, k), if k == MusicPath then Some(PathStatus(s.evidence)) else None)
  {
    NoSuchStep(s.steps, MusicPath);
    UpdateShows(s, MusicPath, PathStatus(s.evidence), k);
  }

  lemma ServicesShow(s: Session, o: Observation, k: Key)
    ensures FirstOf(WithServices(s, o).steps, k) == Showing(FirstOf(s.steps, k), ServicesSay(o, k))
  {
    NoSuchStep(s.steps, BandServer);
    var s1 := s;
    if o.bandServerRunning.Some? {
      UpdateShows(s, BandServer, if o.bandServerRunning.value then Pass else ActionNeeded, k);
      if HasStep(s.steps, BandServer) {
        s1 := WithStep(s, BandServer, if o.bandServerRunning.value then Pass else ActionNeeded);
      }
    }
    NoSuchStep(s1.steps, RecordingPath);
    if o.recorderReady.Some? {
      UpdateShows(s1, RecordingPath, if o.recorderReady.value then Pass else Warning, k);
    }
  }

  lemma PathStatusSays(steps: seq<Step>, events: seq<Event>)
    requires AllProper(events)
    ensures PathStatus(Run(steps, events).evidence) == PathSays(events)
  {
    EveryRunIsFaithful(steps, events);
    LastAnswer(steps, events);
  }

  /** The evidence that the stages of one observation look at is that of the whole. */
  lemma StageEvidence(s: Session, o: Observation)
    ensures var s2 := WithMeter(WithEvidence(s, o), o);
      && s2.evidence.processStarted == o.engineRunning && s2.evidence.responsive == o.engineResponsive
      && PathStatus(WithEngine(s2).evidence) == PathStatus(Applied(s, o).evidence)
  {
    var s2 := WithMeter(WithEvidence(s, o), o);
    assert SameEvidence(WithEvidence(s, o), s2);
    assert SameEvidence(WithEvidence(s, o), Applied(s, o));
  }

  lemma ObserveShows(s: Session, o: Observation, k: Key)
    ensures FirstOf(Applied(s, o).steps, k)
         == Showing(FirstOf(s.steps, k), ObservationSays(o, k, PathStatus(Applied(s, o).evidence)))
  {
    StageEvidence(s, o);
    var s1 := WithEvidence(s, o);
    MeterShows(s1, o, k);
    var s2 := WithMeter(s1, o);
    EngineShows(s2, o, k);
    var s3 := WithEngine(s2);
    PathStepShows(s3, k);
    var s4 := WithPath(s3);
    ServicesShow(s4, o, k);
    assert Applied(s, o) == WithServices(s4, o);
  }

  /** Each step after every run: as before its last event, but for what that event says of it. */
  lemma EachStepShows(steps: seq<Step>, events: seq<Event>, k: Key)
    requires AllProper(events) && events != []
    ensures FirstOf(Run(steps, events).steps, k)
         == Showing(FirstOf(Run(steps, events[..|events| - 1]).steps, k), Says(events, k))
  {
    var s, e := Run(steps, events[..|events| - 1]), events[|events| - 1];
    PathStatusSays(steps, events);
    match e
    case Observe(o) => ObserveShows(s, o, k);
    case Judge(heard) =>
      EveryRunIsFaithful(steps, events[..|events| - 1]);
      var ok := heard && s.evidence.participant;
      UpdateShows(s, MusicPath, if ok then PathStatus(Judged(s.evidence, heard)) else ActionNeeded, k);
    case Other(key, status) => UpdateShows(s, key, status, k);
  }

  /** Ready exactly when every required step passes or does not apply; blocked exactly when one still needs
      something to happen. */
  lemma OutcomeMeans(steps: seq<Step>)
    ensures OutcomeOf(steps).Ready?
      <==> forall i :: 0 <= i < |steps| && steps[i].required ==> steps[i].status.Pass? || steps[i].status.NotApplicable?
    ensures OutcomeOf(steps).Blocked?
      <==> exists i :: 0 <= i < |steps| && steps[i].required
             && !steps[i].status.Pass? && !steps[i].status.NotApplicable? && !steps[i].status.Warning?
  {
    var warns := (s: Status) => s.Warning?;
    if OutcomeOf(steps).Blocked? {
      var i :| 0 <= i < |steps| && steps[i].required && Blocking(steps[i].status);
    }
    if OutcomeOf(steps).ReadyWithWarning? {
      var i :| 0 <= i < |steps| && steps[i].required && warns(steps[i].status);
    }
    if OutcomeOf(steps).Ready? {
      forall i | 0 <= i < |steps| && steps[i].required
        ensures steps[i].status.Pass? || steps[i].status.NotApplicable?
      {
        assert !warns(steps[i].status) && !Blocking(steps[i].status);
      }
    }
  }
}
