/**
 Band Check evidence in a live session: independent facts about one connection path, and the musician's own
 confirmation that both sides are heard, which must not outlive the path it was given for.
 */
module BandCheckModel {
  import opened Common

  datatype TransportPath = LanDirect | InternetDirect | SecureRelay

  datatype Quality = UnknownQuality | Playable | Difficult | Unusable

  datatype Status = Pending | Running | Pass | Warning | ActionNeeded | NotApplicable

  datatype Key = MusicEngine | BandServer | AudioInput | Headphones | TestRecording | RecordingPath | Studio | MusicPath
               | Webex

  datatype Step = Step(key: Key, status: Status, required: bool)

  /** A path is only ever named together with a generation, and a quality only together with a path. */
  datatype Observation = Observation(engineRunning: bool, engineResponsive: bool, peerConnected: bool,
                                     bandServerRunning: Option<bool>, recorderReady: Option<bool>,
                                     meter: Option<Meter>,
                                     datagrams: bool, localSignal: bool, remoteSignal: bool, decoded: bool,
                                     confirmed: Option<bool>,
                                     path: Option<TransportPath>, quality: Quality, generation: nat)
  {
    predicate Valid() { (path.Some? ==> generation > 0) && (path.None? ==> quality.UnknownQuality?) }
  }

  datatype Meter = Meter(rms: real, peak: real, clipped: bool)

  datatype Evidence = Evidence(inputObserved: bool, processStarted: bool, responsive: bool, participant: bool,
                               datagrams: bool, localSignal: bool, remoteSignal: bool, decoded: bool,
                               confirmed: bool,
                               path: Option<TransportPath>, quality: Quality, generation: nat, recheck: bool)

  const NO_EVIDENCE :=
    Evidence(false, false, false, false, false, false, false, false, false, None, UnknownQuality, 0, false)

  // ---- evidence ---------------------------------------------------------------------------------------

  predicate Authoritative(o: Observation)
  {
    o.generation > 0 || o.path.Some?
  }

  predicate MaterialChange(e: Evidence, o: Observation)
  {
    Authoritative(o) && e.generation > 0 && ((o.generation > 0 && e.generation != o.generation) || e.path != o.path)
  }

  function Merged(e: Evidence, o: Observation): Evidence
  {
    var changed := MaterialChange(e, o);
    Evidence(e.inputObserved, o.engineRunning, o.engineResponsive, o.peerConnected,
             (!changed && e.datagrams) || o.datagrams,
             (!changed && e.localSignal) || o.localSignal,
             (!changed && e.remoteSignal) || o.remoteSignal,
             (!changed && e.decoded) || o.decoded,
             if o.confirmed.Some? then o.confirmed.value else !changed && e.confirmed,
             if Authoritative(o) then o.path else e.path,
             if Authoritative(o) then o.quality else e.quality,
             if Authoritative(o) then o.generation else e.generation,
             (e.recheck || changed) && o.confirmed != Some(true))
  }

  function Judged(e: Evidence, heard: bool): Evidence
  {
    if heard && !e.participant then e.(confirmed := false)
    else e.(confirmed := heard, recheck := e.recheck && !heard)
  }

  /** What the music-path step shows for the evidence. */
  function PathStatus(e: Evidence): Status
  {
    if e.quality.Unusable? then ActionNeeded
    else if e.responsive && e.participant && e.confirmed && e.quality.Playable? then Pass
    else Warning
  }

  // ---- steps ------------------------------------------------------------------------------------------

  predicate HasStep(steps: seq<Step>, key: Key)
  {
    exists i :: 0 <= i < |steps| && steps[i].key == key
  }

  /** The first step with the key takes the status. */
  function Updated(steps: seq<Step>, key: Key, status: Status): (r: seq<Step>)
    ensures |r| == |steps|
  {
    if steps == [] then []
    else if steps[0].key == key then [steps[0].(status := status)] + steps[1..]
    else [steps[0]] + Updated(steps[1..], key, status)
  }

  function InputStatus(m: Meter): Status
  {
    var rms, peak := Clamped(m.rms), Clamped(m.peak);
    if m.clipped || peak >= 0.99 then Warning else if peak >= 0.02 || rms >= 0.005 then Pass else Running
  }

  function Clamped(x: real): real { if x < 0.0 then 0.0 else if x > 1.0 then 1.0 else x }

  datatype Session = Session(steps: seq<Step>, evidence: Evidence, twoWay: bool)

  /** All evidence but that the input was heard. */
  predicate SameEvidence(s: Session, t: Session)
  {
    s.twoWay == t.twoWay && t.evidence == s.evidence.(inputObserved := t.evidence.inputObserved)
  }

  function WithStep(s: Session, key: Key, status: Status): (r: Session)
    ensures r.evidence == s.evidence && r.twoWay == s.twoWay
  {
    s.(steps := Updated(s.steps, key, status))
  }

  function WithInput(s: Session, m: Meter): Session
  {
    WithStep(s.(evidence := s.evidence.(inputObserved := s.evidence.inputObserved || !InputStatus(m).Running?)),
             AudioInput, InputStatus(m))
  }

  function WithEvidence(s: Session, o: Observation): Session
  {
    s.(evidence := Merged(s.evidence, o),
       twoWay := if o.confirmed.Some? then o.confirmed.value else s.twoWay && !MaterialChange(s.evidence, o))
  }

  function WithMeter(s: Session, o: Observation): (r: Session)
    ensures SameEvidence(s, r)
  {
    if o.meter.Some? then WithInput(s, o.meter.value) else s
  }

  function WithEngine(s: Session): (r: Session)
    ensures r.evidence == s.evidence && r.twoWay == s.twoWay
  {
    WithStep(s, MusicEngine, if s.evidence.processStarted && s.evidence.responsive then Pass else ActionNeeded)
  }

  function WithPath(s: Session): (r: Session)
    ensures r.evidence == s.evidence && r.twoWay == s.twoWay
  {
    if HasStep(s.steps, MusicPath) then WithStep(s, MusicPath, PathStatus(s.evidence)) else s
  }

  function WithServices(s: Session, o: Observation): (r: Session)
    ensures r.evidence == s.evidence && r.twoWay == s.twoWay
  {
    var s1 := if o.bandServerRunning.Some? && HasStep(s.steps, BandServer)
              then WithStep(s, BandServer, if o.bandServerRunning.value then Pass else ActionNeeded) else s;
    if o.recorderReady.Some? && HasStep(s1.steps, RecordingPath)
    then WithStep(s1, RecordingPath, if o.recorderReady.value then Pass else Warning) else s1
  }

  function Applied(s: Session, o: Observation): (r: Session)
    ensures SameEvidence(WithEvidence(s, o), r)
  {
    WithServices(WithPath(WithEngine(WithMeter(WithEvidence(s, o), o))), o)
  }

  function Confirmed(s: Session, heard: bool): Session
  {
    var ok := heard && s.evidence.participant;
    var s1 := s.(evidence := Judged(s.evidence, heard), twoWay := ok);
    WithStep(s1, MusicPath, if ok then PathStatus(s1.evidence) else ActionNeeded)
  }

  datatype Outcome = Ready | ReadyWithWarning | Blocked

  predicate SomeRequired(steps: seq<Step>, of: Status -> bool)
  {
    exists i :: 0 <= i < |steps| && steps[i].required && of(steps[i].status)
  }

  predicate Blocking(s: Status) { s.Pending? || s.Running? || s.ActionNeeded? }

  function OutcomeOf(steps: seq<Step>): Outcome
  {
    if SomeRequired(steps, Blocking) then Blocked
    else if SomeRequired(steps, (s: Status) => s.Warning?) then ReadyWithWarning
    else Ready
  }
}
