/** The Band Check session object; View is the part of it the evidence rules are about. */
module BandCheck {
  import opened BandCheckModel

  const TWO_WAY := "two_way_audibility"

  /** The scan for the first step with a key; the number of steps when there is none. */
  method IndexOf(steps: seq<Step>, key: Key) returns (index: nat)
    ensures index <= |steps| && (index < |steps| ==> steps[index].key == key)
    ensures forall k :: 0 <= k < index ==> steps[k].key != key
  {
    index := 0;
    while index < |steps| && steps[index].key != key
      invariant index <= |steps| && forall k :: 0 <= k < index ==> steps[k].key != key
    {
      index := index + 1;
    }
  }

  class BandCheckSession {
    const live: bool
    var steps: seq<Step>
    var inputRms: real
    var inputPeak: real
    var inputClipped: bool
    var manualConfirmations: set<string>
    var evidence: Evidence

    constructor (live: bool, steps: seq<Step>)
      ensures this.live == live && View() == Session(steps, NO_EVIDENCE, false)
    {
      this.live, this.steps := live, steps;
      inputRms, inputPeak, inputClipped := 0.0, 0.0, false;
      manualConfirmations, evidence := {}, NO_EVIDENCE;
    }

    function View(): Session
      reads this
    {
      Session(steps, evidence, TWO_WAY in manualConfirmations)
    }

    /** found is false where the program raises KeyError. */
    method UpdateStep(key: Key, status: Status) returns (found: bool)
      modifies this`steps
      ensures View() == WithStep(old(View()), key, status)
      ensures found <==> HasStep(old(steps), key)
    {
      var index := IndexOf(steps, key);
      if index == |steps| {
        UpdatedNone(steps, key, status);
        return false;
      }
      UpdatedFirst(steps, key, status, index);
      steps := steps[index := steps[index].(status := status)];
      return true;
    }

    method ObserveInput(m: Meter) returns (found: bool)
      modifies this`steps, this`inputRms, this`inputPeak, this`inputClipped, this`evidence
      ensures View() == WithInput(old(View()), m)
      ensures 0.0 <= inputRms <= 1.0 && 0.0 <= inputPeak <= 1.0 && (m.clipped ==> inputClipped)
      ensures found <==> HasStep(old(steps), AudioInput)
    {
      inputRms := Clamped(m.rms);
      inputPeak := Clamped(m.peak);
      inputClipped := m.clipped || inputPeak >= 0.99;
      if inputClipped {
        evidence := evidence.(inputObserved := true);
        found := UpdateStep(AudioInput, Warning);
      } else if inputPeak >= 0.02 || inputRms >= 0.005 {
        evidence := evidence.(inputObserved := true);
        found := UpdateStep(AudioInput, Pass);
      } else {
        found := UpdateStep(AudioInput, Running);
      }
    }

    method MergeLiveEvidence(o: Observation)
      modifies this`evidence, this`manualConfirmations
      ensures View() == WithEvidence(old(View()), o)
      ensures manualConfirmations - {TWO_WAY} == old(manualConfirmations) - {TWO_WAY}
    {
      var current := evidence;
      var authoritativePath := o.generation > 0 || o.path.Some?;
      var nextPath := if authoritativePath then o.path else current.path;
      var nextQuality := if authoritativePath then o.quality else current.quality;
      var nextGeneration := if authoritativePath then o.generation else current.generation;
      var generationChanged := current.generation > 0 && nextGeneration > 0 && current.generation != nextGeneration;
      var selectedPathChanged := authoritativePath && current.generation > 0 && current.path != nextPath;
      var materialPathChanged := generationChanged || selectedPathChanged;
      var datagrams := if materialPathChanged then false else current.datagrams;
      var localSignal := if materialPathChanged then false else current.localSignal;
      var remoteSignal := if materialPathChanged then false else current.remoteSignal;
      var decoded := if materialPathChanged then false else current.decoded;
      var musicianConfirmed := if materialPathChanged then false else current.confirmed;
      var recheckRequired := current.recheck || materialPathChanged;
      var manual := if materialPathChanged then manualConfirmations - {TWO_WAY} else manualConfirmations;
      if o.confirmed.Some? {
        musicianConfirmed := o.confirmed.value;
        if o.confirmed.value {
          recheckRequired := false;
          manual := manual + {TWO_WAY};
        } else {
          manual := manual - {TWO_WAY};
        }
      }
      manualConfirmations := manual;
      evidence := Evidence(current.inputObserved, o.engineRunning, o.engineResponsive, o.peerConnected,
                           datagrams || o.datagrams, localSignal || o.localSignal, remoteSignal || o.remoteSignal,
                           decoded || o.decoded, musicianConfirmed, nextPath, nextQuality, nextGeneration,
                           recheckRequired);
    }

    method RefreshMusicPathStep() returns (found: bool)
      modifies this`steps
      ensures View() == WithStep(old(View()), MusicPath, PathStatus(evidence))
      ensures found <==> HasStep(old(steps), MusicPath)
    {
      var status: Status;
      if evidence.quality.Unusable? {
        status := ActionNeeded;
      } else if !evidence.responsive {
        status := Warning;
      } else if !evidence.participant {
        status := Warning;
      } else if evidence.confirmed {
        status := if evidence.quality.Playable? then Pass else Warning;
      } else {
        status := Warning;
      }
      if status.Pass? && evidence.quality.Difficult? {
        status := Warning;
      }
      found := UpdateStep(MusicPath, status);
    }

    method ShowEngine()
      requires HasStep(steps, MusicEngine)
      modifies this`steps
      ensures View() == WithEngine(old(View()))
    {
      var found;
      if evidence.processStarted && evidence.responsive {
        found := UpdateStep(MusicEngine, Pass);
      } else if evidence.processStarted {
        found := UpdateStep(MusicEngine, ActionNeeded);
      } else {
        found := UpdateStep(MusicEngine, ActionNeeded);
      }
    }

    method ShowServices(o: Observation)
      modifies this`steps
      ensures View() == WithServices(old(View()), o)
    {
      var found;
      if o.bandServerRunning.Some? && HasStep(steps, BandServer) {
        found := UpdateStep(BandServer, if o.bandServerRunning.value then Pass else ActionNeeded);
      }
      if o.recorderReady.Some? && HasStep(steps, RecordingPath) {
        found := UpdateStep(RecordingPath, if o.recorderReady.value then Pass else Warning);
      }
    }

    /** A live session is built with the engine and input steps, so no update here is for a missing step. */
    method ApplyLiveObservations(o: Observation)
      requires HasStep(steps, MusicEngine) && HasStep(steps, AudioInput)
      modifies this
      ensures View() == if live then Applied(old(View()), o) else old(View())
    {
      if !live { return; }
      MergeLiveEvidence(o);
      var found;
      if o.meter.Some? {
        StillThere(steps, AudioInput, InputStatus(o.meter.value), MusicEngine);
        found := ObserveInput(o.meter.value);
      }
      ShowEngine();
      if HasStep(steps, MusicPath) {
        found := RefreshMusicPathStep();
      }
      ShowServices(o);
    }

    /** accepted is false where the program raises: no live music path to confirm. */
    method ConfirmTwoWayAudibility(heard: bool) returns (accepted: bool)
      modifies this
      ensures accepted <==> live && HasStep(old(steps), MusicPath)
      ensures View() == if accepted then Confirmed(old(View()), heard) else old(View())
      ensures manualConfirmations - {TWO_WAY} == old(manualConfirmations) - {TWO_WAY}
    {
      if !live || !HasStep(steps, MusicPath) { return false; }
      var found;
      if heard && !evidence.participant {
        evidence := evidence.(confirmed := false);
        manualConfirmations := manualConfirmations - {TWO_WAY};
        found := UpdateStep(MusicPath, ActionNeeded);
        return true;
      }
      evidence := evidence.(confirmed := heard, recheck := if heard then false else evidence.recheck);
      if heard {
        manualConfirmations := manualConfirmations + {TWO_WAY};
        found := RefreshMusicPathStep();
      } else {
        manualConfirmations := manualConfirmations - {TWO_WAY};
        found := UpdateStep(MusicPath, ActionNeeded);
      }
      return true;
    }
  }

  lemma {:induction false} UpdatedKey(steps: seq<Step>, key: Key, status: Status, i: nat)
    requires i < |steps|
    ensures Updated(steps, key, status)[i].key == steps[i].key
  {
    if i > 0 && steps[0].key != key {
      UpdatedKey(steps[1..], key, status, i - 1);
    }
  }

  lemma StillThere(steps: seq<Step>, key: Key, status: Status, other: Key)
    requires HasStep(steps, other)
    ensures HasStep(Updated(steps, key, status), other)
  {
    var i :| 0 <= i < |steps| && steps[i].key == other;
    UpdatedKey(steps, key, status, i);
  }

  lemma {:induction false} UpdatedFirst(steps: seq<Step>, key: Key, status: Status, i: nat)
    requires i < |steps| && steps[i].key == key && forall k :: 0 <= k < i ==> steps[k].key != key
    ensures Updated(steps, key, status) == steps[i := steps[i].(status := status)]
  {
    if i > 0 {
      UpdatedFirst(steps[1..], key, status, i - 1);
    }
  }

  lemma {:induction false} UpdatedNone(steps: seq<Step>, key: Key, status: Status)
    requires forall k :: 0 <= k < |steps| ==> steps[k].key != key
    ensures Updated(steps, key, status) == steps
  {
    if steps != [] {
      UpdatedNone(steps[1..], key, status);
    }
  }
}
