/**
 The hysteresis policy for the sound-card frame factor: what it does with one observation, and what every
 run of observations and settings changes can make it do. Times and pings are real numbers.
 */
module AdaptiveLatency {
  import opened Common

  datatype Config = Config(minChangeInterval: real, pingRaise: real, pingLower: real, streakRequired: int)

  datatype Observation = Observation(ping: Option<real>, dropoutHint: bool, at: real)

  datatype Policy = Policy(enabled: bool, playerOverride: bool, factor: int, highStreak: int, lowStreak: int,
                           lastChangeAt: real)

  predicate Step(factor: int)
  {
    factor == 1 || factor == 2 || factor == 4
  }

  /** A policy as constructed: any allowed factor, nothing heard, no change yet. */
  predicate Fresh(p: Policy)
  {
    Step(p.factor) && p.highStreak == 0 && p.lowStreak == 0 && p.lastChangeAt == 0.0
  }

  /** What an observation counts as: evidence is worth nothing without a usable ping. */
  datatype Kind = Useless | Dropout | High | Low | Middling

  function KindOf(cfg: Config, o: Observation): Kind
  {
    if o.ping.None? || o.ping.value <= 0.0 then Useless
    else if o.dropoutHint then Dropout
    else if o.ping.value >= cfg.pingRaise then High
    else if o.ping.value <= cfg.pingLower then Low
    else Middling
  }

  predicate Considered(p: Policy)
  {
    p.enabled && !p.playerOverride
  }

  function Noted(cfg: Config, p: Policy, kind: Kind): Policy
  {
    match kind
    case Dropout => p.(highStreak := cfg.streakRequired, lowStreak := 0)
    case High => p.(highStreak := p.highStreak + 1, lowStreak := 0)
    case Low => p.(highStreak := 0, lowStreak := p.lowStreak + 1)
    case _ => p.(highStreak := 0, lowStreak := 0)
  }

  /** The factor to change to, if any. */
  function Wanted(cfg: Config, p: Policy): Option<int>
  {
    if p.highStreak >= cfg.streakRequired && p.factor < 4 then Some(p.factor * 2)
    else if p.lowStreak >= cfg.streakRequired && p.factor > 1 then Some(p.factor / 2)
    else None
  }

  function Decided(cfg: Config, p: Policy, o: Observation): (Option<int>, Policy)
  {
    if !Considered(p) then (None, p)
    else
      var kind := KindOf(cfg, o);
      var q := Noted(cfg, p, kind);
      if kind.Useless? || o.at - p.lastChangeAt < cfg.minChangeInterval || Wanted(cfg, q).None? then (None, q)
      else (Wanted(cfg, q), q.(factor := Wanted(cfg, q).value, lastChangeAt := o.at, highStreak := 0, lowStreak := 0))
  }

  class AdaptiveLatencyPolicy {
    const cfg: Config
    var enabled: bool
    var playerOverride: bool
    var currentFactor: int
    var highPingStreak: int
    var lowPingStreak: int
    var lastChangeAt: real

    constructor (cfg: Config, enabled: bool, playerOverride: bool, factor: int)
      ensures this.cfg == cfg && View() == Policy(enabled, playerOverride, factor, 0, 0, 0.0)
    {
      this.cfg := cfg;
      this.enabled, this.playerOverride, currentFactor := enabled, playerOverride, factor;
      highPingStreak, lowPingStreak, lastChangeAt := 0, 0, 0.0;
    }

    function View(): Policy
      reads this
    {
      Policy(enabled, playerOverride, currentFactor, highPingStreak, lowPingStreak, lastChangeAt)
    }

    /** Where a factor stands among the allowed ones, 1, 2 and 4. */
    static function Index(factor: int): nat
      requires Step(factor)
    {
      if factor == 1 then 0 else if factor == 2 then 1 else 2
    }

    static const BUFFER_STEPS: seq<int> := [1, 2, 4]

    method Decide(o: Observation) returns (r: Option<int>)
      requires Step(currentFactor)
      modifies this
      ensures (r, View()) == Decided(cfg, old(View()), o)
      ensures Step(currentFactor)
    {
      if !enabled || playerOverride { return None; }
      if o.ping.None? || o.ping.value <= 0.0 {
        highPingStreak := 0;
        lowPingStreak := 0;
        return None;
      }
      var ping := o.ping.value;
      if o.dropoutHint {
        highPingStreak := cfg.streakRequired;
        lowPingStreak := 0;
      } else if ping >= cfg.pingRaise {
        highPingStreak := highPingStreak + 1;
        lowPingStreak := 0;
      } else if ping <= cfg.pingLower {
        lowPingStreak := lowPingStreak + 1;
        highPingStreak := 0;
      } else {
        highPingStreak := 0;
        lowPingStreak := 0;
      }
      if o.at - lastChangeAt < cfg.minChangeInterval { return None; }
      var idx := Index(currentFactor);
      var newFactor: Option<int> := None;
      if highPingStreak >= cfg.streakRequired && idx < |BUFFER_STEPS| - 1 {
        newFactor := Some(BUFFER_STEPS[idx + 1]);
      } else if lowPingStreak >= cfg.streakRequired && idx > 0 {
        newFactor := Some(BUFFER_STEPS[idx - 1]);
      }
      if newFactor.None? || newFactor.value == currentFactor { return None; }
      currentFactor := newFactor.value;
      lastChangeAt := o.at;
      highPingStreak := 0;
      lowPingStreak := 0;
      return newFactor;
    }
  }

  // ---- evidence ------------------------------------------------------------------------------------

  /** Said of the observations themselves: an observation without a positive ping is worth nothing. */
  predicate Usable(o: Observation)
  {
    o.ping.Some? && o.ping.value > 0.0
  }

  predicate Hot(cfg: Config, o: Observation)
  {
    Usable(o) && (o.dropoutHint || o.ping.value >= cfg.pingRaise)
  }

  predicate Cool(cfg: Config, o: Observation)
  {
    Usable(o) && !o.dropoutHint && o.ping.value <= cfg.pingLower && o.ping.value < cfg.pingRaise
  }

  predicate HotFrom(cfg: Config, h: seq<Observation>, k: nat)
  {
    forall i :: k <= i < |h| ==> Hot(cfg, h[i])
  }

  predicate CoolFrom(cfg: Config, h: seq<Observation>, k: nat)
  {
    forall i :: k <= i < |h| ==> Cool(cfg, h[i])
  }

  predicate DropoutFrom(h: seq<Observation>, k: nat)
  {
    exists i :: k <= i < |h| && h[i].dropoutHint
  }

  /** The history ends in an unbroken run of high pings and dropouts that is long enough or has a dropout. */
  predicate HighEvidence(cfg: Config, h: seq<Observation>)
  {
    exists k :: 0 <= k <= |h| && HotFrom(cfg, h, k) && (|h| - k >= cfg.streakRequired || DropoutFrom(h, k))
  }

  /** The history ends in a long enough unbroken run of low pings. */
  predicate LowEvidence(cfg: Config, h: seq<Observation>)
  {
    exists k :: 0 <= k <= |h| && CoolFrom(cfg, h, k) && |h| - k >= cfg.streakRequired
  }

  function HighStreak(cfg: Config, h: seq<Observation>): int
  {
    if h == [] then 0
    else match KindOf(cfg, h[|h| - 1])
      case Dropout => cfg.streakRequired
      case High => HighStreak(cfg, h[..|h| - 1]) + 1
      case _ => 0
  }

  function LowStreak(cfg: Config, h: seq<Observation>): (n: nat)
    ensures n <= |h|
  {
    if h == [] || !KindOf(cfg, h[|h| - 1]).Low? then 0 else LowStreak(cfg, h[..|h| - 1]) + 1
  }

  predicate HotDropout(cfg: Config, h: seq<Observation>)
  {
    exists k :: 0 <= k <= |h| && HotFrom(cfg, h, k) && DropoutFrom(h, k)
  }

  /** With a dropout in the run the streak has reached what is required; without one it is the run's length. */
  lemma {:induction false} HighStreakIsRun(cfg: Config, h: seq<Observation>)
    ensures HotDropout(cfg, h) ==> HighStreak(cfg, h) >= cfg.streakRequired
    ensures !HotDropout(cfg, h) ==> var n := HighStreak(cfg, h);
      0 <= n <= |h| && HotFrom(cfg, h, |h| - n) && (n < |h| ==> !Hot(cfg, h[|h| - n - 1]))
  {
    if h != [] {
      var init, last := h[..|h| - 1], h[|h| - 1];
      HighStreakIsRun(cfg, init);
      if Hot(cfg, last) && last.dropoutHint {
        assert HotFrom(cfg, h, |h| - 1) && DropoutFrom(h, |h| - 1);
      } else if Hot(cfg, last) {
        if HotDropout(cfg, h) {
          var k :| 0 <= k <= |h| && HotFrom(cfg, h, k) && DropoutFrom(h, k);
          assert HotFrom(cfg, init, k) && DropoutFrom(init, k);
        }
        if HotDropout(cfg, init) {
          var k :| 0 <= k <= |init| && HotFrom(cfg, init, k) && DropoutFrom(init, k);
          assert HotFrom(cfg, h, k) && DropoutFrom(h, k);
        }
      } else {
        assert forall k :: 0 <= k < |h| ==> !HotFrom(cfg, h, k);
      }
    }
  }

  lemma HighStreakIsEvidence(cfg: Config, h: seq<Observation>)
    ensures HighStreak(cfg, h) >= cfg.streakRequired <==> HighEvidence(cfg, h)
  {
    HighStreakIsRun(cfg, h);
    var n := HighStreak(cfg, h);
    if HotDropout(cfg, h) {
      var k :| 0 <= k <= |h| && HotFrom(cfg, h, k) && DropoutFrom(h, k);
    } else {
      assert n < |h| ==> forall k :: 0 <= k < |h| - n ==> !HotFrom(cfg, h, k);
      assert n >= cfg.streakRequired ==> HighEvidence(cfg, h) by {
        assert HotFrom(cfg, h, |h| - n);
      }
    }
  }

  lemma {:induction false} LowStreakIsRun(cfg: Config, h: seq<Observation>)
    ensures var n := LowStreak(cfg, h); CoolFrom(cfg, h, |h| - n) && (n < |h| ==> !Cool(cfg, h[|h| - n - 1]))
  {
    if h != [] && Cool(cfg, h[|h| - 1]) {
      LowStreakIsRun(cfg, h[..|h| - 1]);
    }
  }

  lemma LowStreakIsEvidence(cfg: Config, h: seq<Observation>)
    ensures LowStreak(cfg, h) >= cfg.streakRequired <==> LowEvidence(cfg, h)
  {
    LowStreakIsRun(cfg, h);
    var n := LowStreak(cfg, h);
    assert n < |h| ==> forall k :: 0 <= k < |h| - n ==> !CoolFrom(cfg, h, k);
  }

  // ---- runs -----------------------------------------------------------------------------------------

  datatype Event = Observe(o: Observation) | SetEnabled(on: bool) | SetOverride(on: bool)

  /** A change of factor, with what was observed since the change before it. */
  datatype Change = Change(at: real, from: int, to: int, heard: seq<Observation>)

  datatype World = World(p: Policy, changes: seq<Change>, heard: seq<Observation>)

  function Next(cfg: Config, w: World, e: Event): World
  {
    match e
    case SetEnabled(on) => w.(p := w.p.(enabled := on))
    case SetOverride(on) => w.(p := w.p.(playerOverride := on))
    case Observe(o) =>
      var (r, p) := Decided(cfg, w.p, o);
      if !Considered(w.p) then w
      else
        var heard := w.heard + [o];
        if r.None? then w.(p := p, heard := heard)
        else World(p, w.changes + [Change(o.at, w.p.factor, r.value, heard)], [])
  }

  function Run(cfg: Config, start: Policy, events: seq<Event>): World
  {
    if events == [] then World(start, [], [])
    else Next(cfg, Run(cfg, start, events[..|events| - 1]), events[|events| - 1])
  }

  /** An adjacent step, backed by the evidence for its direction. */
  predicate Justified(cfg: Config, c: Change)
  {
    && Step(c.from) && Step(c.to)
    && ((c.to == 2 * c.from && HighEvidence(cfg, c.heard))
        || (c.from == 2 * c.to && LowEvidence(cfg, c.heard)))
  }

  /** next starts from the factor prev left, no sooner than the interval allows. */
  predicate Follows(cfg: Config, prev: Change, next: Change)
  {
    prev.to == next.from && next.at - prev.at >= cfg.minChangeInterval
  }

  /** The streak counters stand for what was heard since the last change. */
  ghost predicate Counted(cfg: Config, w: World)
  {
    w.p.highStreak == HighStreak(cfg, w.heard) && w.p.lowStreak == LowStreak(cfg, w.heard)
  }

  ghost predicate Steady(cfg: Config, start: Policy, w: World)
  {
    && Step(w.p.factor)
    && (forall i :: 0 <= i < |w.changes| ==> Justified(cfg, w.changes[i]))
    && (forall i :: 0 <= i < |w.changes| - 1 ==> Follows(cfg, w.changes[i], w.changes[i + 1]))
    && (if w.changes == [] then w.p.factor == start.factor && w.p.lastChangeAt == start.lastChangeAt
        else
          var last := w.changes[|w.changes| - 1];
          w.changes[0].from == start.factor && w.p.factor == last.to && w.p.lastChangeAt == last.at)
  }

  lemma NotedIsHeard(cfg: Config, p: Policy, heard: seq<Observation>, o: Observation)
    requires p.highStreak == HighStreak(cfg, heard) && p.lowStreak == LowStreak(cfg, heard)
    ensures var q := Noted(cfg, p, KindOf(cfg, o));
      q.highStreak == HighStreak(cfg, heard + [o]) && q.lowStreak == LowStreak(cfg, heard + [o])
  {
    assert (heard + [o])[..|heard|] == heard;
  }

  lemma EvidenceOnStreaks(cfg: Config, w: World, o: Observation)
    requires Counted(cfg, w)
    ensures var q := Noted(cfg, w.p, KindOf(cfg, o)); var h := w.heard + [o];
      && (q.highStreak >= cfg.streakRequired <==> HighEvidence(cfg, h))
      && (q.lowStreak >= cfg.streakRequired <==> LowEvidence(cfg, h))
  {
    NotedIsHeard(cfg, w.p, w.heard, o);
    HighStreakIsEvidence(cfg, w.heard + [o]);
    LowStreakIsEvidence(cfg, w.heard + [o]);
  }

  lemma NextIsCounted(cfg: Config, w: World, e: Event)
    requires Counted(cfg, w)
    ensures Counted(cfg, Next(cfg, w, e))
  {
    if e.Observe? {
      NotedIsHeard(cfg, w.p, w.heard, e.o);
    }
  }

  /** A decision to change is an adjacent step on its evidence, no sooner than the interval allows. */
  lemma DecisionIsJustified(cfg: Config, w: World, o: Observation)
    requires Counted(cfg, w) && Step(w.p.factor) && Considered(w.p) && Decided(cfg, w.p, o).0.Some?
    ensures var (r, p) := Decided(cfg, w.p, o);
      && Justified(cfg, Change(o.at, w.p.factor, r.value, w.heard + [o]))
      && o.at - w.p.lastChangeAt >= cfg.minChangeInterval && p.factor == r.value && p.lastChangeAt == o.at
  {
    EvidenceOnStreaks(cfg, w, o);
  }

  /** Recording such a change keeps the run steady. */
  lemma ChangeIsSteady(cfg: Config, start: Policy, w: World, p: Policy, c: Change)
    requires Steady(cfg, start, w) && Justified(cfg, c) && c.from == w.p.factor
    requires c.at - w.p.lastChangeAt >= cfg.minChangeInterval && p.factor == c.to && p.lastChangeAt == c.at
    ensures Steady(cfg, start, World(p, w.changes + [c], []))
  {
  }

  lemma NextIsSteady(cfg: Config, start: Policy, w: World, e: Event)
    requires Counted(cfg, w) && Steady(cfg, start, w)
    ensures Steady(cfg, start, Next(cfg, w, e))
  {
    if e.Observe? && Considered(w.p) {
      var (r, p) := Decided(cfg, w.p, e.o);
      if r.Some? {
        DecisionIsJustified(cfg, w, e.o);
        ChangeIsSteady(cfg, start, w, p, Change(e.o.at, w.p.factor, r.value, w.heard + [e.o]));
      }
    }
  }

  /** Over every run: the factor stays 1, 2 or 4, every change is one adjacent step from where the last one
      left it, backed by its evidence since then, and follows it by at least the minimum interval. */
  lemma {:induction false} EveryRunIsSteady(cfg: Config, start: Policy, events: seq<Event>)
    requires Fresh(start)
    ensures Counted(cfg, Run(cfg, start, events)) && Steady(cfg, start, Run(cfg, start, events))
  {
    if events != [] {
      EveryRunIsSteady(cfg, start, events[..|events| - 1]);
      NextIsCounted(cfg, Run(cfg, start, events[..|events| - 1]), events[|events| - 1]);
      NextIsSteady(cfg, start, Run(cfg, start, events[..|events| - 1]), events[|events| - 1]);
    }
  }

  /** Any two changes of a run are at least the minimum interval apart. */
  lemma {:induction false} AnyTwoChanges(cfg: Config, start: Policy, events: seq<Event>, i: nat, j: nat)
    requires Fresh(start) && cfg.minChangeInterval >= 0.0 && i < j < |Run(cfg, start, events).changes|
    ensures var c := Run(cfg, start, events).changes; c[j].at - c[i].at >= cfg.minChangeInterval
    decreases j - i
  {
    EveryRunIsSteady(cfg, start, events);
    assert Follows(cfg, Run(cfg, start, events).changes[i], Run(cfg, start, events).changes[i + 1]);
    if i + 1 < j {
      AnyTwoChanges(cfg, start, events, i + 1, j);
    }
  }

  lemma DecidedOnStreaks(cfg: Config, p: Policy, o: Observation)
    requires Considered(p)
    ensures var q := Noted(cfg, p, KindOf(cfg, o));
      var free := !KindOf(cfg, o).Useless? && o.at - p.lastChangeAt >= cfg.minChangeInterval;
      var up := q.highStreak >= cfg.streakRequired && p.factor < 4;
      var down := q.lowStreak >= cfg.streakRequired && p.factor > 1;
      Decided(cfg, p, o).0 ==
        if free && up then Some(p.factor * 2) else if free && down then Some(p.factor / 2) else None
  {
  }

  /** When a considered observation changes the factor after a run: exactly when its ping is usable, the
      interval is over, and it completes high evidence below the top step, or else low evidence above the
      bottom one. */
  lemma ChangesExactlyOnEvidence(cfg: Config, start: Policy, events: seq<Event>, o: Observation)
    requires Fresh(start) && Considered(Run(cfg, start, events).p)
    ensures var w := Run(cfg, start, events); var h := w.heard + [o];
      var raise := HighEvidence(cfg, h) && w.p.factor < 4;
      var lower := LowEvidence(cfg, h) && w.p.factor > 1;
      var free := Usable(o) && o.at - w.p.lastChangeAt >= cfg.minChangeInterval;
      Decided(cfg, w.p, o).0 == if free && raise then Some(w.p.factor * 2)
                                else if free && lower then Some(w.p.factor / 2) else None
  {
    EveryRunIsSteady(cfg, start, events);
    EvidenceOnStreaks(cfg, Run(cfg, start, events), o);
    DecidedOnStreaks(cfg, Run(cfg, start, events).p, o);
  }
  /** Switched off or overridden by the player, the policy neither changes the factor nor listens. */
  lemma OffChangesNothing(cfg: Config, w: World, o: Observation)
    requires !w.p.enabled || w.p.playerOverride
    ensures Next(cfg, w, Observe(o)) == w
  {
  }

  /** Between two changes a run has heard exactly what it observed while listening. */
  function Heard(cfg: Config, start: Policy, events: seq<Event>, from: nat): seq<Observation>
    requires from <= |events|
    decreases |events|
  {
    if from == |events| then []
    else
      var init, e := events[..|events| - 1], events[|events| - 1];
      var p := Run(cfg, start, init).p;
      Heard(cfg, start, init, from) + if e.Observe? && p.enabled && !p.playerOverride then [e.o] else []
  }

  lemma {:induction false} RunHasHeard(cfg: Config, start: Policy, events: seq<Event>, from: nat)
    requires from <= |events|
    requires from == 0 || |Run(cfg, start, events[..from - 1]).changes| < |Run(cfg, start, events[..from]).changes|
    requires |Run(cfg, start, events).changes| == |Run(cfg, start, events[..from]).changes|
    ensures Run(cfg, start, events).heard == Heard(cfg, start, events, from)
    decreases |events|
  {
    if from == |events| {
      assert events[..from] == events;
      if from > 0 {
        assert events[..from - 1] == events[..|events| - 1];
      }
    } else {
      var init := events[..|events| - 1];
      assert init[..from] == events[..from] && (from > 0 ==> init[..from - 1] == events[..from - 1]);
      ChangesGrow(cfg, start, init, from);
      RunHasHeard(cfg, start, init, from);
    }
  }

  lemma {:induction false} ChangesGrow(cfg: Config, start: Policy, events: seq<Event>, from: nat)
    requires from <= |events|
    ensures |Run(cfg, start, events[..from]).changes| <= |Run(cfg, start, events).changes|
    decreases |events|
  {
    if from == |events| {
      assert events[..from] == events;
    } else {
      var init := events[..|events| - 1];
      assert init[..from] == events[..from];
      ChangesGrow(cfg, start, init, from);
    }
  }
}
