/**
 Grapheme clusters of a display name: the streaming scan against the boundaries it stands for, a subset
 of section 3.1.1 of Unicode Standard Annex 29. A character is its code point; mark says whether its
 general category is Mn, Mc or Me.
 */
module Graphemes {
  import Common

  type Point = int

  const ZWJ := 0x200D

  predicate RegionalIndicator(c: Point) { 0x1F1E6 <= c <= 0x1F1FF }

  predicate EmojiModifier(c: Point) { 0x1F3FB <= c <= 0x1F3FF }

  predicate VariationSelector(c: Point) { 0xFE00 <= c <= 0xFE0F || 0xE0100 <= c <= 0xE01EF }

  datatype Hangul = L | V | T | LV | LVT | NotHangul

  function HangulType(c: Point): Hangul
  {
    if 0x1100 <= c <= 0x115F || 0xA960 <= c <= 0xA97C then L
    else if 0x1160 <= c <= 0x11A7 || 0xD7B0 <= c <= 0xD7C6 then V
    else if 0x11A8 <= c <= 0x11FF || 0xD7CB <= c <= 0xD7FB then T
    else if 0xAC00 <= c <= 0xD7A3 then if (c - 0xAC00) % 28 == 0 then LV else LVT
    else NotHangul
  }

  predicate HangulJoins(previous: Point, current: Point)
  {
    var p, c := HangulType(previous), HangulType(current);
    || (p == L && (c == L || c == V || c == LV || c == LVT))
    || ((p == LV || p == V) && (c == V || c == T))
    || ((p == LVT || p == T) && c == T)
  }

  // ---- boundaries -----------------------------------------------------------------------------------

  /** How many regional indicators come one after another up to position i. */
  function RunBefore(s: seq<Point>, i: nat): (n: nat)
    requires i <= |s|
    ensures n <= i
  {
    if i == 0 || !RegionalIndicator(s[i - 1]) then 0 else 1 + RunBefore(s, i - 1)
  }

  /** Whether a cluster starts at i: a regional indicator starts one unless it completes a pair; any other
      character unless it extends the one before, either side is a joiner, or both are one syllable. */
  predicate Boundary(s: seq<Point>, i: nat, mark: Point -> bool)
    requires i < |s|
  {
    if i == 0 then true
    else if RegionalIndicator(s[i]) then RunBefore(s, i) % 2 == 0
    else !(mark(s[i]) || VariationSelector(s[i]) || EmojiModifier(s[i])
           || s[i] == ZWJ || s[i - 1] == ZWJ || HangulJoins(s[i - 1], s[i]))
  }

  function Flat(cs: seq<seq<Point>>): seq<Point>
  {
    if cs == [] then [] else Flat(cs[..|cs| - 1]) + cs[|cs| - 1]
  }

  function Start(cs: seq<seq<Point>>, k: nat): nat
    requires k <= |cs|
  {
    |Flat(cs[..k])|
  }

  /** The clusters are not empty, make up s, start at boundaries and contain none inside. */
  ghost predicate Segments(s: seq<Point>, cs: seq<seq<Point>>, mark: Point -> bool)
  {
    && Flat(cs) == s
    && (forall k :: 0 <= k < |cs| ==> cs[k] != [] && Cluster(s, Start(cs, k), Start(cs, k + 1), mark))
  }

  ghost predicate Cluster(s: seq<Point>, a: nat, b: nat, mark: Point -> bool)
  {
    a < b <= |s| && Boundary(s, a, mark) && forall i :: a < i < b ==> !Boundary(s, i, mark)
  }

  // ---- the scan -------------------------------------------------------------------------------------

  method GraphemeClusters(value: seq<Point>, mark: Point -> bool) returns (clusters: seq<seq<Point>>)
    ensures Segments(value, clusters, mark)
  {
    clusters := [];
    var regionalRun := 0;
    for i := 0 to |value|
      invariant Segments(value[..i], clusters, mark)
      invariant regionalRun == RunBefore(value, i)
      invariant i > 0 ==> clusters != []
    {
      var c := value[i];
      assert value[..i + 1] == value[..i] + [c];
      RunOfPrefix(value[..i + 1], value, i);
      if clusters == [] {
        Started(value[..i], [], c, mark);
        clusters := [[c]];
        regionalRun := if RegionalIndicator(c) then 1 else 0;
        continue;
      }
      LastOf(clusters);
      var previous := clusters[|clusters| - 1][|clusters[|clusters| - 1]| - 1];
      var joins := mark(c) || VariationSelector(c) || EmojiModifier(c) || c == ZWJ || previous == ZWJ
                   || HangulJoins(previous, c);
      if RegionalIndicator(c) {
        joins := regionalRun % 2 == 1;
      }
      if joins {
        Lengthened(value[..i], clusters, c, mark);
        clusters := clusters[..|clusters| - 1] + [clusters[|clusters| - 1] + [c]];
      } else {
        Started(value[..i], clusters, c, mark);
        clusters := clusters + [[c]];
      }
      if RegionalIndicator(c) {
        regionalRun := regionalRun + 1;
      } else {
        regionalRun := 0;
      }
    }
    assert value[..|value|] == value;
  }

  lemma LastOf(cs: seq<seq<Point>>)
    requires cs != [] && cs[|cs| - 1] != []
    ensures Flat(cs) != [] && Flat(cs)[|Flat(cs)| - 1] == cs[|cs| - 1][|cs[|cs| - 1]| - 1]
  {
  }

  lemma {:induction false} RunOfPrefix(p: seq<Point>, s: seq<Point>, i: nat)
    requires i <= |p| <= |s| && p == s[..|p|]
    ensures RunBefore(p, i) == RunBefore(s, i)
  {
    if i > 0 {
      RunOfPrefix(p, s, i - 1);
    }
  }

  lemma BoundaryOfPrefix(p: seq<Point>, s: seq<Point>, i: nat, mark: Point -> bool)
    requires i < |p| <= |s| && p == s[..|p|]
    ensures Boundary(p, i, mark) == Boundary(s, i, mark)
  {
    RunOfPrefix(p, s, i);
  }

  lemma ClusterOfPrefix(p: seq<Point>, s: seq<Point>, a: nat, b: nat, mark: Point -> bool)
    requires |p| <= |s| && p == s[..|p|] && a < b <= |p|
    ensures Cluster(p, a, b, mark) == Cluster(s, a, b, mark)
  {
    forall i | a <= i < b ensures Boundary(p, i, mark) == Boundary(s, i, mark) {
      BoundaryOfPrefix(p, s, i, mark);
    }
  }

  /** A character at a boundary starts a cluster. */
  lemma Started(s: seq<Point>, cs: seq<seq<Point>>, c: Point, mark: Point -> bool)
    requires Segments(s, cs, mark) && Boundary(s + [c], |s|, mark)
    ensures Segments(s + [c], cs + [[c]], mark)
  {
    var t, n, ds := s + [c], |cs|, cs + [[c]];
    assert ds[..n] == cs && ds[..n + 1] == ds;
    assert Flat(ds) == Flat(cs) + [c];
    assert Start(ds, n) == |s| && Start(ds, n + 1) == |t|;
    forall k | 0 <= k < |ds| ensures ds[k] != [] && Cluster(t, Start(ds, k), Start(ds, k + 1), mark) {
      if k < n {
        assert ds[..k + 1] == cs[..k + 1];
        SamePrefix(cs, ds, k, s, t, mark);
      } else {
        assert Cluster(t, |s|, |t|, mark);
      }
    }
  }

  /** Any other character lengthens the last one. */
  lemma Lengthened(s: seq<Point>, cs: seq<seq<Point>>, c: Point, mark: Point -> bool)
    requires Segments(s, cs, mark) && cs != [] && !Boundary(s + [c], |s|, mark)
    ensures Segments(s + [c], cs[..|cs| - 1] + [cs[|cs| - 1] + [c]], mark)
  {
    var t, n := s + [c], |cs| - 1;
    var ds := cs[..n] + [cs[n] + [c]];
    assert ds[..n] == cs[..n];
    Common.Associates(Flat(cs[..n]), cs[n], [c]);
    assert Flat(ds) == t;
    forall k | 0 <= k < |ds| ensures ds[k] != [] && Cluster(t, Start(ds, k), Start(ds, k + 1), mark) {
      if k < n {
        assert ds[..k + 1] == cs[..k + 1];
        SamePrefix(cs, ds, k, s, t, mark);
      } else {
        assert ds[..k + 1] == ds && cs[..k + 1] == cs;
        assert Cluster(s, Start(cs, n), Start(cs, n + 1), mark);
        ClusterOfPrefix(s, t, Start(cs, n), |s|, mark);
      }
    }
  }

  lemma SamePrefix(cs: seq<seq<Point>>, ds: seq<seq<Point>>, k: nat, s: seq<Point>, t: seq<Point>, mark: Point -> bool)
    requires k < |cs| && k < |ds| && ds[..k + 1] == cs[..k + 1] && Segments(s, cs, mark)
    requires |s| <= |t| && s == t[..|s|]
    ensures ds[k] != [] && Cluster(t, Start(ds, k), Start(ds, k + 1), mark)
  {
    assert ds[..k] == ds[..k + 1][..k] && cs[..k] == cs[..k + 1][..k];
    assert ds[k] == ds[..k + 1][k] && cs[k] == cs[..k + 1][k];
    assert Cluster(s, Start(cs, k), Start(cs, k + 1), mark);
    ClusterOfPrefix(s, t, Start(cs, k), Start(cs, k + 1), mark);
  }

  // ---- what the boundaries promise -------------------------------------------------------------------

  lemma {:induction false} FlatAppend(a: seq<seq<Point>>, b: seq<seq<Point>>)
    ensures Flat(a + b) == Flat(a) + Flat(b)
  {
    if b == [] {
      assert a + b == a;
    } else {
      var n := |b| - 1;
      assert (a + b)[..|a + b| - 1] == a + b[..n];
      FlatAppend(a, b[..n]);
      Common.Associates(Flat(a), Flat(b[..n]), b[n]);
    }
  }

  lemma StartOf(cs: seq<seq<Point>>, k: nat)
    requires k < |cs|
    ensures Start(cs, k) + |cs[k]| == Start(cs, k + 1) <= |Flat(cs)|
    ensures Flat(cs)[Start(cs, k)..Start(cs, k + 1)] == cs[k]
  {
    assert cs[..k + 1][..k] == cs[..k];
    assert cs == cs[..k + 1] + cs[k + 1..];
    FlatAppend(cs[..k + 1], cs[k + 1..]);
  }

  /** A cluster holds a regional indicator only as its first character, or as its second after one. */
  lemma AtMostTwoRegionalIndicators(s: seq<Point>, cs: seq<seq<Point>>, mark: Point -> bool, k: nat, j: nat)
    requires Segments(s, cs, mark) && k < |cs| && j < |cs[k]| && RegionalIndicator(cs[k][j])
    ensures j == 0 || (j == 1 && RegionalIndicator(cs[k][0]))
  {
    var a := Start(cs, k);
    StartOf(cs, k);
    assert cs[k][j] == s[a + j];
    if j > 0 {
      assert cs[k][j - 1] == s[a + j - 1];
      assert !Boundary(s, a + j, mark);
      assert RunBefore(s, a + j - 1) % 2 == 0;
      assert Boundary(s, a + j - 1, mark);
    }
  }

  /** Counting back over s from a + i reaches a exactly when the suffix from a is all indicators so far. */
  lemma {:induction false} RunOfSuffix(s: seq<Point>, a: nat, i: nat)
    requires a + i <= |s|
    ensures RunBefore(s, a + i) == RunBefore(s[a..], i) + if RunBefore(s[a..], i) == i then RunBefore(s, a) else 0
  {
    if i > 0 {
      RunOfSuffix(s, a, i - 1);
    }
  }

  lemma {:induction false} RunIsAllIndicators(s: seq<Point>, i: nat, j: nat)
    requires j < i <= |s| && RunBefore(s, i) == i
    ensures RegionalIndicator(s[j])
  {
    if j < i - 1 {
      RunIsAllIndicators(s, i - 1, j);
    }
  }

  lemma BoundaryOfSuffix(s: seq<Point>, a: nat, i: nat, mark: Point -> bool)
    requires a + i < |s| && Boundary(s, a, mark)
    ensures Boundary(s[a..], i, mark) == Boundary(s, a + i, mark)
  {
    var t := s[a..];
    if i > 0 {
      assert t[i] == s[a + i] && t[i - 1] == s[a + i - 1];
      RunOfSuffix(s, a, i);
      if RunBefore(t, i) == i {
        RunIsAllIndicators(t, i, 0);
        assert t[0] == s[a];
      }
    }
  }

  /** Cutting between any two clusters and segmenting both halves again gives the same clusters. */
  lemma CutsResegment(s: seq<Point>, cs: seq<seq<Point>>, mark: Point -> bool, n: nat)
    requires Segments(s, cs, mark) && n <= |cs|
    ensures Segments(Flat(cs[..n]), cs[..n], mark) && Segments(Flat(cs[n..]), cs[n..], mark)
    ensures Flat(cs[..n]) + Flat(cs[n..]) == s
  {
    var a, ps, qs := Start(cs, n), cs[..n], cs[n..];
    assert cs == ps + qs;
    FlatAppend(ps, qs);
    assert Flat(ps) == s[..a] && Flat(qs) == s[a..];
    forall k | 0 <= k < |ps| ensures ps[k] != [] && Cluster(s[..a], Start(ps, k), Start(ps, k + 1), mark) {
      assert ps[..k] == cs[..k] && ps[..k + 1] == cs[..k + 1];
      StartOf(ps, k);
      assert Cluster(s, Start(cs, k), Start(cs, k + 1), mark);
      ClusterOfPrefix(s[..a], s, Start(ps, k), Start(ps, k + 1), mark);
    }
    forall k | 0 <= k < |qs| ensures qs[k] != [] && Cluster(s[a..], Start(qs, k), Start(qs, k + 1), mark) {
      SuffixCluster(s, cs, mark, n, k);
    }
  }

  lemma StartOfSuffix(cs: seq<seq<Point>>, n: nat, k: nat)
    requires n + k <= |cs|
    ensures Start(cs, n + k) == Start(cs, n) + Start(cs[n..], k)
  {
    assert cs[..n + k] == cs[..n] + cs[n..][..k];
    FlatAppend(cs[..n], cs[n..][..k]);
  }

  lemma SuffixCluster(s: seq<Point>, cs: seq<seq<Point>>, mark: Point -> bool, n: nat, k: nat)
    requires Segments(s, cs, mark) && n + k < |cs| && Start(cs, n) <= |s|
    ensures cs[n..][k] != [] && Cluster(s[Start(cs, n)..], Start(cs[n..], k), Start(cs[n..], k + 1), mark)
  {
    StartOfSuffix(cs, n, k);
    StartOfSuffix(cs, n, k + 1);
    assert Cluster(s, Start(cs, n), Start(cs, n + 1), mark) && Cluster(s, Start(cs, n + k), Start(cs, n + k + 1), mark);
    ClusterOfSuffix(s, Start(cs, n), Start(cs[n..], k), Start(cs[n..], k + 1), mark);
  }

  lemma ClusterOfSuffix(s: seq<Point>, a: nat, b: nat, e: nat, mark: Point -> bool)
    requires a + b < |s| && Boundary(s, a, mark) && Cluster(s, a + b, a + e, mark)
    ensures Cluster(s[a..], b, e, mark)
  {
    forall i | b <= i < e ensures Boundary(s[a..], i, mark) == Boundary(s, a + i, mark) {
      BoundaryOfSuffix(s, a, i, mark);
    }
  }

  /** The last cluster runs from the last boundary to the end; the ones before it segment the rest. */
  lemma LastCluster(s: seq<Point>, cs: seq<seq<Point>>, mark: Point -> bool)
    requires Segments(s, cs, mark) && cs != []
    ensures var n := |cs| - 1; var a := Start(cs, n);
      Cluster(s, a, |s|, mark) && cs[n] == s[a..] && Segments(s[..a], cs[..n], mark)
  {
    var n := |cs| - 1;
    assert cs[..n + 1] == cs;
    assert Cluster(s, Start(cs, n), Start(cs, n + 1), mark);
    CutsResegment(s, cs, mark, n);
    StartOf(cs, n);
    assert Flat(cs[..n]) == s[..Start(cs, n)];
  }

  /** Boundaries leave no choice: there is one way to segment a text. */
  lemma {:induction false} OneSegmentation(s: seq<Point>, a: seq<seq<Point>>, b: seq<seq<Point>>, mark: Point -> bool)
    requires Segments(s, a, mark) && Segments(s, b, mark)
    ensures a == b
    decreases |a|
  {
    if a == [] || b == [] {
      if a != [] { LastOf(a); }
      if b != [] { LastOf(b); }
    } else {
      var m, n := |a| - 1, |b| - 1;
      LastCluster(s, a, mark);
      LastCluster(s, b, mark);
      OneSegmentation(s[..Start(a, m)], a[..m], b[..n], mark);
      assert a == a[..m] + [a[m]] && b == b[..n] + [b[n]];
    }
  }

  // ---- validation ----------------------------------------------------------------------------------

  const MAX_UTF16_UNITS := 16
  const MIXER_WRAP := 8

  datatype Validated =
    | EmptyName
    | ControlCharacter
    | Unsupported
    | TooLong
    | Name(value: seq<Point>, units: nat, graphemes: seq<seq<Point>>, firstLine: seq<Point>, secondLine: seq<Point>)

  function Utf16Units(s: seq<Point>): (n: nat)
    ensures |s| <= n
  {
    if s == [] then 0 else (if s[0] < 0x10000 then 1 else 2) + Utf16Units(s[1..])
  }

  /** How many characters need two units. */
  function Astral(s: seq<Point>): nat
  {
    if s == [] then 0 else Astral(s[..|s| - 1]) + if s[|s| - 1] >= 0x10000 then 1 else 0
  }

  lemma {:induction false} UnitsAppend(s: seq<Point>, c: Point)
    ensures Utf16Units(s + [c]) == Utf16Units(s) + if c < 0x10000 then 1 else 2
  {
    if s == [] {
      assert s + [c] == [c] && [c][1..] == [];
    } else {
      assert (s + [c])[1..] == s[1..] + [c];
      UnitsAppend(s[1..], c);
    }
  }

  lemma {:induction false} UnitsExactly(s: seq<Point>)
    ensures Utf16Units(s) == |s| + Astral(s)
  {
    if s != [] {
      UnitsExactly(s[..|s| - 1]);
      UnitsAppend(s[..|s| - 1], s[|s| - 1]);
      assert s == s[..|s| - 1] + [s[|s| - 1]];
    }
  }

  predicate Surrogate(c: Point) { 0xD800 <= c <= 0xDFFF }

  predicate Holds(s: seq<Point>, p: Point -> bool)
  {
    exists i :: 0 <= i < |s| && p(s[i])
  }

  /** The mixer's two lines are segmented by themselves into what the whole name was segmented into, at most
      eight clusters each, the first line full before the second is used. */
  ghost predicate MixerLines(r: Validated, mark: Point -> bool, a: seq<seq<Point>>, b: seq<seq<Point>>)
    requires r.Name?
  {
    && Segments(r.firstLine, a, mark) && Segments(r.secondLine, b, mark) && a + b == r.graphemes
    && |a| <= MIXER_WRAP && |b| <= MIXER_WRAP && (b == [] || |a| == MIXER_WRAP)
  }

  /** banned: category Cc, Cs, Zl or Zp, or Cf other than the two joiners. name has been stripped. */
  method Validate(name: seq<Point>, mark: Point -> bool, banned: Point -> bool) returns (r: Validated)
    ensures r.EmptyName? <==> name == []
    ensures r.ControlCharacter? <==> Holds(name, banned)
    ensures r.Unsupported? <==> !Holds(name, banned) && exists i :: 0 <= i < |name| && 0xD800 <= name[i] <= 0xDFFF
    ensures r.TooLong? <==> !Holds(name, banned) && !Holds(name, Surrogate) && |name| + Astral(name) > 16
    ensures r.Name? ==> r.value == name && r.units == |name| + Astral(name) <= 16
    ensures r.Name? ==> Segments(name, r.graphemes, mark)
    ensures r.Name? ==> r.firstLine + r.secondLine == name && r.firstLine != []
    ensures r.Name? ==> exists a, b :: MixerLines(r, mark, a, b)
  {
    SurrogatesAre(name);
    if name == [] { return EmptyName; }
    for i := 0 to |name|
      invariant forall k :: 0 <= k < i ==> !banned(name[k])
    {
      if banned(name[i]) { return ControlCharacter; }
    }
    if Holds(name, Surrogate) { return Unsupported; }
    UnitsExactly(name);
    var units := Utf16Units(name);
    if units > MAX_UTF16_UNITS { return TooLong; }
    var clusters := GraphemeClusters(name, mark);
    var n := if |clusters| < MIXER_WRAP then |clusters| else MIXER_WRAP;
    SplitsForMixer(name, units, clusters, mark, n);
    return Name(name, units, clusters, Flat(clusters[..n]), Flat(clusters[n..]));
  }

  /** Cutting after the eighth cluster, or not at all, gives the mixer its two lines. */
  lemma SplitsForMixer(name: seq<Point>, units: nat, clusters: seq<seq<Point>>, mark: Point -> bool, n: nat)
    requires Segments(name, clusters, mark) && name != [] && |name| <= 16
    requires n == if |clusters| < MIXER_WRAP then |clusters| else MIXER_WRAP
    ensures var r := Name(name, units, clusters, Flat(clusters[..n]), Flat(clusters[n..]));
      && r.firstLine + r.secondLine == name && r.firstLine != []
      && exists a, b :: MixerLines(r, mark, a, b)
  {
    ClustersAreFewer(clusters);
    CutsResegment(name, clusters, mark, n);
    assert clusters == clusters[..n] + clusters[n..];
    FlatAppend(clusters[..n], clusters[n..]);
    if n > 0 { LastOf(clusters[..n]); }
    var r := Name(name, units, clusters, Flat(clusters[..n]), Flat(clusters[n..]));
    assert MixerLines(r, mark, clusters[..n], clusters[n..]);
  }

  lemma SurrogatesAre(s: seq<Point>)
    ensures Holds(s, Surrogate) <==> exists i :: 0 <= i < |s| && 0xD800 <= s[i] <= 0xDFFF
  {
    if i :| 0 <= i < |s| && 0xD800 <= s[i] <= 0xDFFF {
      assert Surrogate(s[i]);
    }
    if i :| 0 <= i < |s| && Surrogate(s[i]) {
      assert 0xD800 <= s[i] <= 0xDFFF;
    }
  }

  lemma {:induction false} ClustersAreFewer(cs: seq<seq<Point>>)
    requires forall k :: 0 <= k < |cs| ==> cs[k] != []
    ensures |cs| <= |Flat(cs)|
  {
    if cs != [] {
      ClustersAreFewer(cs[..|cs| - 1]);
    }
  }
}
