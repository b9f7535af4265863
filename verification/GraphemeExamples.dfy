/**
 What the segmentation makes of the texts it is for: plain letters, Hangul written either way, flags, and
 emoji put together from several characters.
 */
module GraphemeExamples {
  import opened Graphemes

  /** A text without a boundary inside is one cluster. */
  lemma OneCluster(s: seq<Point>, mark: Point -> bool)
    requires s != [] && forall i :: 0 < i < |s| ==> !Boundary(s, i, mark)
    ensures Segments(s, [s], mark)
  {
    assert [s][..0] == [] && [s][..1] == [s];
    assert Flat([s]) == s;
    assert Cluster(s, 0, |s|, mark);
  }

  /** Letters, digits and the other characters of ASCII stand alone. */
  lemma {:induction false} AsciiStandsAlone(s: seq<Point>, mark: Point -> bool)
    requires forall i :: 0 <= i < |s| ==> 0x20 <= s[i] <= 0x7E && !mark(s[i])
    ensures Segments(s, seq(|s|, i requires 0 <= i < |s| => [s[i]]), mark)
  {
    if s == [] {
      assert seq(|s|, i requires 0 <= i < |s| => [s[i]]) == [];
    } else {
      var n := |s| - 1;
      AsciiStandsAlone(s[..n], mark);
      var cs := seq(n, i requires 0 <= i < n => [s[i]]);
      assert cs == seq(|s[..n]|, i requires 0 <= i < |s[..n]| => [s[..n][i]]);
      assert s[..n] + [s[n]] == s;
      Started(s[..n], cs, s[n], mark);
      assert cs + [[s[n]]] == seq(|s|, i requires 0 <= i < |s| => [s[i]]);
    }
  }

  // ---- Hangul: 19 leading consonants, 21 vowels, and 27 trailing consonants or none ---------------------

  function Leading(l: nat): Point { 0x1100 + l }

  function Vowel(v: nat): Point { 0x1161 + v }

  function Trailing(t: nat): Point { 0x11A7 + t }

  predicate Syllable(l: nat, v: nat, t: nat) { l < 19 && v < 21 && t < 28 }

  /** The one character of a syllable, arranged as in section 3.12 of the Unicode Standard. */
  function Precomposed(l: nat, v: nat, t: nat): Point
  {
    0xAC00 + (l * 21 + v) * 28 + t
  }

  function Decomposed(l: nat, v: nat, t: nat): seq<Point>
  {
    [Leading(l), Vowel(v)] + if t == 0 then [] else [Trailing(t)]
  }

  lemma PrecomposedType(l: nat, v: nat, t: nat)
    requires Syllable(l, v, t)
    ensures HangulType(Precomposed(l, v, t)) == if t == 0 then LV else LVT
  {
    var k := l * 21 + v;
    assert 0 <= k <= 18 * 21 + 20;
    assert (28 * k + t) % 28 == t;
  }

  /** A syllable written letter by letter is one cluster, like the one written as one character. */
  lemma DecomposedIsOneCluster(l: nat, v: nat, t: nat, mark: Point -> bool)
    requires Syllable(l, v, t)
    ensures Segments(Decomposed(l, v, t), [Decomposed(l, v, t)], mark)
  {
    OneCluster(Decomposed(l, v, t), mark);
  }

  /** A syllable character takes on a trailing consonant, and a vowel exactly when it has no trailing consonant
      of its own. */
  lemma SyllableTakesOn(l: nat, v: nat, t: nat, mark: Point -> bool, v': nat, t': nat)
    requires Syllable(l, v, t) && v' < 21 && 0 < t' < 28 && !mark(Vowel(v'))
    ensures var s := Precomposed(l, v, t);
      && Segments([s, Trailing(t')], [[s, Trailing(t')]], mark)
      && (Boundary([s, Vowel(v')], 1, mark) <==> t > 0)
  {
    PrecomposedType(l, v, t);
    OneCluster([Precomposed(l, v, t), Trailing(t')], mark);
  }

  /** A syllable, in either writing, ends where the next one starts. */
  lemma SyllablesApart(s: seq<Point>, i: nat, l: nat, v: nat, t: nat, l': nat, v': nat, t': nat, mark: Point -> bool)
    requires Syllable(l, v, t) && Syllable(l', v', t') && 0 < i < |s|
    requires s[i - 1] == Precomposed(l, v, t) || s[i - 1] == Vowel(v) || (t > 0 && s[i - 1] == Trailing(t))
    requires s[i] == Precomposed(l', v', t') || s[i] == Leading(l')
    requires !mark(s[i])
    ensures Boundary(s, i, mark)
  {
    PrecomposedType(l, v, t);
    PrecomposedType(l', v', t');
    assert 0xAC00 <= Precomposed(l', v', t') <= 0xD7A3 && 0xAC00 <= Precomposed(l, v, t) <= 0xD7A3;
  }

  // ---- flags and emoji -------------------------------------------------------------------------------------

  /** The regional indicator of the k-th letter. */
  function Letter(k: nat): Point { 0x1F1E6 + k }

  /** Two regional letters are one flag; of four, the second pair starts another. */
  lemma FlagsPairUp(a: nat, b: nat, c: nat, d: nat, mark: Point -> bool)
    requires a < 26 && b < 26 && c < 26 && d < 26
    ensures var flags := [Letter(a), Letter(b), Letter(c), Letter(d)];
      Segments([Letter(a), Letter(b)], [[Letter(a), Letter(b)]], mark)
      && Boundary(flags, 2, mark) && !Boundary(flags, 1, mark) && !Boundary(flags, 3, mark)
  {
    var flags := [Letter(a), Letter(b), Letter(c), Letter(d)];
    assert RunBefore(flags, 0) == 0 && RunBefore(flags, 1) == 1 && RunBefore(flags, 2) == 2 && RunBefore(flags, 3) == 3;
    var s := [Letter(a), Letter(b)];
    assert RunBefore(s, 0) == 0 && RunBefore(s, 1) == 1;
    OneCluster(s, mark);
  }

  /** One of the five skin tones, one of the 256 variation selectors, the joiner, or a mark. */
  predicate Extends(c: Point, mark: Point -> bool)
  {
    mark(c) || 0x1F3FB <= c < 0x1F3FB + 5 || 0xFE00 <= c < 0xFE00 + 16 || 0xE0100 <= c < 0xE0100 + 240 || c == 0x200D
  }

  /** Whatever a character is followed by of these, and whatever else but a regional letter comes after a joiner,
      is one cluster with it. */
  lemma EmojiIsOneCluster(s: seq<Point>, mark: Point -> bool)
    requires s != []
    requires forall i :: 0 < i < |s| ==>
      !(Letter(0) <= s[i] <= Letter(25)) && (Extends(s[i], mark) || s[i - 1] == 0x200D)
    ensures Segments(s, [s], mark)
  {
    OneCluster(s, mark);
  }

  // ---- the rest of the Hangul letters --------------------------------------------------------------------

  /** The letters of old Hangul, 96 leading, 72 vowels and 88 trailing in the first block, 29 leading in the
      second, 23 vowels and 49 trailing in the third, make syllables in the same way: any leading letters, then any
      vowels, then any trailing ones are one cluster. */
  predicate OldLeading(c: Point) { 0x1100 <= c < 0x1100 + 96 || 0xA960 <= c < 0xA960 + 29 }

  predicate OldVowel(c: Point) { 0x1160 <= c < 0x1160 + 72 || 0xD7B0 <= c < 0xD7B0 + 23 }

  predicate OldTrailing(c: Point) { 0x11A8 <= c < 0x11A8 + 88 || 0xD7CB <= c < 0xD7CB + 49 }

  lemma OldSyllableIsOneCluster(s: seq<Point>, a: nat, b: nat, mark: Point -> bool)
    requires 0 < a < b <= |s|
    requires forall i :: 0 <= i < a ==> OldLeading(s[i])
    requires forall i :: a <= i < b ==> OldVowel(s[i])
    requires forall i :: b <= i < |s| ==> OldTrailing(s[i])
    ensures Segments(s, [s], mark)
  {
    OneCluster(s, mark);
  }

  /** And nothing else joins them. */
  lemma OthersStandApart(s: seq<Point>, i: nat, mark: Point -> bool)
    requires 0 < i < |s| && !Extends(s[i], mark) && s[i - 1] != 0x200D && !(Letter(0) <= s[i] <= Letter(25))
    requires !OldLeading(s[i]) && !OldVowel(s[i]) && !OldTrailing(s[i]) && !(0xAC00 <= s[i] <= 0xD7A3)
    ensures Boundary(s, i, mark)
  {
  }
}
