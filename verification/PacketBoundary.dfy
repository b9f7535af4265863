/** What the CRC does not detect: the errors that are multiples of its polynomial, twelve of them bursts. */
module PacketBoundary {
  import opened Bits
  import opened PacketCodec
  import opened PacketBursts

  // ---- what goes undetected ------------------------------------------------------------------------

  /** raw with the bits of error flipped. */
  function Added(raw: seq<Byte>, error: seq<Byte>): (r: seq<Byte>)
    requires |raw| == |error|
    ensures |r| == |raw| && forall k :: 0 <= k < |r| ==> r[k] == Xor(raw[k], error[k])
  {
    seq(|raw|, k requires 0 <= k < |raw| && |raw| == |error| => Xor(raw[k], error[k]))
  }

  lemma AbsorbIsLinear(c: Word, d: Word, a: Byte, x: Byte)
    ensures Absorb(Xor(c, d), Xor(a, x)) == Xor(Absorb(c, a), Absorb(d, x))
  {
    assert Xor(Xor(c, d), Zeros(8) + Xor(a, x)) == Xor(Xor(c, Zeros(8) + a), Xor(d, Zeros(8) + x));
    ShiftedIsLinear(Xor(c, Zeros(8) + a), Xor(d, Zeros(8) + x), 8);
  }

  lemma {:induction false} RegisterIsLinear(c: Word, d: Word, raw: seq<Byte>, error: seq<Byte>)
    requires |raw| == |error|
    ensures Register(Xor(c, d), Added(raw, error)) == Xor(Register(c, raw), Register(d, error))
  {
    if raw != [] {
      var n := |raw| - 1;
      assert Added(raw, error)[..n] == Added(raw[..n], error[..n]);
      RegisterIsLinear(c, d, raw[..n], error[..n]);
      AbsorbIsLinear(Register(c, raw[..n]), Register(d, error[..n]), raw[n], error[n]);
    }
  }

  lemma Matches(r: Word, v: Word, w: Word)
    ensures Xor(Xor(r, Ones(16)), w) == Xor(Xor(r, v), Ones(16)) <==> v == w
  {
    assert Xor(Xor(r, Ones(16)), w) == Xor(w, Xor(r, Ones(16)));
    assert Xor(Xor(r, v), Ones(16)) == Xor(v, Xor(r, Ones(16)));
    if Xor(w, Xor(r, Ones(16))) == Xor(v, Xor(r, Ones(16))) {
      XorCancels(w, v, Xor(r, Ones(16)));
    }
  }

  /** Whatever the datagram says, an error outside its length field goes undetected exactly when what it does
      to the CRC field is the register of what it does to everything before. */
  lemma UndetectedExactly(raw: seq<Byte>, error: seq<Byte>)
    requires Parse(raw).Some? && |error| == |raw| && WordAt(error, 4) == Zeros(16)
    ensures var n := DataLength(raw);
      Parse(Added(raw, error)).Some? <==> WordAt(error, 6 + n) == Register(Zeros(16), error[..6 + n])
  {
    var n, bad := DataLength(raw), Added(raw, error);
    assert WordAt(bad, 4) == Xor(WordAt(raw, 4), WordAt(error, 4)) == WordAt(raw, 4);
    assert WordAt(bad, 6 + n) == Xor(WordAt(raw, 6 + n), WordAt(error, 6 + n));
    assert bad[..6 + n] == Added(raw[..6 + n], error[..6 + n]);
    assert Xor(Ones(16), Zeros(16)) == Ones(16);
    RegisterIsLinear(Ones(16), Zeros(16), raw[..6 + n], error[..6 + n]);
    Matches(Register(Ones(16), raw[..6 + n]), Register(Zeros(16), error[..6 + n]), WordAt(error, 6 + n));
  }

  predicate Untouched(error: seq<Byte>, n: nat)
    requires n <= |error|
  {
    forall k :: 0 <= k < n ==> error[k] == Zeros(8)
  }

  lemma {:induction false} ShiftedZeros(n: nat)
    ensures Shifted(Zeros(16), n) == Zeros(16)
  {
    if n > 0 {
      ShiftedZeros(n - 1);
      assert Shift(Zeros(16)) == Zeros(16);
    }
  }

  lemma {:induction false} RegisterOfNothing(error: seq<Byte>)
    requires Untouched(error, |error|)
    ensures Register(Zeros(16), error) == Zeros(16)
  {
    if error != [] {
      RegisterOfNothing(error[..|error| - 1]);
      assert Xor(Zeros(16), Zeros(8) + Zeros(8)) == Zeros(16);
      ShiftedZeros(8);
    }
  }

  function Joined(low: Byte, high: Byte): Word
  {
    low + high
  }

  /** The register of an error in the last two bytes only. */
  lemma RegisterOfLastTwo(error: seq<Byte>)
    requires |error| >= 2 && Untouched(error, |error| - 2)
    ensures Register(Zeros(16), error) == Shifted(Joined(error[|error| - 1], error[|error| - 2]), 16)
  {
    var n := |error| - 2;
    RegisterOfNothing(error[..n]);
    assert error[..n + 1][..n] == error[..n];
    AbsorbTwo(error[n], error[n + 1]);
  }

  lemma AbsorbTwo(a: Byte, b: Byte)
    ensures Absorb(Absorb(Zeros(16), a), b) == Shifted(b + a, 16)
  {
    var c := Zeros(16);
    ByteIsFed(c, a);
    ByteIsFed(Fed(c, ByteBits(a)), b);
    FedAppend(c, ByteBits(a), ByteBits(b));
    FedIsShifted(c, ByteBits(a) + ByteBits(b));
    TwoAtTop(a, b);
  }

  lemma TwoAtTop(a: Byte, b: Byte)
    ensures Xor(Zeros(16), AtTop(ByteBits(a) + ByteBits(b))) == b + a
  {
    var bits := ByteBits(a) + ByteBits(b);
    forall i | 0 <= i < 16 ensures bits[15 - i] == (b + a)[i] {
    }
  }

  // ---- multiples of the polynomial ----------------------------------------------------------------------

  /** The high and the low word of the product of q and the polynomial. */
  function Front(q: Word): (r: Word)
    ensures forall p :: 0 <= p < 16 ==> r[p] == ((q[p] != (p < 12 && q[p + 4])) != (p < 5 && q[p + 11]))
  {
    seq(16, p requires 0 <= p < 16 => (q[p] != (p < 12 && q[p + 4])) != (p < 5 && q[p + 11]))
  }

  function Back(q: Word): (r: Word)
    ensures forall p :: 0 <= p < 16 ==> r[p] == ((q[p] != (p >= 5 && q[p - 5])) != (p >= 12 && q[p - 12]))
  {
    seq(16, p requires 0 <= p < 16 => (q[p] != (p >= 5 && q[p - 5])) != (p >= 12 && q[p - 12]))
  }

  /** Bit p of the front of q after n shifts: what is left of it, and a copy of the polynomial for every top bit
      shifted out, which were those of q. */
  predicate Trace(q: Word, n: nat, p: nat)
    requires n <= 16 && p < 16
  {
    var left := n <= p && Front(q)[p - n];
    var at0 := p < n && q[16 - n + p];
    var at5 := 5 <= p < 5 + n && q[16 - n + p - 5];
    var at12 := 12 <= p < 12 + n && q[16 - n + p - 12];
    ((left != at0) != at5) != at12
  }

  lemma TraceTop(q: Word, n: nat)
    requires n < 16
    ensures Trace(q, n, 15) == q[15 - n]
  {
  }

  lemma TraceStep(q: Word, n: nat, p: nat)
    requires n < 16 && p < 16
    ensures Trace(q, n + 1, p) == ((p > 0 && Trace(q, n, p - 1)) != (q[15 - n] && (p == 0 || p == 5 || p == 12)))
  {
  }

  lemma ShiftFollows(c: Word, q: Word, n: nat, p: nat)
    requires n < 16 && p < 16 && forall i :: 0 <= i < 16 ==> c[i] == Trace(q, n, i)
    ensures Shift(c)[p] == Trace(q, n + 1, p)
  {
    TraceTop(q, n);
    TraceStep(q, n, p);
    ShiftBit(c, p);
  }

  lemma {:induction false} ShiftedIsTrace(q: Word, n: nat)
    requires n <= 16
    ensures forall p :: 0 <= p < 16 ==> Shifted(Front(q), n)[p] == Trace(q, n, p)
  {
    if n > 0 {
      ShiftedIsTrace(q, n - 1);
      var c := Shifted(Front(q), n - 1);
      forall p | 0 <= p < 16 ensures Shift(c)[p] == Trace(q, n, p) {
        ShiftFollows(c, q, n - 1, p);
      }
    }
  }

  lemma ShiftedIsBack(q: Word)
    ensures Shifted(Front(q), 16) == Back(q)
  {
    ShiftedIsTrace(q, 16);
    forall p | 0 <= p < 16 ensures Trace(q, 16, p) == Back(q)[p] {
    }
  }

  /** Bit p of the quotient of x, moved up sixteen places, by the polynomial. */
  predicate Divided(x: Word, p: nat)
    requires p < 16
    decreases 16 - p
  {
    (x[p] != (p < 12 && Divided(x, p + 4))) != (p < 5 && Divided(x, p + 11))
  }

  function Quotient(x: Word): (q: Word)
    ensures Front(q) == x
  {
    var q: Word := seq(16, p requires 0 <= p < 16 => Divided(x, p));
    assert forall p :: 0 <= p < 16 ==> Front(q)[p] == x[p];
    q
  }

  // ---- the boundary -------------------------------------------------------------------------------------

  /** Bit m, in packet order, of two bytes that hold x high byte first and two that hold t low byte first. */
  predicate Wire(x: Word, t: Word, m: nat)
    requires m < 32
  {
    if m < 16 then x[15 - m] else if m < 24 then t[23 - m] else t[39 - m]
  }

  /** The bits flipped by a burst that passes, counted from the beginning of the second last byte before the
      CRC field. */
  const UNDETECTED: seq<set<int>> := [
    {15, 18, 23, 27},
    {14, 17, 22, 26},
    {14, 15, 17, 18, 22, 23, 26, 27},
    {13, 16, 21, 25},
    {13, 15, 16, 18, 21, 23, 25, 27},
    {13, 14, 16, 17, 21, 22, 25, 26},
    {13, 14, 15, 16, 17, 18, 21, 22, 23, 25, 26, 27},
    {8, 12, 15, 16, 18, 23},
    {4, 8, 9, 13, 15, 17},
    {3, 7, 8, 12, 14, 16},
    {3, 4, 7, 9, 12, 13, 14, 15, 16, 17},
    {6, 10, 11, 13, 15, 16, 19, 21}
  ]

  /** The multiple of the polynomial that each of them is. */
  const MULTIPLIERS: seq<set<int>> := [
    {0},
    {1},
    {0, 1},
    {2},
    {0, 2},
    {1, 2},
    {0, 1, 2},
    {0, 7},
    {6, 11},
    {7, 12},
    {6, 7, 11, 12},
    {2, 4, 9}
  ]

  ghost predicate Listed(q: Word, k: nat)
    requires k < |MULTIPLIERS|
  {
    forall p :: 0 <= p < 16 ==> (q[p] <==> p in MULTIPLIERS[k])
  }

  ghost predicate Shows(x: Word, t: Word, u: set<int>)
  {
    forall m :: 0 <= m < 32 ==> (Wire(x, t, m) <==> m in u)
  }

  lemma ListedShowsFront(q: Word, k: nat, p: nat)
    requires k < |MULTIPLIERS| && Listed(q, k) && p < 16
    ensures Front(q)[p] <==> 15 - p in UNDETECTED[k]
  {
    assert q[p] == (p in MULTIPLIERS[k]);
    assert (p < 12 ==> q[p + 4] == (p + 4 in MULTIPLIERS[k])) && (p < 5 ==> q[p + 11] == (p + 11 in MULTIPLIERS[k]));
    if k < 4 {
    } else if k < 8 {
    }
  }

  lemma ListedShowsBack(q: Word, k: nat, p: nat)
    requires k < |MULTIPLIERS| && Listed(q, k) && p < 16
    ensures Back(q)[p] <==> (if p < 8 then 23 - p else 39 - p) in UNDETECTED[k]
  {
    assert q[p] == (p in MULTIPLIERS[k]);
    assert (p >= 5 ==> q[p - 5] == (p - 5 in MULTIPLIERS[k])) && (p >= 12 ==> q[p - 12] == (p - 12 in MULTIPLIERS[k]));
    if k < 4 {
    } else if k < 8 {
    }
  }

  /** Nothing outside the sixteen bits from s on. */
  ghost predicate Within(x: Word, t: Word, s: nat)
  {
    forall m :: 0 <= m < 32 && (m < s || s + 16 <= m) ==> !Wire(x, t, m)
  }

  lemma WithinBits(x: Word, t: Word, s: nat)
    requires Within(x, t, s)
    ensures forall p :: 0 <= p < 16 && 15 - p < s ==> !x[p]
    ensures forall p :: 0 <= p < 8 && s <= 7 - p ==> !t[p]
    ensures forall p :: 8 <= p < 16 && s <= 23 - p ==> !t[p]
  {
    forall p | 0 <= p < 16 && 15 - p < s ensures !x[p] {
      assert !Wire(x, t, 15 - p);
    }
    forall p | 0 <= p < 8 && s <= 7 - p ensures !t[p] {
      assert !Wire(x, t, 23 - p);
    }
    forall p | 8 <= p < 16 && s <= 23 - p ensures !t[p] {
      assert !Wire(x, t, 39 - p);
    }
  }

  /** The quotient reaches no higher than what it divides. */
  lemma {:induction false} NoHigher(q: Word, c: nat)
    requires c <= 16 && forall p :: c <= p < 16 ==> !Front(q)[p]
    ensures forall p :: c <= p < 16 ==> !q[p]
    decreases 16 - c
  {
    if c < 16 {
      NoHigher(q, c + 1);
      assert !Front(q)[c];
    }
  }

  /** A multiple that begins in the byte before the CRC field. */
  lemma LateMultiple(q: Word, c: nat)
    requires c <= 8 && (forall p :: c <= p < 16 ==> !q[p]) && (forall p :: 8 <= p < 16 && p < c + 8 ==> !Back(q)[p])
    ensures (forall p :: 3 <= p < 16 ==> !q[p]) || (q[0] && q[7] && forall p :: 0 < p < 16 && p != 7 ==> !q[p])
  {
    var t := Back(q);
    assert c > 0 ==> !t[8];
    assert (c > 1 ==> !t[9]) && (c > 2 ==> !t[10]) && (c > 3 ==> !t[11]) && (c > 4 ==> !t[12]);
    assert (c > 5 ==> !t[13]) && (c > 6 ==> !t[14]) && (c > 7 ==> !t[15]);
  }

  /** A multiple that begins one byte earlier. */
  lemma EarlyMultiple(q: Word, c: nat)
    requires 8 < c <= 16 && (forall p :: c <= p < 16 ==> !q[p]) && (forall p :: 8 <= p < 16 ==> !Back(q)[p])
    requires forall p :: 0 <= p < 8 && p < c - 8 ==> !Back(q)[p]
    ensures !q[0] && !q[1] && !q[3] && !q[5] && !q[8] && !q[10] && !q[13] && !q[14] && !q[15]
    ensures q[2] == q[4] == q[9] && q[6] == q[11] && q[7] == q[12] && !(q[2] && (q[6] || q[7]))
  {
    var t := Back(q);
    assert !t[8] && !t[9] && !t[10] && !t[11] && !t[12] && !t[13] && !t[14] && !t[15];
    assert q[8] == q[3] && q[9] == q[4] && q[10] == q[5] && q[11] == q[6];
    assert !t[0] && !q[0] && q[12] == q[7];
    assert q[13] == (q[8] != q[1]) && q[14] == (q[9] != q[2]) && q[15] == (q[10] != q[3]);
    if c <= 12 {
      assert !q[12] && !q[13] && !q[14] && !q[15];
      assert (c > 9 ==> !t[1]) && (c > 10 ==> !t[2]) && (c > 11 ==> !t[3]);
      assert (c <= 9 ==> !q[9]) && (c <= 10 ==> !q[10]) && (c <= 11 ==> !q[11]);
    } else {
      assert !t[1] && !t[2] && !t[3] && !t[4];
      assert (c > 13 ==> !t[5]) && (c > 14 ==> !t[6]) && (c > 15 ==> !t[7]);
      assert (c <= 13 ==> !q[13]) && (c <= 14 ==> !q[14]) && (c <= 15 ==> !q[15]);
    }
  }

  lemma LateIsListed(q: Word)
    requires (forall p :: 3 <= p < 16 ==> !q[p]) || (q[0] && q[7] && forall p :: 0 < p < 16 && p != 7 ==> !q[p])
    ensures q == Zeros(16) || exists k :: 0 <= k < |MULTIPLIERS| && Listed(q, k)
  {
    if q[7] {
      assert Listed(q, 7);
    } else if q != Zeros(16) {
      assert q[0] || q[1] || q[2];
      var k := (if q[0] then 0 else -1) + (if q[1] then 2 else 0) + (if q[2] then 4 else 0);
      assert Listed(q, k);
    }
  }

  lemma EarlyIsListed(q: Word)
    requires !q[0] && !q[1] && !q[3] && !q[5] && !q[8] && !q[10] && !q[13] && !q[14] && !q[15]
    requires q[2] == q[4] == q[9] && q[6] == q[11] && q[7] == q[12] && !(q[2] && (q[6] || q[7]))
    ensures q == Zeros(16) || exists k :: 0 <= k < |MULTIPLIERS| && Listed(q, k)
  {
    if q[2] {
      assert Listed(q, 11);
    } else if q[6] || q[7] {
      assert Listed(q, if !q[7] then 8 else if !q[6] then 9 else 10);
    }
  }

  /** A multiple within sixteen consecutive bits is nothing or listed. */
  lemma OnlyListed(q: Word, s: nat)
    requires Within(Front(q), Back(q), s)
    ensures q == Zeros(16) || exists k :: 0 <= k < |MULTIPLIERS| && Listed(q, k)
  {
    var c := if s > 16 then 0 else 16 - s;
    WithinBits(Front(q), Back(q), s);
    NoHigher(q, c);
    if c <= 8 {
      LateMultiple(q, c);
      LateIsListed(q);
    } else {
      EarlyMultiple(q, c);
      EarlyIsListed(q);
    }
  }

  lemma ListedShows(q: Word, k: nat)
    requires k < |MULTIPLIERS| && Listed(q, k)
    ensures Shows(Front(q), Back(q), UNDETECTED[k])
  {
    forall m | 0 <= m < 32 ensures Wire(Front(q), Back(q), m) <==> m in UNDETECTED[k] {
      if m < 16 {
        ListedShowsFront(q, k, 15 - m);
      } else {
        ListedShowsBack(q, k, if m < 24 then 23 - m else 39 - m);
      }
    }
  }

  lemma NothingOfZeros()
    ensures Front(Zeros(16)) == Zeros(16) && Back(Zeros(16)) == Zeros(16)
  {
  }

  /** Sixteen consecutive bits that pass: none, or listed. */
  lemma WithinIsShown(x: Word, t: Word, s: nat)
    requires Within(x, t, s) && t == Shifted(x, 16)
    ensures (x == Zeros(16) && t == Zeros(16)) || exists k :: 0 <= k < |UNDETECTED| && Shows(x, t, UNDETECTED[k])
  {
    var q := Quotient(x);
    ShiftedIsBack(q);
    OnlyListed(q, s);
    if q == Zeros(16) {
      NothingOfZeros();
    } else {
      var k :| 0 <= k < |MULTIPLIERS| && Listed(q, k);
      ListedShows(q, k);
    }
  }

  lemma SameWires(x: Word, t: Word, x': Word, t': Word, u: set<int>)
    requires Shows(x, t, u) && Shows(x', t', u)
    ensures x == x' && t == t'
  {
    forall p | 0 <= p < 16 ensures x[p] == x'[p] {
      assert Wire(x, t, 15 - p) == Wire(x', t', 15 - p);
    }
    forall p | 0 <= p < 16 ensures t[p] == t'[p] {
      var m := if p < 8 then 23 - p else 39 - p;
      assert Wire(x, t, m) == Wire(x', t', m);
    }
  }

  /** Each of the listed bursts passes. */
  lemma ShownPasses(x: Word, t: Word, k: nat)
    requires k < |UNDETECTED| && Shows(x, t, UNDETECTED[k])
    ensures t == Shifted(x, 16)
  {
    var q: Word := seq(16, p => p in MULTIPLIERS[k]);
    assert Listed(q, k);
    ListedShows(q, k);
    SameWires(x, t, Front(q), Back(q), UNDETECTED[k]);
    ShiftedIsBack(q);
  }

  // ---- bursts across it -----------------------------------------------------------------------------------

  /** An error in nothing but the last two bytes before the CRC field and what follows passes exactly when it
      changes the CRC field by the register of those two. */
  lemma LastBytesExactly(raw: seq<Byte>, error: seq<Byte>)
    requires Parse(raw).Some? && |error| == |raw| && WordAt(error, 4) == Zeros(16)
    requires Untouched(error, 4 + DataLength(raw))
    ensures var n := DataLength(raw);
      Parse(Added(raw, error)).Some? <==> WordAt(error, 6 + n) == Shifted(Joined(error[5 + n], error[4 + n]), 16)
  {
    var n := DataLength(raw);
    UndetectedExactly(raw, error);
    RegisterOfLastTwo(error[..6 + n]);
  }

  lemma AddedTwice(raw: seq<Byte>, bad: seq<Byte>)
    requires |raw| == |bad|
    ensures Added(raw, Added(raw, bad)) == bad
  {
    forall k | 0 <= k < |raw| ensures Xor(raw[k], Xor(raw[k], bad[k])) == bad[k] {
    }
  }

  /** bad is raw with these bits flipped, counted from bit from of the packet, and no others. */
  ghost predicate Flips(raw: seq<Byte>, bad: seq<Byte>, from: nat, flipped: set<int>)
    requires |bad| == |raw|
  {
    forall b :: 0 <= b < 8 * |raw| ==> (PacketBits(bad)[b] != PacketBits(raw)[b] <==> b - from in flipped)
  }

  /** Bit m of the last four bytes of an error. */
  lemma WireIsBit(error: seq<Byte>, at: nat, k: nat, i: nat, m: nat, x: Word, t: Word)
    requires at + 4 <= |error| && k < 4 && i < 8 && m == 8 * k + i
    requires x == Joined(error[at + 1], error[at]) && t == WordAt(error, at + 2)
    ensures Wire(x, t, m) == error[at + k][7 - i]
  {
  }

  lemma FlippedBit(raw: seq<Byte>, bad: seq<Byte>, k: nat, i: nat, b: nat)
    requires |bad| == |raw| && k < |raw| && i < 8 && b == 8 * k + i
    ensures PacketBits(bad)[b] != PacketBits(raw)[b] <==> Added(raw, bad)[k][7 - i]
  {
    BitOf(raw, k, i);
    BitOf(bad, k, i);
    assert Added(raw, bad)[k] == Xor(raw[k], bad[k]);
  }

  lemma FlippedWire(raw: seq<Byte>, bad: seq<Byte>, at: nat, m: nat, x: Word, t: Word)
    requires |bad| == |raw| && at + 4 <= |raw| && m < 32
    requires var error := Added(raw, bad); x == Joined(error[at + 1], error[at]) && t == WordAt(error, at + 2)
    ensures PacketBits(bad)[8 * at + m] != PacketBits(raw)[8 * at + m] <==> Wire(x, t, m)
  {
    var k, i := m / 8, m % 8;
    FlippedBit(raw, bad, at + k, i, 8 * at + m);
    WireIsBit(Added(raw, bad), at, k, i, m, x, t);
  }

  /** A burst seen in the last four bytes. */
  lemma CorruptsWithin(raw: seq<Byte>, bad: seq<Byte>, i: nat, j: nat, at: nat)
    requires Corrupts(raw, bad, i, j) && j <= i + 16 && at + 4 <= |raw| && 8 * at <= i
    ensures var error := Added(raw, bad);
      Within(Joined(error[at + 1], error[at]), WordAt(error, at + 2), i - 8 * at)
  {
    var r, b := PacketBits(raw), PacketBits(bad);
    var x, t := Joined(Added(raw, bad)[at + 1], Added(raw, bad)[at]), WordAt(Added(raw, bad), at + 2);
    forall m | 0 <= m < 32 && (m < i - 8 * at || i - 8 * at + 16 <= m) ensures !Wire(x, t, m) {
      FlippedWire(raw, bad, at, m, x, t);
      var here := 8 * at + m;
      if here < i {
        assert b[..i][here] == r[..i][here];
      } else {
        assert b[j..][here - j] == r[j..][here - j];
      }
    }
  }

  lemma JoinedZeros(low: Byte, high: Byte)
    requires Joined(low, high) == Zeros(16)
    ensures low == Zeros(8) && high == Zeros(8)
  {
    assert low == Zeros(16)[..8] && high == Zeros(16)[8..];
  }

  lemma UntouchedByte(raw: seq<Byte>, bad: seq<Byte>, k: nat)
    requires |raw| == |bad| && k < |raw| && Added(raw, bad)[k] == Zeros(8)
    ensures bad[k] == raw[k]
  {
    forall i | 0 <= i < 8 ensures bad[k][i] == raw[k][i] {
      assert !Xor(raw[k], bad[k])[i];
    }
  }

  lemma NothingFlipped(raw: seq<Byte>, bad: seq<Byte>, at: nat)
    requires |bad| == |raw| == at + 4 && bad[..at] == raw[..at]
    requires var error := Added(raw, bad);
      Joined(error[at + 1], error[at]) == Zeros(16) && WordAt(error, at + 2) == Zeros(16)
    ensures bad == raw
  {
    var error := Added(raw, bad);
    JoinedZeros(error[at + 1], error[at]);
    JoinedZeros(error[at + 2], error[at + 3]);
    forall k | 0 <= k < at + 4 ensures bad[k] == raw[k] {
      if k < at {
        assert bad[..at][k] == raw[..at][k];
      } else {
        UntouchedByte(raw, bad, k);
      }
    }
  }

  /** A burst read off the last four bytes is one of the packet. */
  lemma ShowsFlips(raw: seq<Byte>, bad: seq<Byte>, at: nat, u: set<int>)
    requires |bad| == |raw| == at + 4 && bad[..at] == raw[..at] && forall m :: m in u ==> 0 <= m < 32
    ensures var error := Added(raw, bad);
      Shows(Joined(error[at + 1], error[at]), WordAt(error, at + 2), u) <==> Flips(raw, bad, 8 * at, u)
  {
    var error := Added(raw, bad);
    var x, t := Joined(error[at + 1], error[at]), WordAt(error, at + 2);
    forall b | 0 <= b < 8 * |raw|
      ensures b < 8 * at ==> PacketBits(bad)[b] == PacketBits(raw)[b]
      ensures b >= 8 * at ==> (PacketBits(bad)[b] != PacketBits(raw)[b] <==> Wire(x, t, b - 8 * at))
    {
      if b < 8 * at {
        BitsOfPrefix(raw, at);
        BitsOfPrefix(bad, at);
        assert PacketBits(bad)[..8 * at][b] == PacketBits(raw)[..8 * at][b];
      } else {
        var m := b - 8 * at;
        FlippedWire(raw, bad, at, m, x, t);
      }
    }
    if Shows(x, t, u) {
      forall b | 0 <= b < 8 * |raw| ensures PacketBits(bad)[b] != PacketBits(raw)[b] <==> b - 8 * at in u {
      }
    }
    if Flips(raw, bad, 8 * at, u) {
      forall m | 0 <= m < 32 ensures Wire(x, t, m) <==> m in u {
        assert PacketBits(bad)[8 * at + m] != PacketBits(raw)[8 * at + m] <==> 8 * at + m - 8 * at in u;
      }
    }
  }

  /** Only the frame, header to CRC, decides whether a datagram is accepted. */
  lemma FrameDecides(raw: seq<Byte>)
    requires |raw| >= 8 && |raw| >= 8 + DataLength(raw)
    ensures var frame := raw[..8 + DataLength(raw)];
      DataLength(frame) == DataLength(raw) && (Parse(frame).Some? <==> Parse(raw).Some?)
  {
    var n := DataLength(raw);
    var frame := raw[..8 + n];
    assert WordAt(frame, 4) == WordAt(raw, 4) && WordAt(frame, 6 + n) == WordAt(raw, 6 + n);
    assert frame[..6 + n] == raw[..6 + n];
  }

  lemma UntouchedAgree(raw: seq<Byte>, bad: seq<Byte>, n: nat)
    requires |raw| == |bad| && n <= |raw| && bad[..n] == raw[..n]
    ensures Untouched(Added(raw, bad), n)
  {
    forall k | 0 <= k < n ensures Added(raw, bad)[k] == Zeros(8) {
      assert bad[..n][k] == raw[..n][k];
    }
  }

  /** What a burst that passes does to the last four bytes of a frame. */
  lemma PassesExactly(raw: seq<Byte>, bad: seq<Byte>)
    requires Parse(raw).Some? && |raw| == |bad| == 8 + DataLength(raw)
    requires var n := DataLength(raw); bad[..4 + n] == raw[..4 + n] && bad[4] == raw[4] && bad[5] == raw[5]
    ensures var n, error := DataLength(raw), Added(raw, bad);
      Parse(bad).Some? <==> WordAt(error, 6 + n) == Shifted(Joined(error[5 + n], error[4 + n]), 16)
  {
    var error := Added(raw, bad);
    UntouchedAgree(raw, bad, 4 + DataLength(raw));
    assert Xor(raw[4], raw[4]) == Zeros(8) && Xor(raw[5], raw[5]) == Zeros(8);
    assert WordAt(error, 4) == Zeros(8) + Zeros(8) == Zeros(16);
    AddedTwice(raw, bad);
    LastBytesExactly(raw, error);
  }

  lemma FlipsKeep(raw: seq<Byte>, bad: seq<Byte>, at: nat, u: set<int>)
    requires |bad| == |raw| && at <= |raw| && Flips(raw, bad, 8 * at, u) && forall m :: m in u ==> 0 <= m
    ensures bad[..at] == raw[..at]
  {
    forall k | 0 <= k < at ensures bad[k] == raw[k] {
      forall m | 0 <= m < 8 ensures bad[k][m] == raw[k][m] {
        BitOf(raw, k, 7 - m);
        BitOf(bad, k, 7 - m);
        assert 8 * k + (7 - m) - 8 * at !in u;
      }
    }
  }

  lemma BurstsFit(k: nat)
    requires k < |UNDETECTED|
    ensures forall m :: m in UNDETECTED[k] ==> 0 <= m < 32
  {
  }

  /** bad is raw with one of the listed bursts, counted from byte at. */
  ghost predicate Slips(raw: seq<Byte>, bad: seq<Byte>, at: nat)
    requires |raw| == |bad|
  {
    exists k :: 0 <= k < |UNDETECTED| && Flips(raw, bad, 8 * at, UNDETECTED[k])
  }

  lemma SlipsPasses(raw: seq<Byte>, bad: seq<Byte>)
    requires Parse(raw).Some? && |raw| == |bad| == 8 + DataLength(raw) && bad[4] == raw[4] && bad[5] == raw[5]
    requires Slips(raw, bad, 4 + DataLength(raw))
    ensures Parse(bad).Some?
  {
    var at, error := 4 + DataLength(raw), Added(raw, bad);
    var k :| 0 <= k < |UNDETECTED| && Flips(raw, bad, 8 * at, UNDETECTED[k]);
    BurstsFit(k);
    FlipsKeep(raw, bad, at, UNDETECTED[k]);
    ShowsFlips(raw, bad, at, UNDETECTED[k]);
    ShownPasses(Joined(error[at + 1], error[at]), WordAt(error, at + 2), k);
    PassesExactly(raw, bad);
  }

  lemma KeepsBefore(raw: seq<Byte>, bad: seq<Byte>, i: nat, j: nat, at: nat)
    requires Corrupts(raw, bad, i, j) && at <= |raw| && 6 <= |raw| && 48 <= i && 8 * at <= i
    ensures bad[..at] == raw[..at] && bad[4] == raw[4] && bad[5] == raw[5]
  {
    forall k | 0 <= k < at || 4 <= k < 6 ensures bad[k] == raw[k] {
      SameByte(raw, bad, i, j, k);
    }
  }

  lemma PassesSlips(raw: seq<Byte>, bad: seq<Byte>, i: nat, j: nat)
    requires Parse(raw).Some? && |raw| == 8 + DataLength(raw) && Corrupts(raw, bad, i, j)
    requires 48 <= i && 8 * (4 + DataLength(raw)) <= i && j <= i + 16 && Parse(bad).Some?
    ensures bad == raw || Slips(raw, bad, 4 + DataLength(raw))
  {
    var at, error := 4 + DataLength(raw), Added(raw, bad);
    var x, t := Joined(error[at + 1], error[at]), WordAt(error, at + 2);
    KeepsBefore(raw, bad, i, j, at);
    PassesExactly(raw, bad);
    CorruptsWithin(raw, bad, i, j, at);
    WithinIsShown(x, t, i - 8 * at);
    if x == Zeros(16) && t == Zeros(16) {
      NothingFlipped(raw, bad, at);
    } else {
      var k :| 0 <= k < |UNDETECTED| && Shows(x, t, UNDETECTED[k]);
      BurstsFit(k);
      ShowsFlips(raw, bad, at, UNDETECTED[k]);
    }
  }

  lemma BurstOfFrame(raw: seq<Byte>, bad: seq<Byte>, i: nat, j: nat)
    requires Parse(raw).Some? && |raw| == 8 + DataLength(raw) && Corrupts(raw, bad, i, j)
    requires 48 <= i && j <= i + 16
    ensures Parse(bad).Some? <==> bad == raw || Slips(raw, bad, 4 + DataLength(raw))
  {
    KeepsBefore(raw, bad, i, j, 0);
    if Slips(raw, bad, 4 + DataLength(raw)) {
      SlipsPasses(raw, bad);
    } else if i >= 8 * (4 + DataLength(raw)) {
      if Parse(bad).Some? {
        PassesSlips(raw, bad, i, j);
      }
    } else if bad != raw {
      BurstIsRejected(raw, bad, i, j);
    }
  }

  /** Any corruption of an accepted datagram within sixteen consecutive bits behind its length field passes
      exactly when it leaves the frame alone or is, at the boundary of data and CRC, one of the twelve. */
  lemma BoundaryBurst(raw: seq<Byte>, bad: seq<Byte>, i: nat, j: nat)
    requires Parse(raw).Some? && Corrupts(raw, bad, i, j) && 48 <= i && j <= i + 16
    ensures var n := DataLength(raw);
      Parse(bad).Some? <==> bad[..8 + n] == raw[..8 + n] || Slips(raw[..8 + n], bad[..8 + n], 4 + n)
  {
    var n := DataLength(raw);
    var e := 8 * (8 + n);
    KeepsBefore(raw, bad, i, j, 0);
    assert WordAt(bad, 4) == WordAt(raw, 4);
    FrameDecides(raw);
    FrameDecides(bad);
    CorruptsCut(raw, bad, i, j, 8 + n);
    BurstOfFrame(raw[..8 + n], bad[..8 + n], if i < e then i else e, if j < e then j else e);
  }

  // ---- and each of the twelve passes ----------------------------------------------------------------------

  /** The bits of a burst, spread over the last four bytes of the frame. */
  function Spread(raw: seq<Byte>, u: set<int>): (r: seq<Byte>)
    requires Parse(raw).Some?
    ensures |r| == |raw|
  {
    var at := 4 + DataLength(raw);
    seq(|raw|, k => seq(8, i => 8 * (k - at) + 7 - i in u))
  }

  lemma SpreadShows(raw: seq<Byte>, u: set<int>, at: nat, error: seq<Byte>)
    requires Parse(raw).Some? && at == 4 + DataLength(raw) >= 6 && error == Spread(raw, u)
    requires forall m :: m in u ==> 0 <= m < 32
    ensures Untouched(error, at) && WordAt(error, 4) == Zeros(16)
    ensures Shows(Joined(error[at + 1], error[at]), WordAt(error, at + 2), u)
  {
    var x, t := Joined(error[at + 1], error[at]), WordAt(error, at + 2);
    forall k | 0 <= k < at ensures error[k] == Zeros(8) {
    }
    assert WordAt(error, 4) == Zeros(8) + Zeros(8) == Zeros(16);
    forall m | 0 <= m < 32 ensures Wire(x, t, m) <==> m in u {
      WireIsBit(error, at, m / 8, m % 8, m, x, t);
    }
  }

  lemma SpreadChanges(raw: seq<Byte>, k: nat)
    requires Parse(raw).Some? && k < |UNDETECTED|
    ensures Added(raw, Spread(raw, UNDETECTED[k])) != raw
  {
    var at, error := 4 + DataLength(raw), Spread(raw, UNDETECTED[k]);
    var m :| m in UNDETECTED[k] && 0 <= m < 32;
    assert error[at + m / 8][7 - m % 8];
    assert Added(raw, error)[at + m / 8][7 - m % 8] != raw[at + m / 8][7 - m % 8];
  }

  /** With two data bytes or more each of them is a corruption that passes, whatever the datagram says. */
  lemma EachPasses(raw: seq<Byte>, k: nat)
    requires Parse(raw).Some? && DataLength(raw) >= 2 && k < |UNDETECTED|
    ensures Added(raw, Spread(raw, UNDETECTED[k])) != raw
    ensures Parse(Added(raw, Spread(raw, UNDETECTED[k]))).Some?
  {
    var at, error := 4 + DataLength(raw), Spread(raw, UNDETECTED[k]);
    BurstsFit(k);
    SpreadShows(raw, UNDETECTED[k], at, error);
    ShownPasses(Joined(error[at + 1], error[at]), WordAt(error, at + 2), k);
    LastBytesExactly(raw, error);
    SpreadChanges(raw, k);
  }
}
