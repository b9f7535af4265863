/**
 What the CRC is: the complement of the remainder that long division by the polynomial leaves of the message,
 its first sixteen bits complemented and sixteen zeros appended. Bit strings go highest power first.
 */
module PacketRemainder {
  import opened Bits
  import opened PacketCodec
  import opened PacketBursts

  /** x^16 + x^12 + x^5 + 1 */
  const GENERATOR: seq<bool> :=
    [true,
     false, false, false, true,
     false, false, false, false,
     false, false, true, false,
     false, false, false, true]

  /** The product of q and the generator. */
  function Times(q: seq<bool>): (r: seq<bool>)
    ensures |r| == |q| + 16
  {
    if q == [] then Zeros(16)
    else
      var n := |q| - 1;
      Xor(Times(q[..n]) + [false], Zeros(n) + if q[n] then GENERATOR else Zeros(17))
  }

  /** A word's bits, highest power first. */
  function Highest(w: Word): (r: seq<bool>)
    ensures |r| == 16 && forall i :: 0 <= i < 16 ==> r[i] == w[15 - i]
  {
    seq(16, i requires 0 <= i < 16 => w[15 - i])
  }

  /** The message with sixteen zeros appended and c added to its front. */
  function Dividend(c: Word, bits: seq<bool>): (r: seq<bool>)
    ensures |r| == |bits| + 16
  {
    Xor(bits + Zeros(16), Highest(c) + Zeros(|bits|))
  }

  /** r is what q leaves of the dividend. */
  predicate Divides(c: Word, bits: seq<bool>, q: seq<bool>, r: Word)
  {
    |q| == |bits| && Dividend(c, bits) == Xor(Times(q), Zeros(|bits|) + Highest(r))
  }

  lemma GeneratorBit(i: nat)
    requires i < 17
    ensures GENERATOR[i] == (i == 0 || i == 4 || i == 11 || i == 16)
  {
  }

  lemma FeedBit(r: Word, bit: bool, p: nat)
    requires p < 16
    ensures Feed(r, bit)[p] == ((p > 0 && r[p - 1]) != (r[15] != bit && (p == 0 || p == 5 || p == 12)))
  {
    ShiftBit(r[15 := r[15] != bit], p);
  }

  /** Bit i of one step of the division, seventeen bits wide. */
  lemma FeedDivides(r: Word, bit: bool, i: nat)
    requires i < 17
    ensures (i > 0 && Feed(r, bit)[16 - i])
         == (((i < 16 && r[15 - i]) != (i == 0 && bit)) != (r[15] != bit && GENERATOR[i]))
  {
    GeneratorBit(i);
    if i > 0 {
      FeedBit(r, bit, 16 - i);
    }
  }

  lemma DividendStep(c: Word, init: seq<bool>, bit: bool)
    ensures Dividend(c, init + [bit])
         == Xor(Dividend(c, init) + [false], Zeros(|init|) + ([bit] + Zeros(16)))
  {
  }

  lemma TimesStep(q: seq<bool>, top: bool, i: nat)
    requires i < |q| + 17
    ensures Times(q + [top])[i] == ((i < |q| + 16 && Times(q)[i]) != (i >= |q| && top && GENERATOR[i - |q|]))
  {
    assert (q + [top])[..|q|] == q;
  }

  lemma DividendBit(c: Word, init: seq<bool>, bit: bool, i: nat)
    requires i < |init| + 17
    ensures Dividend(c, init + [bit])[i] == ((i < |init| + 16 && Dividend(c, init)[i]) != (i == |init| && bit))
  {
    DividendStep(c, init, bit);
  }

  lemma DivisionBit(c: Word, init: seq<bool>, bit: bool, q: seq<bool>, r: Word, i: nat)
    requires Divides(c, init, q, r) && i < |init| + 17
    ensures var n := |init|;
      Dividend(c, init + [bit])[i]
      == (Times(q + [r[15] != bit])[i] != (i > n && Feed(r, bit)[16 - (i - n)]))
  {
    var n := |init|;
    DividendBit(c, init, bit, i);
    TimesStep(q, r[15] != bit, i);
    if i < n + 16 {
      DividesAt(c, init, q, r, i);
    }
    if i >= n {
      FeedDivides(r, bit, i - n);
    }
  }

  lemma DividesAt(c: Word, bits: seq<bool>, q: seq<bool>, r: Word, i: nat)
    requires Divides(c, bits, q, r) && i < |bits| + 16
    ensures Dividend(c, bits)[i] == (Times(q)[i] != (i >= |bits| && r[15 - (i - |bits|)]))
  {
    assert Dividend(c, bits)[i] == (Times(q)[i] != (Zeros(|bits|) + Highest(r))[i]);
  }

  /** One more bit of the dividend brings one more bit of the quotient. */
  lemma DivisionStep(c: Word, init: seq<bool>, bit: bool, q: seq<bool>, r: Word)
    requires Divides(c, init, q, r)
    ensures Divides(c, init + [bit], q + [r[15] != bit], Feed(r, bit))
  {
    var n, q', r' := |init|, q + [r[15] != bit], Feed(r, bit);
    forall i | 0 <= i < n + 17
      ensures Dividend(c, init + [bit])[i] == Xor(Times(q'), Zeros(n + 1) + Highest(r'))[i]
    {
      DivisionBit(c, init, bit, q, r, i);
    }
  }

  lemma {:induction false} FedIsRemainder(c: Word, bits: seq<bool>) returns (q: seq<bool>)
    ensures Divides(c, bits, q, Fed(c, bits))
  {
    if bits == [] {
      q := [];
    } else {
      var init, bit := bits[..|bits| - 1], bits[|bits| - 1];
      var q0 := FedIsRemainder(c, init);
      DivisionStep(c, init, bit, q0, Fed(c, init));
      assert init + [bit] == bits;
      q := q0 + [Fed(c, init)[15] != bit];
    }
  }

  // ---- a remainder is unique ---------------------------------------------------------------------------

  lemma {:induction false} TimesIsLinear(a: seq<bool>, b: seq<bool>)
    requires |a| == |b|
    ensures Times(Xor(a, b)) == Xor(Times(a), Times(b))
  {
    if a != [] {
      var n := |a| - 1;
      assert Xor(a, b)[..n] == Xor(a[..n], b[..n]);
      TimesIsLinear(a[..n], b[..n]);
    }
  }

  /** A multiple of the generator whose upper part is zero is zero. */
  lemma {:induction false} NoSmallMultiple(q: seq<bool>)
    requires forall i :: 0 <= i < |q| ==> !Times(q)[i]
    ensures q == Zeros(|q|) && Times(q) == Zeros(|q| + 16)
  {
    if q != [] {
      var n := |q| - 1;
      assert forall i :: 0 <= i < n ==> Times(q)[i] == Times(q[..n])[i];
      NoSmallMultiple(q[..n]);
      assert !Times(q)[n];
      assert !q[n];
      assert q == q[..n] + [q[n]];
    }
  }

  lemma RemainderIsUnique(c: Word, bits: seq<bool>, q: seq<bool>, r: Word, q': seq<bool>, r': Word)
    requires Divides(c, bits, q, r) && Divides(c, bits, q', r')
    ensures r == r'
  {
    var n := |bits|;
    TimesIsLinear(q, q');
    var d := Times(Xor(q, q'));
    forall i | 0 <= i < n + 16 ensures d[i] == (i >= n && (r[15 - (i - n)] != r'[15 - (i - n)])) {
      DividesAt(c, bits, q, r, i);
      DividesAt(c, bits, q', r', i);
    }
    NoSmallMultiple(Xor(q, q'));
    forall i | 0 <= i < 16 ensures r[i] == r'[i] {
      assert !d[n + 15 - i];
    }
  }

  // ---- the packet's CRC --------------------------------------------------------------------------------

  /** The CRC of a message is the one word whose complement some quotient leaves. */
  lemma CrcIsRemainder(data: seq<Byte>, w: Word)
    ensures w == Crc(data)
      <==> exists q :: Divides(Ones(16), PacketBits(data), q, Xor(w, Ones(16)))
  {
    var bits := PacketBits(data);
    var q := FedIsRemainder(Ones(16), bits);
    RegisterIsFed(Ones(16), data);
    var r := Fed(Ones(16), bits);
    assert Crc(data) == Xor(r, Ones(16)) && Xor(Xor(r, Ones(16)), Ones(16)) == r;
    if q' :| Divides(Ones(16), bits, q', Xor(w, Ones(16))) {
      RemainderIsUnique(Ones(16), bits, q, r, q', Xor(w, Ones(16)));
      assert w == Xor(Xor(w, Ones(16)), Ones(16));
    }
  }

  /** From sixteen bits on, the dividend is the message with those complemented, then sixteen zeros. */
  lemma DividendIsComplement(bits: seq<bool>)
    requires |bits| >= 16
    ensures Dividend(Ones(16), bits) == Xor(bits[..16], Ones(16)) + bits[16..] + Zeros(16)
  {
  }

  /** Of nothing at all it is zero. */
  lemma CrcOfNothing()
    ensures Value(Crc([])) == 0
  {
    assert Crc([]) == Zeros(16);
    ValueOfZeros(16);
  }
}
