/** What the CRC detects: every burst of up to sixteen bits in id and count, in the data or in the CRC field. */
module PacketBursts {
  import opened Common
  import opened Bits
  import opened PacketCodec

  lemma ShiftIsInjective(c: Word, d: Word)
    requires Shift(c) == Shift(d)
    ensures c == d
  {
    assert Shift(c)[0] == c[15] && Shift(d)[0] == d[15];
    forall i | 0 <= i < 15 ensures c[i] == d[i] {
      assert Shift(c)[i + 1] == Shift(d)[i + 1];
    }
  }

  lemma ShiftBit(c: Word, p: nat)
    requires p < 16
    ensures Shift(c)[p] == ((p > 0 && c[p - 1]) != (c[15] && (p == 0 || p == 5 || p == 12)))
  {
  }

  lemma ShiftIsLinear(c: Word, d: Word)
    ensures Shift(Xor(c, d)) == Xor(Shift(c), Shift(d))
  {
    forall i | 0 <= i < 16 ensures Shift(Xor(c, d))[i] == Xor(Shift(c), Shift(d))[i] {
    }
  }

  lemma {:induction false} ShiftedIsInjective(c: Word, d: Word, n: nat)
    requires Shifted(c, n) == Shifted(d, n)
    ensures c == d
  {
    if n > 0 {
      ShiftIsInjective(Shifted(c, n - 1), Shifted(d, n - 1));
      ShiftedIsInjective(c, d, n - 1);
    }
  }

  lemma {:induction false} ShiftedIsLinear(c: Word, d: Word, n: nat)
    ensures Shifted(Xor(c, d), n) == Xor(Shifted(c, n), Shifted(d, n))
  {
    if n > 0 {
      ShiftedIsLinear(c, d, n - 1);
      ShiftIsLinear(Shifted(c, n - 1), Shifted(d, n - 1));
    }
  }

  lemma XorCancels(v: seq<bool>, w: seq<bool>, m: seq<bool>)
    requires |v| == |w| == |m| && Xor(v, m) == Xor(w, m)
    ensures v == w
  {
    forall i | 0 <= i < |v| ensures v[i] == w[i] {
      assert Xor(v, m)[i] == Xor(w, m)[i];
    }
  }

  // ---- bit by bit ----------------------------------------------------------------------------------

  /** Taking in one bit; the packet goes most significant bit first. */
  function Feed(c: Word, bit: bool): Word
  {
    Shift(c[15 := c[15] != bit])
  }

  function Fed(c: Word, bits: seq<bool>): Word
  {
    if bits == [] then c else Feed(Fed(c, bits[..|bits| - 1]), bits[|bits| - 1])
  }

  function ByteBits(b: Byte): (r: seq<bool>)
    ensures |r| == 8 && forall i :: 0 <= i < 8 ==> r[i] == b[7 - i]
  {
    seq(8, i requires 0 <= i < 8 => b[7 - i])
  }

  function PacketBits(data: seq<Byte>): (r: seq<bool>)
    ensures |r| == 8 * |data|
  {
    if data == [] then [] else PacketBits(data[..|data| - 1]) + ByteBits(data[|data| - 1])
  }

  /** Up to sixteen bits standing at the top of a word, the first one highest. */
  function AtTop(bits: seq<bool>): (r: Word)
    requires |bits| <= 16
    ensures forall i :: 0 <= i < 16 ==> r[i] == (15 - i < |bits| && bits[15 - i])
  {
    seq(16, i requires 0 <= i < 16 && |bits| <= 16 => 15 - i < |bits| && bits[15 - i])
  }

  function Single(p: nat, bit: bool): (r: Word)
    requires p < 16
    ensures forall i :: 0 <= i < 16 ==> r[i] == (i == p && bit)
  {
    seq(16, i => i == p && bit)
  }

  lemma {:induction false} SingleMovesUp(p: nat, bit: bool, n: nat)
    requires p + n < 16
    ensures Shifted(Single(p, bit), n) == Single(p + n, bit)
  {
    if n > 0 {
      SingleMovesUp(p, bit, n - 1);
    }
  }

  lemma OneMoreBit(c: Word, init: seq<bool>, bit: bool)
    requires |init| < 16
    ensures Xor(c, AtTop(init + [bit])) == Xor(Xor(c, AtTop(init)), Single(15 - |init|, bit))
  {
  }

  lemma FeedIsXor(c: Word, bit: bool)
    ensures Feed(c, bit) == Shift(Xor(c, Single(15, bit)))
  {
    assert c[15 := c[15] != bit] == Xor(c, Single(15, bit));
  }

  lemma ShiftedWithOneMore(c: Word, init: seq<bool>, bit: bool)
    requires |init| < 16
    ensures Shifted(Xor(c, AtTop(init + [bit])), |init| + 1) == Feed(Shifted(Xor(c, AtTop(init)), |init|), bit)
  {
    var n := |init|;
    OneMoreBit(c, init, bit);
    ShiftedIsLinear(Xor(c, AtTop(init)), Single(15 - n, bit), n);
    SingleMovesUp(15 - n, bit, n);
    FeedIsXor(Shifted(Xor(c, AtTop(init)), n), bit);
  }

  /** Feeding up to sixteen bits one at a time is adding them at the top at once and shifting. */
  lemma {:induction false} FedIsShifted(c: Word, bits: seq<bool>)
    requires |bits| <= 16
    ensures Fed(c, bits) == Shifted(Xor(c, AtTop(bits)), |bits|)
  {
    if bits == [] {
      assert Xor(c, AtTop(bits)) == c;
    } else {
      var init, bit := bits[..|bits| - 1], bits[|bits| - 1];
      assert bits == init + [bit];
      FedIsShifted(c, init);
      ShiftedWithOneMore(c, init, bit);
    }
  }

  lemma ByteIsFed(c: Word, b: Byte)
    ensures Absorb(c, b) == Fed(c, ByteBits(b))
  {
    FedIsShifted(c, ByteBits(b));
    assert AtTop(ByteBits(b)) == Zeros(8) + b;
  }

  lemma {:induction false} FedAppend(c: Word, a: seq<bool>, b: seq<bool>)
    ensures Fed(c, a + b) == Fed(Fed(c, a), b)
  {
    if b == [] {
      assert a + b == a;
    } else {
      assert (a + b)[..|a + b| - 1] == a + b[..|b| - 1];
      FedAppend(c, a, b[..|b| - 1]);
    }
  }

  lemma {:induction false} RegisterIsFed(c: Word, data: seq<Byte>)
    ensures Register(c, data) == Fed(c, PacketBits(data))
  {
    if data != [] {
      var init, last := data[..|data| - 1], data[|data| - 1];
      RegisterIsFed(c, init);
      ByteIsFed(Register(c, init), last);
      FedAppend(c, PacketBits(init), ByteBits(last));
    }
  }

  /** Feeding the same bits never hides a difference already in the register. */
  lemma {:induction false} FedIsInjective(c: Word, d: Word, bits: seq<bool>)
    requires Fed(c, bits) == Fed(d, bits)
    ensures c == d
  {
    if bits != [] {
      var init, bit := bits[..|bits| - 1], bits[|bits| - 1];
      var c', d' := Fed(c, init), Fed(d, init);
      ShiftIsInjective(c'[15 := c'[15] != bit], d'[15 := d'[15] != bit]);
      assert forall i :: 0 <= i < 15 ==> c'[15 := c'[15] != bit][i] == c'[i] && d'[15 := d'[15] != bit][i] == d'[i];
      assert c'[15 := c'[15] != bit][15] == d'[15 := d'[15] != bit][15];
      assert c' == d';
      FedIsInjective(c, d, init);
    }
  }

  /** Different bits, up to sixteen of them, lead to different registers. */
  lemma WindowIsInjective(c: Word, x: seq<bool>, y: seq<bool>)
    requires |x| == |y| <= 16 && Fed(c, x) == Fed(c, y)
    ensures x == y
  {
    FedIsShifted(c, x);
    FedIsShifted(c, y);
    ShiftedIsInjective(Xor(c, AtTop(x)), Xor(c, AtTop(y)), |x|);
    XorCommutes(c, AtTop(x));
    XorCommutes(c, AtTop(y));
    XorCancels(AtTop(x), AtTop(y), c);
    forall i | 0 <= i < |x| ensures x[i] == y[i] {
      assert AtTop(x)[15 - i] == AtTop(y)[15 - i];
    }
  }

  lemma XorCommutes(v: seq<bool>, w: seq<bool>)
    requires |v| == |w|
    ensures Xor(v, w) == Xor(w, v)
  {
  }

  // ---- bursts ------------------------------------------------------------------------------------

  lemma CutBits(s: seq<bool>, i: nat, j: nat)
    requires i <= j <= |s|
    ensures s == s[..i] + s[i..j] + s[j..]
  {
  }

  /** The register tells apart any two messages that differ only within sixteen consecutive bits. */
  lemma BurstChangesRegister(c: Word, x: seq<bool>, y: seq<bool>, i: nat, j: nat)
    requires |x| == |y| && i <= j <= |x| && j <= i + 16
    requires x[..i] == y[..i] && x[j..] == y[j..]
    requires Fed(c, x) == Fed(c, y)
    ensures x == y
  {
    CutBits(x, i, j);
    CutBits(y, i, j);
    FedAppend(c, x[..i] + x[i..j], x[j..]);
    FedAppend(c, y[..i] + y[i..j], y[j..]);
    FedIsInjective(Fed(c, x[..i] + x[i..j]), Fed(c, y[..i] + y[i..j]), x[j..]);
    FedAppend(c, x[..i], x[i..j]);
    FedAppend(c, y[..i], y[i..j]);
    WindowIsInjective(Fed(c, x[..i]), x[i..j], y[i..j]);
  }

  lemma {:induction false} BitOf(data: seq<Byte>, k: nat, m: nat)
    requires k < |data| && m < 8
    ensures PacketBits(data)[8 * k + m] == data[k][7 - m]
  {
    if k < |data| - 1 {
      BitOf(data[..|data| - 1], k, m);
    }
  }

  /** bad differs from raw only within bits i to j of the packet. */
  ghost predicate Corrupts(raw: seq<Byte>, bad: seq<Byte>, i: nat, j: nat)
  {
    && |bad| == |raw| && i <= j <= 8 * |raw|
    && PacketBits(bad)[..i] == PacketBits(raw)[..i] && PacketBits(bad)[j..] == PacketBits(raw)[j..]
  }

  lemma SameByte(raw: seq<Byte>, bad: seq<Byte>, i: nat, j: nat, k: nat)
    requires Corrupts(raw, bad, i, j) && k < |raw| && (8 * k + 8 <= i || j <= 8 * k)
    ensures bad[k] == raw[k]
  {
    forall m | 0 <= m < 8 ensures bad[k][m] == raw[k][m] {
      BitOf(raw, k, 7 - m);
      BitOf(bad, k, 7 - m);
      var at := 8 * k + (7 - m);
      if at < i {
        assert PacketBits(bad)[..i][at] == PacketBits(raw)[..i][at];
      } else {
        assert PacketBits(bad)[j..][at - j] == PacketBits(raw)[j..][at - j];
      }
    }
  }

  lemma {:induction false} BitsOfPrefix(data: seq<Byte>, n: nat)
    requires n <= |data|
    ensures PacketBits(data[..n]) == PacketBits(data)[..8 * n]
    decreases |data|
  {
    if n == |data| {
      assert data[..n] == data && PacketBits(data)[..8 * n] == PacketBits(data);
    } else {
      var init := data[..|data| - 1];
      assert init[..n] == data[..n];
      BitsOfPrefix(init, n);
    }
  }

  /** The part of a window that lies in a prefix. */
  lemma CorruptsCut(raw: seq<Byte>, bad: seq<Byte>, i: nat, j: nat, n: nat)
    requires Corrupts(raw, bad, i, j) && n <= |raw|
    ensures Corrupts(raw[..n], bad[..n], if i < 8 * n then i else 8 * n, if j < 8 * n then j else 8 * n)
  {
    BitsOfPrefix(raw, n);
    BitsOfPrefix(bad, n);
    var r, b := PacketBits(raw), PacketBits(bad);
    var i', j' := if i < 8 * n then i else 8 * n, if j < 8 * n then j else 8 * n;
    assert b[..8 * n][..i'] == b[..i][..i'] && r[..8 * n][..i'] == r[..i][..i'];
    if j < 8 * n {
      assert b[..8 * n][j..] == b[j..][..8 * n - j] && r[..8 * n][j..] == r[j..][..8 * n - j];
    }
  }

  /** Any corruption of an accepted datagram within sixteen consecutive bits of its id and count, or of its
      data, is rejected. */
  lemma BurstIsRejected(raw: seq<Byte>, bad: seq<Byte>, i: nat, j: nat)
    requires Parse(raw).Some? && Corrupts(raw, bad, i, j) && bad != raw && j <= i + 16
    requires j <= 32 || (48 <= i && j <= 8 * (6 + DataLength(raw)))
    ensures Parse(bad).None?
  {
    var n := DataLength(raw);
    BurstKeepsFrame(raw, bad, i, j);
    if Parse(bad).Some? {
      XorCancels(Register(Ones(16), raw[..6 + n]), Register(Ones(16), bad[..6 + n]), Ones(16));
      RegisterIsFed(Ones(16), raw[..6 + n]);
      RegisterIsFed(Ones(16), bad[..6 + n]);
      CorruptsCut(raw, bad, i, j, 6 + n);
      BurstChangesRegister(Ones(16), PacketBits(bad[..6 + n]), PacketBits(raw[..6 + n]), i, j);
      forall k | 0 <= k < |raw| ensures bad[k] == raw[k] {
        if k < 6 + n {
          SameByte(raw[..6 + n], bad[..6 + n], 8 * (6 + n), 8 * (6 + n), k);
          assert bad[k] == bad[..6 + n][k] && raw[k] == raw[..6 + n][k];
        } else {
          SameByte(raw, bad, i, j, k);
        }
      }
    }
  }

  /** A burst outside the length and CRC fields leaves them as they were. */
  lemma BurstKeepsFrame(raw: seq<Byte>, bad: seq<Byte>, i: nat, j: nat)
    requires |raw| >= 8 && |raw| >= 8 + DataLength(raw) && Corrupts(raw, bad, i, j)
    requires j <= 32 || (48 <= i && j <= 8 * (6 + DataLength(raw)))
    ensures WordAt(bad, 4) == WordAt(raw, 4)
    ensures WordAt(bad, 6 + DataLength(raw)) == WordAt(raw, 6 + DataLength(raw))
  {
    SameByte(raw, bad, i, j, 4);
    SameByte(raw, bad, i, j, 5);
    SameByte(raw, bad, i, j, 6 + DataLength(raw));
    SameByte(raw, bad, i, j, 7 + DataLength(raw));
  }

  lemma {:induction false} SameBytesSameBits(raw: seq<Byte>, bad: seq<Byte>, k: nat, l: nat)
    requires |bad| == |raw| && k <= l <= |raw| && bad[..k] == raw[..k] && bad[l..] == raw[l..]
    ensures Corrupts(raw, bad, 8 * k, 8 * l)
  {
    forall at | 0 <= at < 8 * |raw| && (at < 8 * k || 8 * l <= at) ensures PacketBits(bad)[at] == PacketBits(raw)[at] {
      BitOf(raw, at / 8, at % 8);
      BitOf(bad, at / 8, at % 8);
      if at < 8 * k {
        assert bad[..k][at / 8] == raw[..k][at / 8];
      } else {
        assert bad[l..][at / 8 - l] == raw[l..][at / 8 - l];
      }
    }
  }

  /** In particular any corruption of one byte or of two adjacent bytes there. */
  lemma ByteBurstIsRejected(raw: seq<Byte>, bad: seq<Byte>, k: nat, l: nat)
    requires Parse(raw).Some? && |bad| == |raw| && bad != raw
    requires k <= l <= k + 2 && (l <= 4 || (6 <= k && l <= 6 + DataLength(raw)))
    requires bad[..k] == raw[..k] && bad[l..] == raw[l..]
    ensures Parse(bad).None?
  {
    SameBytesSameBits(raw, bad, k, l);
    BurstIsRejected(raw, bad, 8 * k, 8 * l);
  }

  /** So is any corruption confined to the CRC field. */
  lemma CrcCorruptionIsRejected(raw: seq<Byte>, low: Byte, high: Byte)
    requires Parse(raw).Some?
    ensures var n := DataLength(raw);
      Parse(raw[6 + n := low][7 + n := high]).Some? <==> low == raw[6 + n] && high == raw[7 + n]
  {
    var n := DataLength(raw);
    var bad := raw[6 + n := low][7 + n := high];
    assert bad[..6 + n] == raw[..6 + n];
    assert WordAt(bad, 4) == WordAt(raw, 4);
    BytesOfWord(low, high);
    BytesOfWord(raw[6 + n], raw[7 + n]);
    if low == raw[6 + n] && high == raw[7 + n] {
      assert bad == raw;
    }
  }

  // ---- the length field -----------------------------------------------------------------------------

  /** Two words that differ in bit 1 only. */
  ghost predicate Neighbours(v: Word, w: Word)
  {
    v[1] != w[1] && v[0] == w[0] && v[2..] == w[2..]
  }

  lemma TwoApart(n: nat)
    requires n % 4 < 2
    ensures Neighbours(Of(n, 16), Of(n + 2, 16))
  {
    assert (n + 2) / 2 == n / 2 + 1 && (n + 2) / 2 / 2 == n / 2 / 2;
    assert Of(n, 16)[1..] == Of(n / 2, 15) && Of(n / 2, 15)[1..] == Of(n / 2 / 2, 14);
    assert Of(n + 2, 16)[1..] == Of(n / 2 + 1, 15) && Of(n / 2 + 1, 15)[1..] == Of(n / 2 / 2, 14);
    assert Of(n, 16)[1] == Of(n / 2, 15)[0] && Of(n + 2, 16)[1] == Of(n / 2 + 1, 15)[0];
  }

  lemma NeighbourBytes(v: Word, w: Word)
    requires Neighbours(v, w)
    ensures v[..8] != w[..8] && v[8..] == w[8..] && forall l :: 0 <= l < 8 && l != 1 ==> v[..8][l] == w[..8][l]
  {
    assert v[..8][1] != w[..8][1];
    assert v[8..] == v[2..][6..] && w[8..] == w[2..][6..];
    forall l | 0 <= l < 8 && l != 1 ensures v[l] == w[l] {
      if l >= 2 {
        assert v[2..][l - 2] == w[2..][l - 2];
      }
    }
  }

  /** p's data with its own CRC behind it. */
  function Longer(p: Packet): Packet
    requires Packable(p)
  {
    p.(data := p.data + Bytes(Crc(Body(p))))
  }

  /** The datagram of Longer(p), and the same with the length of p. */
  function LongerRaw(p: Packet): seq<Byte>
    requires Packable(p) && |p.data| + 2 < 0x10000
  {
    Build(Longer(p)).value
  }

  function Shortened(p: Packet): (r: seq<Byte>)
    requires Packable(p) && |p.data| + 2 < 0x10000
    ensures |r| == |LongerRaw(p)| == |p.data| + 10
  {
    LongerRaw(p)[4 := Bytes(Of(|p.data|, 16))[0]][5 := Bytes(Of(|p.data|, 16))[1]]
  }

  /** Another length moves the CRC field: a datagram whose data ends in the CRC of what stands before it is also
      accepted, as another packet, with its length cut by two. */
  lemma ShorterPasses(p: Packet)
    requires Packable(p) && |p.data| + 2 < 0x10000
    ensures Parse(LongerRaw(p)) == Some(Longer(p)) && Parse(Shortened(p)) == Some(p) && p != Longer(p)
  {
    var raw, trailing := LongerRaw(p), Bytes(Crc(Body(Longer(p))));
    assert raw + [] == raw;
    ParseOfBuild(Longer(p), []);
    assert Shortened(p) == Build(p).value + trailing;
    ParseOfBuild(p, trailing);
  }

  lemma OneBit(raw: seq<Byte>, bad: seq<Byte>, k: nat, i: nat)
    requires |raw| == |bad| && k < |raw| && i < 8
    requires forall a :: 0 <= a < |raw| && a != k ==> bad[a] == raw[a]
    requires forall l :: 0 <= l < 8 && l != i ==> bad[k][l] == raw[k][l]
    ensures Corrupts(raw, bad, 8 * k + (7 - i), 8 * k + (7 - i) + 1)
  {
    forall b | 0 <= b < 8 * |raw| && b != 8 * k + (7 - i) ensures PacketBits(bad)[b] == PacketBits(raw)[b] {
      var a, m := b / 8, b % 8;
      BitOf(raw, a, m);
      BitOf(bad, a, m);
    }
  }

  lemma LengthBytes(p: Packet)
    requires Packable(p) && |p.data| + 2 < 0x10000
    ensures LongerRaw(p)[4] == Of(|p.data| + 2, 16)[..8] && LongerRaw(p)[5] == Of(|p.data| + 2, 16)[8..]
    ensures Shortened(p)[4] == Of(|p.data|, 16)[..8] && Shortened(p)[5] == Of(|p.data|, 16)[8..]
  {
  }

  /** So in the length field not even every change of one bit is detected. */
  lemma LengthBitPasses(p: Packet)
    requires Packable(p) && |p.data| + 2 < 0x10000 && |p.data| % 4 < 2
    ensures Parse(LongerRaw(p)).Some? && Parse(Shortened(p)).Some?
    ensures Corrupts(LongerRaw(p), Shortened(p), 38, 39) && Shortened(p) != LongerRaw(p)
  {
    ShorterPasses(p);
    LengthBytes(p);
    TwoApart(|p.data|);
    NeighbourBytes(Of(|p.data|, 16), Of(|p.data| + 2, 16));
    OneBit(LongerRaw(p), Shortened(p), 4, 1);
  }
}
