/**
 The binary packet format: id, count, data length, data, CRC-16 (polynomial 0x1021, initial value and
 final xor 0xFFFF), all little-endian; and the payloads read from it.
 */
module PacketCodec {
  import opened Common
  import opened Bits

  type Word = w: seq<bool> | |w| == 16
    witness [false, false, false, false, false, false, false, false,
             false, false, false, false, false, false, false, false]

  // ---- CRC ------------------------------------------------------------------------------------------

  /** 0x1021 */
  function Polynomial(): (r: Word)
    ensures forall i :: 0 <= i < 16 ==> r[i] == (i == 0 || i == 5 || i == 12)
  {
    seq(16, i => i == 0 || i == 5 || i == 12)
  }

  function Doubled(c: Word): Word
  {
    [false] + c[..15]
  }

  function Shift(c: Word): Word
  {
    if c[15] then Xor(Doubled(c), Polynomial()) else Doubled(c)
  }

  function Shifted(c: Word, n: nat): Word
  {
    if n == 0 then c else Shift(Shifted(c, n - 1))
  }

  function Absorb(c: Word, b: Byte): Word
  {
    Shifted(Xor(c, Zeros(8) + b), 8)
  }

  function Register(c: Word, data: seq<Byte>): Word
  {
    if data == [] then c else Absorb(Register(c, data[..|data| - 1]), data[|data| - 1])
  }

  function Crc(data: seq<Byte>): Word
  {
    Xor(Register(Ones(16), data), Ones(16))
  }

  method ComputeCrc(data: seq<Byte>) returns (crc: Word)
    ensures crc == Crc(data)
  {
    crc := Ones(16);
    for i := 0 to |data|
      invariant crc == Register(Ones(16), data[..i])
    {
      assert data[..i + 1][..i] == data[..i];
      crc := Xor(crc, Zeros(8) + data[i]);
      ghost var start := crc;
      for k := 0 to 8
        invariant crc == Shifted(start, k)
      {
        if crc[15] {
          crc := Xor(Doubled(crc), Polynomial());
        } else {
          crc := Doubled(crc);
        }
      }
    }
    assert data[..|data|] == data;
    crc := Xor(crc, Ones(16));
  }

  // ---- packets --------------------------------------------------------------------------------------

  datatype Packet = Packet(id: nat, count: nat, data: seq<Byte>)

  /** Little-endian. */
  function Bytes(w: Word): seq<Byte>
  {
    [w[..8], w[8..]]
  }

  function WordAt(raw: seq<Byte>, at: nat): Word
    requires at + 2 <= |raw|
  {
    var low: seq<bool> := raw[at];
    low + raw[at + 1]
  }

  predicate Packable(p: Packet)
  {
    p.id < 0x10000 && p.count < 0x10000 && |p.data| < 0x10000
  }

  function Body(p: Packet): seq<Byte>
    requires Packable(p)
  {
    Bytes(Of(p.id, 16)) + Bytes(Of(p.count, 16)) + Bytes(Of(|p.data|, 16)) + p.data
  }

  /** None where packing a field raises. */
  function Build(p: Packet): Option<seq<Byte>>
  {
    if Packable(p) then Some(Body(p) + Bytes(Crc(Body(p)))) else None
  }

  function DataLength(raw: seq<Byte>): nat
    requires |raw| >= 6
  {
    Value(WordAt(raw, 4))
  }

  function Parse(raw: seq<Byte>): Option<Packet>
  {
    if |raw| < 8 then None
    else
      var n := DataLength(raw);
      if |raw| < 6 + n + 2 then None
      else if WordAt(raw, 6 + n) != Crc(raw[..6 + n]) then None
      else Some(Packet(Value(WordAt(raw, 0)), Value(WordAt(raw, 2)), raw[6..6 + n]))
  }

  lemma WordRoundTrip(n: nat)
    requires n < 0x10000
    ensures Value(Of(n, 16)) == n
  {
    assert Power(8) == 256;
    PowerSum(8, 8);
    ValueOf(n, 16);
  }

  lemma WordValueRoundTrip(w: Word)
    ensures Value(w) < 0x10000 && Of(Value(w), 16) == w
  {
    assert Power(8) == 256;
    PowerSum(8, 8);
    OfValue(w);
  }

  lemma BytesOfWord(low: Byte, high: Byte)
    ensures Bytes(low + high) == [low, high]
  {
    assert (low + high)[..8] == low && (low + high)[8..] == high;
  }

  lemma WordOfBytes(raw: seq<Byte>, at: nat, w: Word)
    requires at + 2 <= |raw| && raw[at] == Bytes(w)[0] && raw[at + 1] == Bytes(w)[1]
    ensures WordAt(raw, at) == w
  {
    assert w == w[..8] + w[8..];
  }

  /** Where the fields of a built packet are found. */
  lemma FieldsOfBuild(p: Packet, trailing: seq<Byte>)
    requires Packable(p)
    ensures var n, raw := |p.data|, Build(p).value + trailing;
      && |raw| >= 8 + n && raw[..6 + n] == Body(p) && raw[6..6 + n] == p.data
      && WordAt(raw, 0) == Of(p.id, 16) && WordAt(raw, 2) == Of(p.count, 16) && WordAt(raw, 4) == Of(n, 16)
      && WordAt(raw, 6 + n) == Crc(Body(p))
  {
    var n, raw := |p.data|, Build(p).value + trailing;
    assert raw[..6 + n] == Body(p);
    assert raw[6..6 + n] == p.data;
    WordOfBytes(raw, 0, Of(p.id, 16));
    WordOfBytes(raw, 2, Of(p.count, 16));
    WordOfBytes(raw, 4, Of(n, 16));
    WordOfBytes(raw, 6 + n, Crc(Body(p)));
  }

  /** Parsing a built packet, whatever follows it in the datagram, gives the packet back. */
  lemma ParseOfBuild(p: Packet, trailing: seq<Byte>)
    requires Packable(p)
    ensures Build(p).Some? && Parse(Build(p).value + trailing) == Some(p)
  {
    FieldsOfBuild(p, trailing);
    WordRoundTrip(p.id);
    WordRoundTrip(p.count);
    WordRoundTrip(|p.data|);
  }

  /** Packing a field that was read gives its two bytes back. */
  lemma WordRebuilt(raw: seq<Byte>, at: nat)
    requires at + 2 <= |raw|
    ensures Value(WordAt(raw, at)) < 0x10000 && Bytes(Of(Value(WordAt(raw, at)), 16)) == [raw[at], raw[at + 1]]
  {
    WordValueRoundTrip(WordAt(raw, at));
    BytesOfWord(raw[at], raw[at + 1]);
  }

  lemma BodyRebuilt(raw: seq<Byte>)
    requires Parse(raw).Some?
    ensures Packable(Parse(raw).value) && Body(Parse(raw).value) == raw[..6 + DataLength(raw)]
  {
    WordRebuilt(raw, 0);
    WordRebuilt(raw, 2);
    WordRebuilt(raw, 4);
  }

  /** Any accepted datagram begins with exactly the build of what it was parsed into. */
  lemma BuildOfParse(raw: seq<Byte>)
    requires Parse(raw).Some?
    ensures var p := Parse(raw).value; Packable(p) && Build(p).value <= raw
  {
    var p, n := Parse(raw).value, DataLength(raw);
    BodyRebuilt(raw);
    BytesOfWord(raw[6 + n], raw[7 + n]);
    assert raw[..6 + n + 2] == raw[..6 + n] + Bytes(WordAt(raw, 6 + n));
  }

  // ---- the layout in numbers --------------------------------------------------------------------------

  /** The number in the two bytes at a place, the lower one first. */
  function Number(raw: seq<Byte>, at: nat): nat
    requires at + 2 <= |raw|
  {
    Value(raw[at]) + 256 * Value(raw[at + 1])
  }

  lemma NumberIsWord(raw: seq<Byte>, at: nat)
    requires at + 2 <= |raw|
    ensures Number(raw, at) == Value(WordAt(raw, at))
  {
    assert Power(8) == 256;
    ValueOfJoined(raw[at], raw[at + 1]);
  }

  lemma SameValue(v: Word, w: Word)
    requires Value(v) == Value(w)
    ensures v == w
  {
    OfValue(v);
    OfValue(w);
  }

  /** Which datagrams are accepted, and as what: id, count and length are the first three numbers, the data
      follow, and the number behind them is the CRC of all before it; any more bytes are ignored. */
  lemma ParsesExactly(raw: seq<Byte>, p: Packet)
    ensures Parse(raw) == Some(p)
      <==> && |raw| >= 8 + |p.data|
           && Number(raw, 0) == p.id && Number(raw, 2) == p.count && Number(raw, 4) == |p.data|
           && raw[6..6 + |p.data|] == p.data
           && Number(raw, 6 + |p.data|) == Value(Crc(raw[..6 + |p.data|]))
  {
    if |raw| >= 8 {
      NumberIsWord(raw, 0);
      NumberIsWord(raw, 2);
      NumberIsWord(raw, 4);
      var n := DataLength(raw);
      if |raw| >= 8 + n {
        NumberIsWord(raw, 6 + n);
        if Value(WordAt(raw, 6 + n)) == Value(Crc(raw[..6 + n])) {
          SameValue(WordAt(raw, 6 + n), Crc(raw[..6 + n]));
        }
      }
    }
  }
}
