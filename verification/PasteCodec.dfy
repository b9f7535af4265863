/**
 A sealed envelope as one line of pasted text: a prefix and unpadded base64url (section 5 of RFC 4648),
 found again among quoted and padded lines.
 */
module PasteCodec {
  import opened Common
  import opened Bits

  // ---- base64url ------------------------------------------------------------------------------------

  type Sextet = v: seq<bool> | |v| == 6 witness [false, false, false, false, false, false]

  lemma SextetValue(v: Sextet)
    ensures Value(v) < 64 && Of(Value(v), 6) == v
  {
    OfValue(v);
    assert Power(3) == 8;
    PowerSum(3, 3);
  }

  function Symbol(v: Sextet): char
  {
    SextetValue(v);
    var n := Value(v);
    if n < 26 then ('A' as int + n) as char
    else if n < 52 then ('a' as int + (n - 26)) as char
    else if n < 62 then ('0' as int + (n - 52)) as char
    else if n == 62 then '-'
    else '_'
  }

  predicate InAlphabet(c: char)
  {
    'A' <= c <= 'Z' || 'a' <= c <= 'z' || '0' <= c <= '9' || c == '-' || c == '_'
  }

  function SextetOf(c: char): Sextet
    requires InAlphabet(c)
  {
    Of(if 'A' <= c <= 'Z' then c as int - 'A' as int
       else if 'a' <= c <= 'z' then c as int - 'a' as int + 26
       else if '0' <= c <= '9' then c as int - '0' as int + 52
       else if c == '-' then 62
       else 63, 6)
  }

  lemma SymbolRoundTrip(v: Sextet)
    ensures InAlphabet(Symbol(v)) && SextetOf(Symbol(v)) == v
  {
    SextetValue(v);
  }

  /** Three bytes as four groups of six bits, the last byte or two possibly missing. Bits of a byte and of a
      group are listed from the least significant. */
  function Groups(b0: Byte, b1: Byte, b2: Byte): (Sextet, Sextet, Sextet, Sextet)
  {
    (b0[2..], b1[4..] + b0[..2], b2[6..] + b1[..4], b2[..6])
  }

  function FirstByte(v0: Sextet, v1: Sextet): Byte { v1[4..] + v0 }

  function SecondByte(v1: Sextet, v2: Sextet): Byte { v2[2..] + v1[..4] }

  function ThirdByte(v2: Sextet, v3: Sextet): Byte { v3 + v2[..2] }

  function Encode(b: seq<Byte>): string
  {
    if |b| == 0 then ""
    else if |b| == 1 then
      var (v0, v1, _, _) := Groups(b[0], Zeros(8), Zeros(8));
      [Symbol(v0), Symbol(v1)]
    else if |b| == 2 then
      var (v0, v1, v2, _) := Groups(b[0], b[1], Zeros(8));
      [Symbol(v0), Symbol(v1), Symbol(v2)]
    else
      var (v0, v1, v2, v3) := Groups(b[0], b[1], b[2]);
      [Symbol(v0), Symbol(v1), Symbol(v2), Symbol(v3)] + Encode(b[3..])
  }

  predicate AllInAlphabet(e: string)
  {
    forall i :: 0 <= i < |e| ==> InAlphabet(e[i])
  }

  /** None where one symbol is left over. Bits beyond the last whole byte are ignored. */
  function Decode(e: string): Option<seq<Byte>>
    requires AllInAlphabet(e)
  {
    if |e| == 0 then Some([])
    else if |e| == 1 then None
    else
      var v0, v1 := SextetOf(e[0]), SextetOf(e[1]);
      if |e| == 2 then Some([FirstByte(v0, v1)])
      else
        var v2 := SextetOf(e[2]);
        if |e| == 3 then Some([FirstByte(v0, v1), SecondByte(v1, v2)])
        else
          match Decode(e[4..])
          case None => None
          case Some(rest) =>
            Some([FirstByte(v0, v1), SecondByte(v1, v2), ThirdByte(v2, SextetOf(e[3]))] + rest)
  }

  lemma Regrouped(b0: Byte, b1: Byte, b2: Byte)
    ensures var (v0, v1, v2, v3) := Groups(b0, b1, b2);
      FirstByte(v0, v1) == b0 && SecondByte(v1, v2) == b1 && ThirdByte(v2, v3) == b2
  {
  }

  lemma DecodeGroup(v0: Sextet, v1: Sextet, v2: Sextet, v3: Sextet, rest: string)
    requires AllInAlphabet(rest) && Decode(rest).Some?
    ensures var e := [Symbol(v0), Symbol(v1), Symbol(v2), Symbol(v3)] + rest;
      && AllInAlphabet(e)
      && Decode(e) == Some([FirstByte(v0, v1), SecondByte(v1, v2), ThirdByte(v2, v3)] + Decode(rest).value)
  {
    SymbolRoundTrip(v0);
    SymbolRoundTrip(v1);
    SymbolRoundTrip(v2);
    SymbolRoundTrip(v3);
    assert ([Symbol(v0), Symbol(v1), Symbol(v2), Symbol(v3)] + rest)[4..] == rest;
  }

  lemma DecodeTwo(v0: Sextet, v1: Sextet)
    ensures var e := [Symbol(v0), Symbol(v1)]; AllInAlphabet(e) && Decode(e) == Some([FirstByte(v0, v1)])
  {
    SymbolRoundTrip(v0);
    SymbolRoundTrip(v1);
  }

  lemma DecodeThree(v0: Sextet, v1: Sextet, v2: Sextet)
    ensures var e := [Symbol(v0), Symbol(v1), Symbol(v2)];
      AllInAlphabet(e) && Decode(e) == Some([FirstByte(v0, v1), SecondByte(v1, v2)])
  {
    SymbolRoundTrip(v0);
    SymbolRoundTrip(v1);
    SymbolRoundTrip(v2);
  }

  lemma OneByte(b: Byte)
    ensures AllInAlphabet(Encode([b])) && Decode(Encode([b])) == Some([b])
  {
    var (v0, v1, _, _) := Groups(b, Zeros(8), Zeros(8));
    DecodeTwo(v0, v1);
    Regrouped(b, Zeros(8), Zeros(8));
  }

  lemma TwoBytes(b0: Byte, b1: Byte)
    ensures AllInAlphabet(Encode([b0, b1])) && Decode(Encode([b0, b1])) == Some([b0, b1])
  {
    var (v0, v1, v2, _) := Groups(b0, b1, Zeros(8));
    DecodeThree(v0, v1, v2);
    Regrouped(b0, b1, Zeros(8));
  }

  lemma {:induction false} DecodeEncode(b: seq<Byte>)
    ensures AllInAlphabet(Encode(b)) && Decode(Encode(b)) == Some(b)
  {
    if |b| == 1 {
      OneByte(b[0]);
      assert b == [b[0]];
    } else if |b| == 2 {
      TwoBytes(b[0], b[1]);
      assert b == [b[0], b[1]];
    } else if |b| >= 3 {
      var (v0, v1, v2, v3) := Groups(b[0], b[1], b[2]);
      DecodeEncode(b[3..]);
      DecodeGroup(v0, v1, v2, v3, Encode(b[3..]));
      Regrouped(b[0], b[1], b[2]);
      assert b == [b[0], b[1], b[2]] + b[3..];
    }
  }

  // ---- what base64url means ---------------------------------------------------------------------------

  /** The symbols in the order of the values they stand for. */
  const ALPHABET: string := "ABCDEFGHIJKLMNOPQRSTUVWXYZ" + "abcdefghijklmnopqrstuvwxyz" + "0123456789" + "-_"

  lemma Capitals(n: nat)
    requires n < 26
    ensures ALPHABET[n] == ('A' as int + n) as char
  {
    assert ALPHABET[n] == "ABCDEFGHIJKLMNOPQRSTUVWXYZ"[n];
  }

  lemma SmallLetters(n: nat)
    requires n < 26
    ensures ALPHABET[26 + n] == ('a' as int + n) as char
  {
    assert ALPHABET[26 + n] == "abcdefghijklmnopqrstuvwxyz"[n];
  }

  lemma Digits(n: nat)
    requires n < 10
    ensures ALPHABET[52 + n] == ('0' as int + n) as char
  {
    assert ALPHABET[52 + n] == "0123456789"[n];
  }

  lemma LastTwo()
    ensures |ALPHABET| == 64 && ALPHABET[62] == '-' && ALPHABET[63] == '_'
  {
    assert ALPHABET[62] == "-_"[0] && ALPHABET[63] == "-_"[1];
  }

  lemma AlphabetAt(n: nat)
    requires n < 64
    ensures n < |ALPHABET| && ALPHABET[n] ==
      if n < 26 then ('A' as int + n) as char
      else if n < 52 then ('a' as int + (n - 26)) as char
      else if n < 62 then ('0' as int + (n - 52)) as char
      else if n == 62 then '-' else '_'
  {
    LastTwo();
    if n < 26 {
      Capitals(n);
    } else if n < 52 {
      SmallLetters(n - 26);
    } else if n < 62 {
      Digits(n - 52);
    }
  }

  lemma SymbolInOrder(v: Sextet)
    ensures Value(v) < |ALPHABET| && Symbol(v) == ALPHABET[Value(v)]
  {
    SextetValue(v);
    AlphabetAt(Value(v));
  }

  /** The bits of some words one after another, each the highest first. */
  function HighFirst(words: seq<seq<bool>>): seq<bool>
  {
    if words == [] then [] else Reversed(words[0]) + HighFirst(words[1..])
  }

  function Reversed(w: seq<bool>): (r: seq<bool>)
    ensures |r| == |w| && forall i :: 0 <= i < |w| ==> r[i] == w[|w| - 1 - i]
  {
    seq(|w|, i requires 0 <= i < |w| => w[|w| - 1 - i])
  }

  /** e spells these values. */
  ghost predicate Spells(e: string, values: seq<Sextet>)
  {
    |e| == |values| && forall i :: 0 <= i < |e| ==> Value(values[i]) < |ALPHABET| && e[i] == ALPHABET[Value(values[i])]
  }

  lemma GroupKeepsBits(b0: Byte, b1: Byte, b2: Byte)
    ensures var (v0, v1, v2, v3) := Groups(b0, b1, b2);
      Reversed(b0) + (Reversed(b1) + Reversed(b2))
      == Reversed(v0) + (Reversed(v1) + (Reversed(v2) + Reversed(v3)))
  {
    var (v0, v1, v2, v3) := Groups(b0, b1, b2);
    assert Reversed(b0) == Reversed(v0) + Reversed(b0[..2]);
    assert Reversed(v1) == Reversed(b0[..2]) + Reversed(b1[4..]);
    assert Reversed(b1) == Reversed(b1[4..]) + Reversed(b1[..4]);
    assert Reversed(v2) == Reversed(b1[..4]) + Reversed(b2[6..]);
    assert Reversed(b2) == Reversed(b2[6..]) + Reversed(v3);
  }

  lemma HighFirstOne(a: seq<bool>)
    ensures HighFirst([a]) == Reversed(a)
  {
    assert [a][1..] == [] && Reversed(a) + [] == Reversed(a);
  }

  lemma HighFirstTwo(a: seq<bool>, b: seq<bool>)
    ensures HighFirst([a, b]) == Reversed(a) + Reversed(b)
  {
    assert [a, b][1..] == [b];
    HighFirstOne(b);
  }

  lemma HighFirstThree(a: seq<bool>, b: seq<bool>, c: seq<bool>)
    ensures HighFirst([a, b, c]) == Reversed(a) + (Reversed(b) + Reversed(c))
  {
    assert [a, b, c][1..] == [b, c];
    HighFirstTwo(b, c);
  }

  lemma {:induction false} HighFirstAppend(a: seq<seq<bool>>, b: seq<seq<bool>>)
    ensures HighFirst(a + b) == HighFirst(a) + HighFirst(b)
  {
    if a == [] {
      assert a + b == b;
    } else {
      assert (a + b)[1..] == a[1..] + b;
      HighFirstAppend(a[1..], b);
    }
  }

  /** The encoding is the bits of the bytes, cut into sixes from the front, zeros filling up the last six, each
      six written as the symbol in its place of the alphabet. */
  lemma {:induction false} EncodesBits(b: seq<Byte>) returns (values: seq<Sextet>, fill: nat)
    ensures Spells(Encode(b), values) && fill < 6
    ensures HighFirst(values) == HighFirst(b) + Zeros(fill)
  {
    if |b| == 0 {
      values, fill := [], 0;
      assert Zeros(0) == [];
    } else if |b| == 1 {
      values, fill := EncodesOne(b[0]);
      assert b == [b[0]];
    } else if |b| == 2 {
      values, fill := EncodesTwo(b[0], b[1]);
      assert b == [b[0], b[1]];
    } else {
      var (v0, v1, v2, v3) := Groups(b[0], b[1], b[2]);
      var rest;
      rest, fill := EncodesBits(b[3..]);
      values := [v0, v1, v2, v3] + rest;
      FourSpell(v0, v1, v2, v3, Encode(b[3..]), rest);
      FourBits(b[0], b[1], b[2]);
      HighFirstAppend([v0, v1, v2, v3], rest);
      HighFirstAppend([b[0], b[1], b[2]], b[3..]);
      assert b == [b[0], b[1], b[2]] + b[3..];
    }
  }

  lemma FourSpell(v0: Sextet, v1: Sextet, v2: Sextet, v3: Sextet, e: string, rest: seq<Sextet>)
    requires Spells(e, rest)
    ensures Spells([Symbol(v0), Symbol(v1), Symbol(v2), Symbol(v3)] + e, [v0, v1, v2, v3] + rest)
  {
    SymbolInOrder(v0);
    SymbolInOrder(v1);
    SymbolInOrder(v2);
    SymbolInOrder(v3);
  }

  lemma FourBits(b0: Byte, b1: Byte, b2: Byte)
    ensures var (v0, v1, v2, v3) := Groups(b0, b1, b2); HighFirst([v0, v1, v2, v3]) == HighFirst([b0, b1, b2])
  {
    var (v0, v1, v2, v3) := Groups(b0, b1, b2);
    GroupKeepsBits(b0, b1, b2);
    HighFirstThree(b0, b1, b2);
    HighFirstThree(v1, v2, v3);
    assert [v0, v1, v2, v3][1..] == [v1, v2, v3];
  }

  lemma EncodesOne(b: Byte) returns (values: seq<Sextet>, fill: nat)
    ensures Spells(Encode([b]), values) && fill < 6 && HighFirst(values) == HighFirst([b]) + Zeros(fill)
  {
    var (v0, v1, _, _) := Groups(b, Zeros(8), Zeros(8));
    values, fill := [v0, v1], 4;
    SymbolInOrder(v0);
    SymbolInOrder(v1);
    HighFirstTwo(v0, v1);
    HighFirstOne(b);
  }

  lemma EncodesTwo(b0: Byte, b1: Byte) returns (values: seq<Sextet>, fill: nat)
    ensures Spells(Encode([b0, b1]), values) && fill < 6 && HighFirst(values) == HighFirst([b0, b1]) + Zeros(fill)
  {
    var (v0, v1, v2, _) := Groups(b0, b1, Zeros(8));
    values, fill := [v0, v1, v2], 2;
    SymbolInOrder(v0);
    SymbolInOrder(v1);
    SymbolInOrder(v2);
    HighFirstThree(v0, v1, v2);
    HighFirstTwo(b0, b1);
  }

  // ---- lines ------------------------------------------------------------------------------------------

  const HOST_SIGNAL_PREFIX := "webjam-signal:"
  const GUEST_REPLY_PREFIX := "webjam-reply:"
  const MAX_SIGNAL_BYTES := 16 * 1024
  /** The bytes of WJSE. */
  function Magic(): seq<Byte>
  {
    [Of(0x57, 8), Of(0x4A, 8), Of(0x53, 8), Of(0x45, 8)]
  }

  predicate ValidEnvelope(b: seq<Byte>)
  {
    8 <= |b| <= MAX_SIGNAL_BYTES && b[..4] == Magic()
  }

  lemma IsCode(b: Byte, code: nat)
    requires code < 256
    ensures b == Of(code, 8) <==> Value(b) == code
  {
    assert Power(8) == 256;
    ValueOf(code, 8);
    OfValue(b);
  }

  /** From eight bytes to sixteen kibibytes, the first four being the letters WJSE. */
  lemma EnvelopesAre(b: seq<Byte>)
    ensures ValidEnvelope(b)
      <==> 8 <= |b| <= 16384 && Value(b[0]) == 'W' as int && Value(b[1]) == 'J' as int
           && Value(b[2]) == 'S' as int && Value(b[3]) == 'E' as int
  {
    if |b| >= 8 {
      IsCode(b[0], 0x57);
      IsCode(b[1], 0x4A);
      IsCode(b[2], 0x53);
      IsCode(b[3], 0x45);
      assert b[..4] == [b[0], b[1], b[2], b[3]];
    }
  }

  datatype Outcome = Envelope(bytes: seq<Byte>) | Nothing | Invalid

  datatype Line = Text(line: string) | NotValid

  method EncodeSignalLine(prefix: string, envelope: seq<Byte>) returns (r: Line)
    ensures r == if ValidEnvelope(envelope) then Text(prefix + Encode(envelope)) else NotValid
  {
    if |envelope| < 8 || |envelope| > MAX_SIGNAL_BYTES || envelope[..4] != Magic() { return NotValid; }
    return Text(prefix + Encode(envelope));
  }

  /** Where splitting into lines breaks; every such character is also white space. */
  predicate Break(c: char)
  {
    '\n' <= c <= '\r' || '\U{1C}' <= c <= '\U{1E}' || c == '\U{85}' || c == '\U{2028}' || c == '\U{2029}'
  }

  predicate Space(c: char)
  {
    Break(c) || c == '\t' || c == '\U{1F}' || c == ' ' || c == '\U{A0}' || c == '\U{1680}'
    || '\U{2000}' <= c <= '\U{200A}' || c == '\U{202F}' || c == '\U{205F}' || c == '\U{3000}'
  }

  function LineEnd(s: string): (i: nat)
    ensures i <= |s| && (forall k :: 0 <= k < i ==> !Break(s[k])) && (i < |s| ==> Break(s[i]))
  {
    if s == "" || Break(s[0]) then 0 else 1 + LineEnd(s[1..])
  }

  function AfterBreak(s: string, i: nat): (j: nat)
    requires i < |s|
    ensures i < j <= |s|
  {
    if s[i] == '\r' && i + 1 < |s| && s[i + 1] == '\n' then i + 2 else i + 1
  }

  function SplitLines(s: string): seq<string>
    decreases |s|
  {
    if s == "" then []
    else
      var i := LineEnd(s);
      if i == |s| then [s] else [s[..i]] + SplitLines(s[AfterBreak(s, i)..])
  }

  function LeftStripped(s: string): (r: string)
    ensures |r| <= |s| && (r == "" || !Space(r[0]))
  {
    if s == "" || !Space(s[0]) then s else LeftStripped(s[1..])
  }

  function RightStripped(s: string): string
  {
    if s == "" || !Space(s[|s| - 1]) then s else RightStripped(s[..|s| - 1])
  }

  function Stripped(s: string): string
  {
    RightStripped(LeftStripped(s))
  }

  function Unquoted(line: string): string
    decreases |line|
  {
    if line != "" && line[0] == '>' then Unquoted(LeftStripped(line[1..])) else line
  }

  /** What a line carries after the prefix, if it carries the prefix. */
  function Carried(raw: string, prefix: string): Option<string>
  {
    var line := Unquoted(Stripped(raw));
    if prefix <= line then Some(Stripped(line[|prefix|..])) else None
  }

  function AllCarried(lines: seq<string>, prefix: string): seq<string>
  {
    if lines == [] then []
    else
      var last := Carried(lines[|lines| - 1], prefix);
      AllCarried(lines[..|lines| - 1], prefix) + if last.Some? then [last.value] else []
  }

  /** The envelope an encoded payload stands for: only the canonical unpadded form of a valid one. */
  function Opened(encoded: string): Option<seq<Byte>>
  {
    if !AllInAlphabet(encoded) then None
    else
      match Decode(encoded)
      case None => None
      case Some(b) => if Encode(b) == encoded && ValidEnvelope(b) then Some(b) else None
  }

  /** Exactly one line may carry the prefix, and must carry the encoding of a valid envelope. */
  function Parsed(text: string, prefix: string): Outcome
  {
    var carried := AllCarried(SplitLines(text), prefix);
    if carried == [] then Nothing
    else if |carried| == 1 && Opened(carried[0]).Some? then Envelope(Opened(carried[0]).value)
    else Invalid
  }

  /** One line, stripped and unquoted. */
  method Unquote(raw: string) returns (line: string)
    ensures line == Unquoted(Stripped(raw))
  {
    line := Stripped(raw);
    while line != "" && line[0] == '>'
      invariant Unquoted(line) == Unquoted(Stripped(raw))
      decreases |line|
    {
      line := LeftStripped(line[1..]);
    }
  }

  /** Alphabet, decoding, canonical form and envelope, checked in that order. */
  method DecodeSignal(encoded: string) returns (r: Option<seq<Byte>>)
    ensures r == Opened(encoded)
  {
    if !AllInAlphabet(encoded) { return None; }
    var decoded := Decode(encoded);
    if decoded.None? { return None; }
    if Encode(decoded.value) != encoded || !ValidEnvelope(decoded.value) { return None; }
    return decoded;
  }

  method ParseSignalFromPaste(text: string, prefix: string) returns (r: Outcome)
    ensures r == Parsed(text, prefix)
  {
    var found: seq<seq<Byte>> := [];
    var lines := SplitLines(text);
    for i := 0 to |lines|
      invariant AllOpened(AllCarried(lines[..i], prefix), found)
    {
      OneMoreLine(lines, i, prefix);
      var line := Unquote(lines[i]);
      if !(prefix <= line) { continue; }
      var encoded := Stripped(line[|prefix|..]);
      CarriedStays(lines, i, prefix);
      var decoded := DecodeSignal(encoded);
      if decoded.None? { return Invalid; }
      found := found + [decoded.value];
    }
    assert lines[..|lines|] == lines;
    if |found| > 1 { return Invalid; }
    if |found| == 1 { return Envelope(found[0]); }
    return Nothing;
  }

  lemma OneMoreLine(lines: seq<string>, i: nat, prefix: string)
    requires i < |lines|
    ensures AllCarried(lines[..i + 1], prefix) ==
      AllCarried(lines[..i], prefix) + if Carried(lines[i], prefix).Some? then [Carried(lines[i], prefix).value] else []
  {
    assert lines[..i + 1][..i] == lines[..i];
  }

  ghost predicate AllOpened(carried: seq<string>, found: seq<seq<Byte>>)
  {
    |found| == |carried| && forall k :: 0 <= k < |found| ==> Opened(carried[k]) == Some(found[k])
  }

  /** What line i carries is among what all lines carry, after what the lines before it carry. */
  lemma {:induction false} CarriedStays(lines: seq<string>, i: nat, prefix: string)
    requires i < |lines| && Carried(lines[i], prefix).Some?
    ensures var n := |AllCarried(lines[..i], prefix)|; var all := AllCarried(lines, prefix);
      n < |all| && all[n] == Carried(lines[i], prefix).value
    decreases |lines|
  {
    if i == |lines| - 1 {
    } else {
      var init := lines[..|lines| - 1];
      assert init[..i] == lines[..i];
      CarriedStays(init, i, prefix);
    }
  }

  // ---- round trips ---------------------------------------------------------------------------------

  /** A payload opens to an envelope exactly when it is that valid envelope's own encoding. */
  lemma OpenedIsCanonical(encoded: string, b: seq<Byte>)
    ensures Opened(encoded) == Some(b) <==> ValidEnvelope(b) && encoded == Encode(b)
  {
    DecodeEncode(b);
  }

  lemma {:induction false} AllCarriedAppend(a: seq<string>, b: seq<string>, prefix: string)
    ensures AllCarried(a + b, prefix) == AllCarried(a, prefix) + AllCarried(b, prefix)
  {
    if b == [] {
      assert a + b == a;
    } else {
      var init := b[..|b| - 1];
      assert (a + b)[..|a + b| - 1] == a + init;
      AllCarriedAppend(a, init, prefix);
    }
  }

  predicate NoneCarries(lines: seq<string>, prefix: string)
  {
    forall i :: 0 <= i < |lines| ==> Carried(lines[i], prefix).None?
  }

  lemma NoneBefore(lines: seq<string>, prefix: string)
    requires lines != []
    ensures NoneCarries(lines, prefix)
      <==> NoneCarries(lines[..|lines| - 1], prefix) && Carried(lines[|lines| - 1], prefix).None?
  {
    var n := |lines| - 1;
    assert forall i :: 0 <= i < n ==> lines[..n][i] == lines[i];
  }

  lemma {:induction false} NothingCarried(lines: seq<string>, prefix: string)
    ensures AllCarried(lines, prefix) == [] <==> NoneCarries(lines, prefix)
  {
    if lines != [] {
      NothingCarried(lines[..|lines| - 1], prefix);
      NoneBefore(lines, prefix);
    }
  }

  predicate AllSpace(s: string)
  {
    forall i :: 0 <= i < |s| ==> Space(s[i])
  }

  predicate Quoting(s: string)
  {
    forall i :: 0 <= i < |s| ==> Space(s[i]) || s[i] == '>'
  }

  predicate OneLine(s: string)
  {
    forall i :: 0 <= i < |s| ==> !Break(s[i])
  }

  predicate Solid(s: string)
  {
    s != "" && !Space(s[0]) && s[0] != '>' && !Space(s[|s| - 1])
  }

  lemma PrefixesAreSolid()
    ensures Solid(HOST_SIGNAL_PREFIX) && Solid(GUEST_REPLY_PREFIX)
  {
  }

  lemma {:induction false} LeftOf(lead: string, core: string) returns (kept: string)
    requires core != "" && !Space(core[0])
    ensures LeftStripped(lead + core) == kept + core
    ensures |kept| <= |lead| && kept == lead[|lead| - |kept|..]
  {
    if lead == "" || !Space(lead[0]) {
      kept := lead;
      assert lead == "" ==> lead + core == core;
    } else {
      assert (lead + core)[1..] == lead[1..] + core;
      kept := LeftOf(lead[1..], core);
    }
  }

  lemma {:induction false} RightOf(core: string, tail: string)
    requires core != "" && !Space(core[|core| - 1]) && AllSpace(tail)
    ensures RightStripped(core + tail) == core
  {
    if tail == "" {
      assert core + tail == core;
    } else {
      assert (core + tail)[..|core + tail| - 1] == core + tail[..|tail| - 1];
      RightOf(core, tail[..|tail| - 1]);
    }
  }

  lemma {:induction false} UnquotedLead(lead: string, core: string)
    requires Solid(core) && Quoting(lead)
    ensures Unquoted(LeftStripped(lead + core)) == core
  {
    if lead == "" {
      assert lead + core == core;
    } else {
      assert (lead + core)[1..] == lead[1..] + core;
      UnquotedLead(lead[1..], core);
    }
  }

  /** Stripping and unquoting remove quote marks and padding around a solid middle, and nothing else. */
  lemma UnquotedLine(lead: string, core: string, tail: string)
    requires Solid(core) && Quoting(lead) && AllSpace(tail)
    ensures Unquoted(Stripped(lead + core + tail)) == core
  {
    assert lead + core + tail == lead + (core + tail);
    var kept := LeftOf(lead, core + tail);
    assert kept + (core + tail) == (kept + core) + tail;
    RightOf(kept + core, tail);
    assert Stripped(lead + core + tail) == kept + core;
    assert LeftStripped(kept + core) == kept + core by {
      assert LeftStripped(lead + (core + tail)) == kept + (core + tail);
      assert (kept + core)[0] == (kept + (core + tail))[0];
    }
    UnquotedLead(kept, core);
  }

  lemma StrippedPadding(lead: string, core: string)
    requires Solid(core) && AllSpace(lead)
    ensures Stripped(lead + core) == core
  {
    var kept := LeftOf(lead, core);
    assert (kept + core)[0] == LeftStripped(lead + core)[0];
    assert kept == "";
    RightOf(core, "");
    assert core + "" == core && kept + core == core;
  }

  /** A prefix and an encoding, quoted and padded, is a line that carries exactly that encoding. */
  lemma DecoratedCarries(lead: string, prefix: string, gap: string, encoded: string, tail: string)
    requires Solid(prefix) && Solid(encoded) && Quoting(lead) && AllSpace(gap) && AllSpace(tail)
    ensures Carried(lead + (prefix + gap + encoded) + tail, prefix) == Some(encoded)
  {
    var core := prefix + gap + encoded;
    UnquotedLine(lead, core, tail);
    assert core[|prefix|..] == gap + encoded;
    StrippedPadding(gap, encoded);
  }

  lemma {:induction false} EncodedIsSolid(b: seq<Byte>)
    requires b != []
    ensures Solid(Encode(b)) && OneLine(Encode(b))
  {
    DecodeEncode(b);
    var e := Encode(b);
    assert InAlphabet(e[0]) && InAlphabet(e[|e| - 1]);
  }

  /** A host's line is no reply, and a reply no host's line, however they are quoted and padded. */
  lemma KindsDoNotMix(lead: string, gap: string, encoded: string, tail: string)
    requires Solid(encoded) && Quoting(lead) && AllSpace(gap) && AllSpace(tail)
    ensures Carried(lead + (HOST_SIGNAL_PREFIX + gap + encoded) + tail, GUEST_REPLY_PREFIX).None?
    ensures Carried(lead + (GUEST_REPLY_PREFIX + gap + encoded) + tail, HOST_SIGNAL_PREFIX).None?
  {
    var host, guest := HOST_SIGNAL_PREFIX + gap + encoded, GUEST_REPLY_PREFIX + gap + encoded;
    UnquotedLine(lead, host, tail);
    UnquotedLine(lead, guest, tail);
    assert host[7] == 's' && guest[7] == 'r' && GUEST_REPLY_PREFIX[7] == 'r' && HOST_SIGNAL_PREFIX[7] == 's';
  }

  /** The code points that end a line, and all that count as white space. */
  lemma SpacesAre(c: char)
    ensures Break(c) <==> c as int in {0x0A, 0x0B, 0x0C, 0x0D, 0x1C, 0x1D, 0x1E, 0x85, 0x2028, 0x2029}
    ensures Space(c)
      <==> Break(c) || c as int in {0x09, 0x1F, 0x20, 0xA0, 0x1680, 0x2000, 0x2001, 0x2002, 0x2003, 0x2004, 0x2005,
                                    0x2006, 0x2007, 0x2008, 0x2009, 0x200A, 0x202F, 0x205F, 0x3000}
  {
  }

  // ---- splitting around a line ------------------------------------------------------------------------

  lemma {:induction false} LineEndIs(s: string, n: nat)
    requires n <= |s| && OneLine(s[..n]) && (n < |s| ==> Break(s[n]))
    ensures LineEnd(s) == n
  {
    if n > 0 {
      assert s[0] == s[..n][0];
      assert s[1..][..n - 1] == s[..n][1..];
      LineEndIs(s[1..], n - 1);
    }
  }

  lemma FirstLine(s: string, i: nat)
    requires i < |s| && OneLine(s[..i]) && Break(s[i])
    ensures SplitLines(s) == [s[..i]] + SplitLines(s[AfterBreak(s, i)..])
  {
    LineEndIs(s, i);
  }

  /** c ends a line before b: a break that is not the first half of a carriage return, line feed pair. */
  predicate Ends(c: char, b: string)
  {
    Break(c) && (c == '\r' && b != "" ==> b[0] != '\n')
  }

  /** Where the first line of a + [c] ends, and what is left after it with and without b behind. */
  /** The lines of a text: up to its first break, which is two characters where a line feed follows a carriage
      return and one otherwise, and then those of what follows. */
  lemma LinesExactly(line: string, b: string, rest: string)
    requires OneLine(line)
    requires b == "\r\n" || (|b| == 1 && Break(b[0]) && (b == "\r" ==> rest == "" || rest[0] != '\n'))
    ensures SplitLines(line + b + rest) == [line] + SplitLines(rest)
    ensures line != "" ==> SplitLines(line) == [line]
  {
    var s := line + b + rest;
    assert s[..|line|] == line && s[|line|] == b[0];
    LineEndIs(s, |line|);
    assert line[..|line|] == line;
    LineEndIs(line, |line|);
    assert s[|line| + |b|..] == rest;
  }

  lemma FirstBreak(a: string, c: char, b: string) returns (i: nat, j: nat)
    requires Ends(c, b)
    ensures i <= |a| && i < j <= |a| + 1
    ensures var s, t := a + [c] + b, a + [c];
      && OneLine(t[..i]) && Break(t[i]) && s[..i] == t[..i] && s[i] == t[i] && AfterBreak(t, i) == AfterBreak(s, i) == j
      && (if j == |a| + 1 then s[j..] == b && t[j..] == "" else s[j..] == a[j..] + [c] + b && t[j..] == a[j..] + [c])
  {
    var s, t := a + [c] + b, a + [c];
    i := LineEnd(t);
    assert t[|a|] == c;
    j := AfterBreak(t, i);
    assert s[..i] == t[..i];
  }

  /** Such a break ends a line whatever comes before it: a line feed, even after a carriage return. */
  lemma {:induction false} SplitAtBreak(a: string, c: char, b: string)
    requires Ends(c, b)
    ensures SplitLines(a + [c] + b) == SplitLines(a + [c]) + SplitLines(b)
    decreases |a|
  {
    var i, j := FirstBreak(a, c, b);
    FirstLine(a + [c] + b, i);
    FirstLine(a + [c], i);
    if j <= |a| {
      SplitAtBreak(a[j..], c, b);
      Associates([(a + [c])[..i]], SplitLines(a[j..] + [c]), SplitLines(b));
    }
  }

  /** What follows the line break rest starts with. */
  function Below(rest: string): string
  {
    if rest == "" then "" else rest[AfterBreak(rest, 0)..]
  }

  lemma SplitOneLine(line: string, rest: string)
    requires line != "" && OneLine(line) && (rest == "" || Break(rest[0]))
    ensures SplitLines(line + rest) == [line] + SplitLines(Below(rest))
  {
    var s := line + rest;
    assert s[..|line|] == line;
    LineEndIs(s, |line|);
    if rest == "" {
      assert s == line;
    } else {
      FirstLine(s, |line|);
      assert s[AfterBreak(s, |line|)..] == Below(rest);
    }
  }

  lemma SplitAfter(above: string, s: string)
    requires above == "" || Ends(above[|above| - 1], s)
    ensures SplitLines(above + s) == SplitLines(above) + SplitLines(s)
  {
    if above == "" {
      assert above + s == s;
    } else {
      var a, c := above[..|above| - 1], above[|above| - 1];
      assert above == a + [c];
      SplitAtBreak(a, c, s);
    }
  }

  /** A line of its own splits off from what stands above and below it. */
  lemma SplitAround(above: string, line: string, rest: string)
    requires line != "" && OneLine(line)
    requires (above == "" || Break(above[|above| - 1])) && (rest == "" || Break(rest[0]))
    ensures SplitLines(above + (line + rest)) == SplitLines(above) + ([line] + SplitLines(Below(rest)))
  {
    SplitOneLine(line, rest);
    assert (line + rest)[0] == line[0];
    SplitAfter(above, line + rest);
  }

  /** A valid envelope encoded, quoted, padded and put on a line of its own anywhere in a text is recovered
      exactly when no other line of the text carries the prefix; otherwise the paste is refused. */
  lemma PastedRoundTrip(above: string, lead: string, prefix: string, gap: string, b: seq<Byte>, tail: string,
                        rest: string)
    requires (above == "" || Break(above[|above| - 1])) && (rest == "" || Break(rest[0]))
    requires Solid(prefix) && Quoting(lead) && AllSpace(gap) && AllSpace(tail)
    requires OneLine(lead) && OneLine(prefix) && OneLine(gap) && OneLine(tail)
    requires ValidEnvelope(b)
    ensures var text := above + (lead + (prefix + gap + Encode(b)) + tail + rest);
      Parsed(text, prefix) == if NoneCarries(SplitLines(above), prefix) && NoneCarries(SplitLines(Below(rest)), prefix)
                              then Envelope(b) else Invalid
  {
    var line := lead + (prefix + gap + Encode(b)) + tail;
    EncodedIsSolid(b);
    assert OneLine(line);
    SplitAround(above, line, rest);
    DecoratedCarries(lead, prefix, gap, Encode(b), tail);
    OthersDecide(SplitLines(above), line, SplitLines(Below(rest)), prefix, b);
  }

  /** Among lines of which one carries the encoding of b, the others decide. */
  lemma OthersDecide(above: seq<string>, line: string, below: seq<string>, prefix: string, b: seq<Byte>)
    requires ValidEnvelope(b) && Carried(line, prefix) == Some(Encode(b))
    ensures var carried := AllCarried(above + ([line] + below), prefix);
      if NoneCarries(above, prefix) && NoneCarries(below, prefix)
      then carried == [Encode(b)] && Opened(carried[0]) == Some(b)
      else |carried| > 1
  {
    AllCarriedAppend(above, [line] + below, prefix);
    AllCarriedAppend([line], below, prefix);
    assert AllCarried([line], prefix) == [Encode(b)] by {
      assert [line][..0] == [];
    }
    NothingCarried(above, prefix);
    NothingCarried(below, prefix);
    OpenedIsCanonical(Encode(b), b);
  }

  /** What an accepted paste says: one line alone carries the prefix, and carries the envelope's own
      canonical encoding; a paste is empty-handed only when no line carries it. */
  lemma AcceptedIsCanonical(text: string, prefix: string, b: seq<Byte>)
    ensures Parsed(text, prefix) == Envelope(b)
      <==> ValidEnvelope(b) && AllCarried(SplitLines(text), prefix) == [Encode(b)]
    ensures Parsed(text, prefix).Nothing? <==> NoneCarries(SplitLines(text), prefix)
  {
    var carried := AllCarried(SplitLines(text), prefix);
    NothingCarried(SplitLines(text), prefix);
    if |carried| == 1 {
      OpenedIsCanonical(carried[0], b);
    }
  }
}
