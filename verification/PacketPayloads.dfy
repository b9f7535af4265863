/** The two payloads read from packets: the list of connected clients and the list of channel levels. */
module PacketPayloads {
  import opened Bits
  import opened PacketCodec

  // ---- connected clients ---------------------------------------------------------------------------

  /** A client's own name, or a placeholder made from its channel when the name is blank. */
  datatype ClientName = Given(text: string) | Placeholder(channel: nat)

  function NameOf(text: string, channel: nat): ClientName
  {
    if text == "" then Placeholder(channel) else Given(text)
  }

  /** The bytes of a length-prefixed string and the offset after it, both cut off by the end of the data. */
  function StringAt(data: seq<Byte>, offset: nat): (r: (seq<Byte>, nat))
    ensures offset <= |data| ==> offset <= r.1 <= |data|
  {
    if offset + 2 > |data| then ([], offset)
    else
      var end := offset + 2 + Value(WordAt(data, offset));
      var end := if end < |data| then end else |data|;
      (data[offset + 2..end], end)
  }

  /** The map built by reading on from offset. text decodes and strips a name. */
  function ClientsFrom(data: seq<Byte>, offset: nat, clients: map<nat, ClientName>, text: seq<Byte> -> string)
    : map<nat, ClientName>
    requires offset <= |data|
    decreases |data| - offset
  {
    if offset + 9 > |data| then clients
    else
      var channel := Value(WordAt(data, offset));
      var (name, city) := StringAt(data, offset + 9);
      var (_, next) := StringAt(data, city);
      ClientsFrom(data, next, clients[channel := NameOf(text(name), channel)], text)
  }

  method ParseClients(data: seq<Byte>, text: seq<Byte> -> string) returns (clients: map<nat, ClientName>)
    ensures clients == ClientsFrom(data, 0, map[], text)
  {
    clients := map[];
    var offset := 0;
    while offset + 9 <= |data|
      invariant offset <= |data|
      invariant ClientsFrom(data, offset, clients, text) == ClientsFrom(data, 0, map[], text)
      decreases |data| - offset
    {
      var channel := Value(WordAt(data, offset));
      offset := offset + 2;
      offset := offset + 2;
      offset := offset + 4;
      offset := offset + 1;
      var (name, afterName) := StringAt(data, offset);
      var (_, afterCity) := StringAt(data, afterName);
      offset := afterCity;
      clients := clients[channel := NameOf(text(name), channel)];
    }
  }

  /** One client as the sender lays it out. */
  datatype Entry = Entry(channel: Word, country: Word, instrument: (Word, Word), skill: Byte,
                         name: seq<Byte>, city: seq<Byte>)

  predicate Fits(e: Entry)
  {
    |e.name| < 0x10000 && |e.city| < 0x10000
  }

  function Prefixed(s: seq<Byte>): seq<Byte>
    requires |s| < 0x10000
  {
    Bytes(Of(|s|, 16)) + s
  }

  function Head(e: Entry): (r: seq<Byte>)
    ensures |r| == 9
  {
    Bytes(e.channel) + Bytes(e.country) + Bytes(e.instrument.0) + Bytes(e.instrument.1) + [e.skill]
  }

  function Laid(e: Entry): seq<Byte>
    requires Fits(e)
  {
    Head(e) + Prefixed(e.name) + Prefixed(e.city)
  }

  function AllLaid(entries: seq<Entry>): seq<Byte>
    requires forall e :: e in entries ==> Fits(e)
  {
    if entries == [] then [] else Laid(entries[0]) + AllLaid(entries[1..])
  }

  /** What a list of clients says: each channel's last entry names it. */
  ghost predicate Says(clients: map<nat, ClientName>, entries: seq<Entry>, text: seq<Byte> -> string)
  {
    && (forall c: nat :: c in clients <==> Listed(entries, c))
    && (forall i :: 0 <= i < |entries| && IsLast(entries, i) ==>
          var c, name := Value(entries[i].channel), text(entries[i].name);
          && c in clients
          && (name != "" ==> clients[c] == Given(name)) && (name == "" ==> clients[c] == Placeholder(c)))
  }

  predicate Listed(entries: seq<Entry>, c: nat)
  {
    exists i :: 0 <= i < |entries| && Value(entries[i].channel) == c
  }

  predicate IsLast(entries: seq<Entry>, i: nat)
    requires i < |entries|
  {
    forall j :: i < j < |entries| ==> Value(entries[j].channel) != Value(entries[i].channel)
  }

  lemma StringRead(data: seq<Byte>, before: seq<Byte>, s: seq<Byte>, after: seq<Byte>)
    requires |s| < 0x10000 && data == before + Prefixed(s) + after
    ensures StringAt(data, |before|) == (s, |before| + 2 + |s|)
  {
    var at := |before|;
    assert data[at..at + 2] == Bytes(Of(|s|, 16));
    assert data[at] == data[at..at + 2][0] && data[at + 1] == data[at..at + 2][1];
    WordOfBytes(data, at, Of(|s|, 16));
    WordRoundTrip(|s|);
    assert data[at + 2..at + 2 + |s|] == s;
  }

  lemma ChannelRead(before: seq<Byte>, e: Entry, after: seq<Byte>)
    requires Fits(e)
    ensures WordAt(before + Laid(e) + after, |before|) == e.channel
  {
    var data := before + Laid(e) + after;
    assert data[|before|] == Bytes(e.channel)[0] && data[|before| + 1] == Bytes(e.channel)[1];
    WordOfBytes(data, |before|, e.channel);
  }

  lemma NameRead(before: seq<Byte>, e: Entry, after: seq<Byte>)
    requires Fits(e)
    ensures StringAt(before + Laid(e) + after, |before| + 9) == (e.name, |before| + 11 + |e.name|)
  {
    var data := before + Laid(e) + after;
    assert data == (before + Head(e)) + Prefixed(e.name) + (Prefixed(e.city) + after);
    StringRead(data, before + Head(e), e.name, Prefixed(e.city) + after);
  }

  lemma CityRead(before: seq<Byte>, e: Entry, after: seq<Byte>)
    requires Fits(e)
    ensures StringAt(before + Laid(e) + after, |before| + 11 + |e.name|) == (e.city, |before + Laid(e)|)
  {
    var data := before + Laid(e) + after;
    assert data == (before + Head(e) + Prefixed(e.name)) + Prefixed(e.city) + after;
    StringRead(data, before + Head(e) + Prefixed(e.name), e.city, after);
  }

  /** Reading one laid-out entry takes exactly its own bytes. */
  lemma EntryRead(data: seq<Byte>, before: seq<Byte>, e: Entry, after: seq<Byte>, clients: map<nat, ClientName>,
                  text: seq<Byte> -> string)
    requires Fits(e) && data == before + Laid(e) + after
    ensures var c := Value(e.channel);
      ClientsFrom(data, |before|, clients, text)
      == ClientsFrom(data, |before + Laid(e)|, clients[c := NameOf(text(e.name), c)], text)
  {
    ChannelRead(before, e, after);
    NameRead(before, e, after);
    CityRead(before, e, after);
  }

  function Named(entries: seq<Entry>, clients: map<nat, ClientName>, text: seq<Byte> -> string): map<nat, ClientName>
  {
    if entries == [] then clients
    else
      var c := Value(entries[0].channel);
      Named(entries[1..], clients[c := NameOf(text(entries[0].name), c)], text)
  }

  lemma TakeFirst(data: seq<Byte>, at: nat, first: seq<Byte>, later: seq<Byte>)
    requires at <= |data| && data[at..] == first + later
    ensures at + |first| <= |data| && data[at + |first|..] == later
    ensures data == data[..at] + first + data[at + |first|..]
  {
    assert data[at + |first|..] == data[at..][|first|..];
    assert data == data[..at] + data[at..];
  }

  lemma FirstLaid(entries: seq<Entry>, rest: seq<Byte>)
    requires (forall e :: e in entries ==> Fits(e)) && entries != []
    ensures AllLaid(entries) + rest == Laid(entries[0]) + (AllLaid(entries[1..]) + rest)
  {
  }

  lemma FirstRead(entries: seq<Entry>, rest: seq<Byte>, data: seq<Byte>, at: nat, clients: map<nat, ClientName>,
                  text: seq<Byte> -> string)
    requires (forall e :: e in entries ==> Fits(e)) && entries != []
    requires at <= |data| && data[at..] == AllLaid(entries) + rest
    ensures var e, c, next := entries[0], Value(entries[0].channel), at + |Laid(entries[0])|;
      && next <= |data| && data[next..] == AllLaid(entries[1..]) + rest
      && ClientsFrom(data, at, clients, text) == ClientsFrom(data, next, clients[c := NameOf(text(e.name), c)], text)
  {
    FirstLaid(entries, rest);
    TakeFirst(data, at, Laid(entries[0]), AllLaid(entries[1..]) + rest);
    EntryRead(data, data[..at], entries[0], data[at + |Laid(entries[0])|..], clients, text);
  }

  /** Reading laid-out entries takes exactly their bytes, whatever follows. */
  lemma {:induction false} EntriesRead(entries: seq<Entry>, rest: seq<Byte>, data: seq<Byte>, at: nat,
                                       clients: map<nat, ClientName>, text: seq<Byte> -> string)
    requires (forall e :: e in entries ==> Fits(e)) && at <= |data| && data[at..] == AllLaid(entries) + rest
    ensures ClientsFrom(data, at, clients, text)
         == ClientsFrom(data, |data| - |rest|, Named(entries, clients, text), text)
    decreases |entries|
  {
    if entries == [] {
      assert |data[at..]| == |rest|;
    } else {
      var e, c := entries[0], Value(entries[0].channel);
      FirstRead(entries, rest, data, at, clients, text);
      EntriesRead(entries[1..], rest, data, at + |Laid(e)|, clients[c := NameOf(text(e.name), c)], text);
    }
  }

  lemma ListRead(entries: seq<Entry>, rest: seq<Byte>, text: seq<Byte> -> string)
    requires forall e :: e in entries ==> Fits(e)
    ensures var data, all := AllLaid(entries) + rest, AllLaid(entries);
      ClientsFrom(data, 0, map[], text) == ClientsFrom(data, |all|, Named(entries, map[], text), text)
  {
    var data := AllLaid(entries) + rest;
    assert data[0..] == data;
    EntriesRead(entries, rest, data, 0, map[], text);
  }

  lemma {:induction false} NamedKeys(entries: seq<Entry>, clients: map<nat, ClientName>, text: seq<Byte> -> string,
                                     c: nat)
    ensures c in Named(entries, clients, text) <==> c in clients || Listed(entries, c)
    decreases |entries|
  {
    if entries != [] {
      var c0, rest := Value(entries[0].channel), entries[1..];
      NamedKeys(rest, clients[c0 := NameOf(text(entries[0].name), c0)], text, c);
      ListedLater(entries, c);
    }
  }

  lemma ListedLater(entries: seq<Entry>, c: nat)
    requires entries != []
    ensures Listed(entries, c) <==> Value(entries[0].channel) == c || Listed(entries[1..], c)
  {
    assert forall i :: 0 <= i < |entries| - 1 ==> entries[1..][i] == entries[i + 1];
  }

  lemma {:induction false} NamedUntouched(entries: seq<Entry>, clients: map<nat, ClientName>,
                                          text: seq<Byte> -> string, c: nat)
    requires c in clients && forall i :: 0 <= i < |entries| ==> Value(entries[i].channel) != c
    ensures c in Named(entries, clients, text) && Named(entries, clients, text)[c] == clients[c]
    decreases |entries|
  {
    if entries != [] {
      var c0 := Value(entries[0].channel);
      NamedUntouched(entries[1..], clients[c0 := NameOf(text(entries[0].name), c0)], text, c);
    }
  }

  lemma {:induction false} NamedByTheLast(entries: seq<Entry>, clients: map<nat, ClientName>,
                                          text: seq<Byte> -> string, i: nat)
    requires i < |entries| && IsLast(entries, i)
    ensures var c, r := Value(entries[i].channel), Named(entries, clients, text);
      c in r && r[c] == NameOf(text(entries[i].name), c)
    decreases |entries|
  {
    var c0, rest := Value(entries[0].channel), entries[1..];
    var more := clients[c0 := NameOf(text(entries[0].name), c0)];
    assert forall j :: 0 <= j < |rest| ==> rest[j] == entries[j + 1];
    if i == 0 {
      NamedUntouched(rest, more, text, c0);
    } else {
      NamedByTheLast(rest, more, text, i - 1);
    }
  }

  lemma NamedSays(entries: seq<Entry>, text: seq<Byte> -> string)
    ensures Says(Named(entries, map[], text), entries, text)
  {
    forall c: nat ensures c in Named(entries, map[], text) <==> Listed(entries, c) {
      NamedKeys(entries, map[], text, c);
    }
    forall i | 0 <= i < |entries| && IsLast(entries, i)
      ensures var c, r := Value(entries[i].channel), Named(entries, map[], text);
        c in r && r[c] == NameOf(text(entries[i].name), c)
    {
      NamedByTheLast(entries, map[], text, i);
    }
  }

  /** Decoding any concatenation of laid-out entries, with fewer than nine stray bytes after them, names
      every listed channel by its last entry, and no other. */
  lemma ClientListRoundTrip(entries: seq<Entry>, rest: seq<Byte>, text: seq<Byte> -> string)
    requires (forall e :: e in entries ==> Fits(e)) && |rest| < 9
    ensures Says(ClientsFrom(AllLaid(entries) + rest, 0, map[], text), entries, text)
  {
    ListRead(entries, rest, text);
    NamedSays(entries, text);
  }

  /** An entry of which nine bytes or more arrived, with as much of its name as did. */
  function CutOff(e: Entry, n: nat): Entry
  {
    e.(name := if n < 11 then [] else if n < 11 + |e.name| then e.name[..n - 11] else e.name)
  }

  lemma CutString(data: seq<Byte>, at: nat, s: seq<Byte>, n: nat)
    requires |s| < 0x10000 && at + n == |data| && n <= 2 + |s| && data[at..] == Prefixed(s)[..n]
    ensures StringAt(data, at) == if n < 2 then ([], at) else (s[..n - 2], |data|)
  {
    if n >= 2 {
      assert data[at] == data[at..][0] && data[at + 1] == data[at..][1];
      WordOfBytes(data, at, Of(|s|, 16));
      WordRoundTrip(|s|);
      assert data[at + 2..|data|] == data[at..][2..];
      assert Prefixed(s)[..n][2..] == s[..n - 2];
    }
  }

  lemma CutName(before: seq<Byte>, e: Entry, n: nat)
    requires Fits(e) && 9 <= n < |Laid(e)|
    ensures var data := before + Laid(e)[..n];
      var (name, next) := StringAt(data, |before| + 9);
      WordAt(data, |before|) == e.channel && name == CutOff(e, n).name
  {
    var data, at := before + Laid(e)[..n], |before| + 9;
    assert Laid(e)[..n][0] == Bytes(e.channel)[0] && Laid(e)[..n][1] == Bytes(e.channel)[1];
    WordOfBytes(data, |before|, e.channel);
    var tail := Prefixed(e.name) + Prefixed(e.city);
    assert Laid(e) == Head(e) + tail;
    assert data[at..] == tail[..n - 9];
    if n <= 11 + |e.name| {
      assert tail[..n - 9] == Prefixed(e.name)[..n - 9];
      CutString(data, at, e.name, n - 9);
    } else {
      assert data == (before + Head(e)) + Prefixed(e.name) + Prefixed(e.city)[..n - 11 - |e.name|];
      StringRead(data, before + Head(e), e.name, Prefixed(e.city)[..n - 11 - |e.name|]);
    }
  }

  lemma CutEntryRead(before: seq<Byte>, e: Entry, n: nat, clients: map<nat, ClientName>, text: seq<Byte> -> string)
    requires Fits(e) && 9 <= n < |Laid(e)|
    ensures var c := Value(e.channel);
      ClientsFrom(before + Laid(e)[..n], |before|, clients, text)
      == clients[c := NameOf(text(CutOff(e, n).name), c)]
  {
    var data := before + Laid(e)[..n];
    CutName(before, e, n);
    CutCity(before, e, n);
  }

  /** After a cut entry fewer than nine bytes are left. */
  lemma CutCity(before: seq<Byte>, e: Entry, n: nat)
    requires Fits(e) && 9 <= n < |Laid(e)|
    ensures var data := before + Laid(e)[..n];
      StringAt(data, StringAt(data, |before| + 9).1).1 + 9 > |data|
  {
    var data, at := before + Laid(e)[..n], |before| + 9;
    var tail := Prefixed(e.name) + Prefixed(e.city);
    assert Laid(e) == Head(e) + tail;
    assert data[at..] == tail[..n - 9];
    if n <= 11 + |e.name| {
      assert tail[..n - 9] == Prefixed(e.name)[..n - 9];
      CutString(data, at, e.name, n - 9);
    } else {
      var k := n - 11 - |e.name|;
      assert data == (before + Head(e)) + Prefixed(e.name) + Prefixed(e.city)[..k];
      StringRead(data, before + Head(e), e.name, Prefixed(e.city)[..k]);
      assert data[at + 2 + |e.name|..] == Prefixed(e.city)[..k];
      CutString(data, at + 2 + |e.name|, e.city, k);
    }
  }

  /** And with the data cut off inside an entry, after its head, that one is listed too, by as much of its name
      as arrived. */
  lemma CutListRoundTrip(entries: seq<Entry>, e: Entry, n: nat, text: seq<Byte> -> string)
    requires (forall e :: e in entries ==> Fits(e)) && Fits(e) && 9 <= n < |Laid(e)|
    ensures Says(ClientsFrom(AllLaid(entries) + Laid(e)[..n], 0, map[], text), entries + [CutOff(e, n)], text)
  {
    ListRead(entries, Laid(e)[..n], text);
    CutEntryRead(AllLaid(entries), e, n, Named(entries, map[], text), text);
    NamedOneMore(entries, CutOff(e, n), map[], text);
    NamedSays(entries + [CutOff(e, n)], text);
  }

  lemma {:induction false} NamedOneMore(entries: seq<Entry>, e: Entry, clients: map<nat, ClientName>,
                                        text: seq<Byte> -> string)
    ensures var c := Value(e.channel);
      Named(entries + [e], clients, text) == Named(entries, clients, text)[c := NameOf(text(e.name), c)]
    decreases |entries|
  {
    if entries == [] {
      assert (entries + [e])[1..] == [];
    } else {
      var c := Value(entries[0].channel);
      assert (entries + [e])[1..] == entries[1..] + [e];
      NamedOneMore(entries[1..], e, clients[c := NameOf(text(entries[0].name), c)], text);
    }
  }

  // ---- channel levels -----------------------------------------------------------------------------

  const MAX_LEVELS := 500

  function Level(data: seq<Byte>, i: nat): real
    requires 2 * i + 2 <= |data|
  {
    var level := Value(WordAt(data, 2 * i)) as real / 32767.0;
    if level < 1.0 then level else 1.0
  }

  function Entries(data: seq<Byte>): nat
  {
    if |data| / 2 < MAX_LEVELS then |data| / 2 else MAX_LEVELS
  }

  /** level is a number of 0 to 32767 as its part of 1; a larger number is 1. */
  predicate PartOf(level: real, number: nat)
  {
    if number < 32767 then level * 32767.0 == number as real else level == 1.0
  }

  lemma LevelIsPart(data: seq<Byte>, i: nat)
    requires 2 * i + 2 <= |data|
    ensures PartOf(Level(data, i), Number(data, 2 * i)) && 0.0 <= Level(data, i) <= 1.0
  {
    NumberIsWord(data, 2 * i);
  }

  method ParseLevels(data: seq<Byte>) returns (levels: seq<real>)
    ensures |levels| <= 500 && 2 * |levels| <= |data| && (|levels| == 500 || |data| < 2 * |levels| + 2)
    ensures forall i :: 0 <= i < |levels| ==> 0.0 <= levels[i] <= 1.0 && PartOf(levels[i], Number(data, 2 * i))
  {
    levels := [];
    for i := 0 to Entries(data)
      invariant |levels| == i
      invariant forall k :: 0 <= k < i ==> 0.0 <= levels[k] <= 1.0 && PartOf(levels[k], Number(data, 2 * k))
    {
      LevelIsPart(data, i);
      levels := levels + [Level(data, i)];
    }
  }

  /** No index from i + 1 up to n names the channel index i does. */
  predicate LastIn(order: seq<nat>, n: nat, i: nat)
    requires i < |order|
  {
    forall j :: i < j < n && j < |order| ==> order[j] != order[i]
  }

  predicate Found(order: seq<nat>, n: nat, c: nat)
  {
    exists i :: 0 <= i < n && i < |order| && order[i] == c
  }

  /** The channels named up to index n, each with the level at its last index. */
  ghost predicate Maps(mapped: map<nat, real>, levels: seq<real>, order: seq<nat>, n: nat)
    requires n <= |levels|
  {
    && (forall c: nat :: c in mapped <==> Found(order, n, c))
    && (forall i :: 0 <= i < n && i < |order| && LastIn(order, n, i) ==>
          order[i] in mapped && mapped[order[i]] == levels[i])
  }

  lemma FoundStep(order: seq<nat>, n: nat, c: nat)
    ensures Found(order, n + 1, c) <==> Found(order, n, c) || (n < |order| && order[n] == c)
  {
    if n < |order| && order[n] == c {
      assert Found(order, n + 1, c);
    }
  }

  lemma LastInShrinks(order: seq<nat>, n: nat, i: nat)
    requires i < n < |order| && LastIn(order, n + 1, i)
    ensures LastIn(order, n, i) && order[i] != order[n]
  {
  }

  lemma MapsAdd(mapped: map<nat, real>, levels: seq<real>, order: seq<nat>, n: nat)
    requires n < |levels| && n < |order| && Maps(mapped, levels, order, n)
    ensures Maps(mapped[order[n] := levels[n]], levels, order, n + 1)
  {
    var more := mapped[order[n] := levels[n]];
    forall c: nat ensures c in more <==> Found(order, n + 1, c) {
      FoundStep(order, n, c);
    }
    forall i | 0 <= i < n + 1 && i < |order| && LastIn(order, n + 1, i)
      ensures order[i] in more && more[order[i]] == levels[i]
    {
      if i < n {
        LastInShrinks(order, n, i);
      }
    }
  }

  lemma MapsSkip(mapped: map<nat, real>, levels: seq<real>, order: seq<nat>, n: nat)
    requires |order| <= n < |levels| && Maps(mapped, levels, order, n)
    ensures Maps(mapped, levels, order, n + 1)
  {
    forall c: nat ensures Found(order, n + 1, c) <==> Found(order, n, c) {
      FoundStep(order, n, c);
    }
    forall i | 0 <= i < |order| && LastIn(order, n + 1, i) ensures LastIn(order, n, i) {
    }
  }

  /** Each listed channel gets the level at its last index in the order; indices past the order are dropped. */
  method MapToChannels(levels: seq<real>, order: seq<nat>) returns (mapped: map<nat, real>)
    ensures Maps(mapped, levels, order, |levels|)
  {
    mapped := map[];
    for n := 0 to |levels|
      invariant Maps(mapped, levels, order, n)
    {
      if n < |order| {
        MapsAdd(mapped, levels, order, n);
        mapped := mapped[order[n] := levels[n]];
      } else {
        MapsSkip(mapped, levels, order, n);
      }
    }
  }
}
