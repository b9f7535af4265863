/**
 Newline framing over a socket that hands out arbitrary chunks, and the request/reply loop on top of it.
 The socket is a script of what each receive would do; a script that has run out is a deadline expiring.
 */
module RpcFraming {
  import opened Bits
  import opened Common

  /** 0x0A */
  const NEWLINE: Byte := [false, true, false, true, false, false, false, false]

  /** Deadline: no byte before the call's deadline; Closed: the peer hung up; Broken: any other socket error. */
  datatype Event = Chunk(bytes: seq<Byte>) | Deadline | Closed | Broken

  datatype Read = Line(line: seq<Byte>) | TimedOut | HungUp | Failed

  datatype Wire = Wire(buf: seq<Byte>, inbox: seq<Event>)

  lemma NewlineIs()
    ensures Value(NEWLINE) == 0x0A
  {
    assert NEWLINE[1..] == [true, false, true, false, false, false, false];
    assert NEWLINE[1..][1..] == [false, true, false, false, false, false];
    assert NEWLINE[1..][1..][1..] == [true, false, false, false, false];
    assert NEWLINE[1..][1..][1..][1..] == Zeros(4);
    ValueOfZeros(4);
  }

  predicate HasNewline(s: seq<Byte>)
  {
    NEWLINE in s
  }

  /** Where the first newline is. */
  function Find(s: seq<Byte>): (i: nat)
    requires HasNewline(s)
    ensures i < |s| && s[i] == NEWLINE && !HasNewline(s[..i])
  {
    if s[0] == NEWLINE then 0
    else
      var i := 1 + Find(s[1..]);
      assert s[..i] == [s[0]] + s[1..][..i - 1];
      i
  }

  function ReadLine(w: Wire): (Read, Wire)
    decreases |w.inbox|
  {
    if HasNewline(w.buf) then
      var i := Find(w.buf);
      (Line(w.buf[..i]), w.(buf := w.buf[i + 1..]))
    else if w.inbox == [] then (TimedOut, w)
    else
      var rest := w.inbox[1..];
      match w.inbox[0]
      case Deadline => (TimedOut, w.(inbox := rest))
      case Closed => (HungUp, w.(inbox := rest))
      case Broken => (Failed, w.(inbox := rest))
      case Chunk(bytes) => if bytes == [] then (HungUp, w.(inbox := rest)) else ReadLine(Wire(w.buf + bytes, rest))
  }

  // ---- frames and calls -----------------------------------------------------------------------------

  /** What a line is, once stripped and decoded as JSON. */
  datatype Frame = Blank | NotJson | NotObject | Object(id: Option<int>, error: bool, result: Option<string>)

  /** Crashed: a JSON value that is not an object makes the reply loop raise. */
  datatype Outcome =
    | Result(value: Option<string>)
    | Rejected
    | Late
    | Dropped
    | TransportFailed
    | Crashed
    | NotConnected

  predicate Skipped(f: Frame, id: int)
  {
    f.Blank? || f.NotJson? || (f.Object? && f.id != Some(id))
  }

  /** Bytes and events still to be consumed. */
  function Size(w: Wire): nat
  {
    |w.buf| + Weight(w.inbox)
  }

  function Weight(inbox: seq<Event>): nat
  {
    if inbox == [] then 0
    else 1 + (if inbox[0].Chunk? then |inbox[0].bytes| else 0) + Weight(inbox[1..])
  }

  lemma {:induction false} ReadShrinks(w: Wire)
    ensures Size(ReadLine(w).1) <= Size(w)
    ensures ReadLine(w).0.Line? ==> Size(ReadLine(w).1) < Size(w)
    decreases |w.inbox|
  {
    if !HasNewline(w.buf) && w.inbox != [] && w.inbox[0].Chunk? && w.inbox[0].bytes != [] {
      ReadShrinks(Wire(w.buf + w.inbox[0].bytes, w.inbox[1..]));
    }
  }

  function Await(w: Wire, id: int, view: seq<Byte> -> Frame): (Outcome, Wire)
    decreases Size(w)
  {
    ReadShrinks(w);
    var (read, w') := ReadLine(w);
    match read
    case TimedOut => (Late, w')
    case HungUp => (Dropped, w')
    case Failed => (TransportFailed, w')
    case Line(raw) =>
      var f := view(raw);
      if Skipped(f, id) then Await(w', id, view)
      else if f.NotObject? then (Crashed, w')
      else if f.error then (Rejected, w')
      else (Result(f.result), w')
  }

  class Session {
    var connected: bool
    var buf: seq<Byte>
    var lastId: nat
    var inbox: seq<Event>

    constructor (inbox: seq<Event>)
      ensures connected && OnWire() == Wire([], inbox) && lastId == 0
    {
      connected, buf, lastId, this.inbox := true, [], 0, inbox;
    }

    function OnWire(): Wire
      reads this`buf, this`inbox
    {
      Wire(buf, inbox)
    }

    method Close()
      modifies this`connected, this`buf
      ensures !connected && buf == []
    {
      connected := false;
      buf := [];
    }

    method ReadOne() returns (read: Read)
      modifies this`buf, this`inbox
      ensures (read, OnWire()) == ReadLine(old(OnWire()))
    {
      while true
        invariant ReadLine(OnWire()) == ReadLine(old(OnWire()))
        decreases |inbox|
      {
        if HasNewline(buf) {
          var nl := Find(buf);
          read := Line(buf[..nl]);
          buf := buf[nl + 1..];
          return;
        }
        if inbox == [] { return TimedOut; }
        var event := inbox[0];
        inbox := inbox[1..];
        match event {
          case Deadline => return TimedOut;
          case Closed => return HungUp;
          case Broken => return Failed;
          case Chunk(bytes) =>
            if bytes == [] { return HungUp; }
            buf := buf + bytes;
        }
      }
    }

    /** One request and its reply. sent is false when sending fails. */
    method Call(sent: bool, view: seq<Byte> -> Frame) returns (outcome: Outcome)
      modifies this`buf, this`inbox, this`lastId
      ensures !connected ==> outcome.NotConnected? && lastId == old(lastId) && OnWire() == old(OnWire())
      ensures connected ==> lastId == old(lastId) + 1
      ensures connected && !sent ==> outcome.TransportFailed? && OnWire() == old(OnWire())
      ensures connected && sent ==> (outcome, OnWire()) == Await(old(OnWire()), lastId, view)
    {
      if !connected { return NotConnected; }
      lastId := lastId + 1;
      if !sent { return TransportFailed; }
      while true
        invariant connected == old(connected) && lastId == old(lastId) + 1
        invariant Await(OnWire(), lastId, view) == Await(old(OnWire()), lastId, view)
        decreases Size(OnWire())
      {
        ReadShrinks(OnWire());
        var read := ReadOne();
        match read {
          case TimedOut => return Late;
          case HungUp => return Dropped;
          case Failed => return TransportFailed;
          case Line(raw) =>
            var f := view(raw);
            if f.Blank? || f.NotJson? { continue; }
            if f.NotObject? { return Crashed; }
            if f.id != Some(lastId) { continue; }
            if f.error { return Rejected; }
            return Result(f.result);
        }
      }
    }
  }

  // ---- the newline split -----------------------------------------------------------------------------

  /** The complete lines of a stream, and what follows the last newline. */
  function Lines(s: seq<Byte>): seq<seq<Byte>>
  {
    if !HasNewline(s) then [] else [s[..Find(s)]] + Lines(s[Find(s) + 1..])
  }

  function Remainder(s: seq<Byte>): seq<Byte>
  {
    if !HasNewline(s) then s else Remainder(s[Find(s) + 1..])
  }

  function Joined(lines: seq<seq<Byte>>): seq<Byte>
  {
    if lines == [] then [] else lines[0] + [NEWLINE] + Joined(lines[1..])
  }

  /** Everything that will ever have been received. */
  function Stream(inbox: seq<Event>): seq<Byte>
  {
    if inbox == [] then []
    else (if inbox[0].Chunk? then inbox[0].bytes else []) + Stream(inbox[1..])
  }

  /** Everything a wire has left to deliver. */
  function Ahead(w: Wire): seq<Byte>
  {
    w.buf + Stream(w.inbox)
  }

  /** The lines of successive reads, whatever timeouts fall between them, and the wire afterwards. */
  function Reads(w: Wire, n: nat): (seq<seq<Byte>>, Wire)
    decreases n
  {
    if n == 0 then ([], w)
    else
      var (read, w') := ReadLine(w);
      var (lines, w'') := Reads(w', n - 1);
      (if read.Line? then [read.line] + lines else lines, w'')
  }

  lemma {:induction false} FindOf(a: seq<Byte>, b: seq<Byte>)
    requires !HasNewline(a)
    ensures HasNewline(a + [NEWLINE] + b) && Find(a + [NEWLINE] + b) == |a|
  {
    var s := a + [NEWLINE] + b;
    assert s[|a|] == NEWLINE;
    if a != [] {
      FindOf(a[1..], b);
      assert s[1..] == a[1..] + [NEWLINE] + b;
    }
  }

  /** A line break up front splits off the first line. */
  lemma SplitFirst(a: seq<Byte>, b: seq<Byte>)
    requires !HasNewline(a)
    ensures Lines(a + [NEWLINE] + b) == [a] + Lines(b)
    ensures Remainder(a + [NEWLINE] + b) == Remainder(b)
  {
    var s := a + [NEWLINE] + b;
    FindOf(a, b);
    assert s[..|a|] == a && s[|a| + 1..] == b;
  }

  /** One read takes nothing from the stream but the line it returns and its newline. */
  lemma {:induction false} ReadAccounts(w: Wire)
    ensures var (read, w') := ReadLine(w); var stream := Ahead(w');
      && (read.Line? ==> !HasNewline(read.line) && Ahead(w) == read.line + [NEWLINE] + stream)
      && (!read.Line? ==> !HasNewline(w'.buf) && Ahead(w) == stream)
      && |w'.inbox| <= |w.inbox|
      && (!read.Line? && w.inbox != [] ==> |w'.inbox| < |w.inbox|)
    decreases |w.inbox|
  {
    if HasNewline(w.buf) {
      var i := Find(w.buf);
      assert w.buf == w.buf[..i] + [NEWLINE] + w.buf[i + 1..];
      assert Ahead(w) == w.buf[..i] + [NEWLINE] + (w.buf[i + 1..] + Stream(w.inbox));
    } else if w.inbox != [] && w.inbox[0].Chunk? && w.inbox[0].bytes != [] {
      var w1 := Wire(w.buf + w.inbox[0].bytes, w.inbox[1..]);
      assert Ahead(w) == Ahead(w1);
      ReadAccounts(w1);
    }
  }

  /** lines are the first lines of stream, and rest is exactly what follows them. */
  ghost predicate Front(stream: seq<Byte>, lines: seq<seq<Byte>>, rest: seq<Byte>)
  {
    && stream == Joined(lines) + rest
    && Lines(stream) == lines + Lines(rest)
    && Remainder(stream) == Remainder(rest)
  }

  lemma JoinedCons(line: seq<Byte>, lines: seq<seq<Byte>>)
    ensures Joined([line] + lines) == line + [NEWLINE] + Joined(lines)
  {
    assert ([line] + lines)[1..] == lines;
  }

  lemma FrontOf(line: seq<Byte>, lines: seq<seq<Byte>>, middle: seq<Byte>, rest: seq<Byte>)
    requires !HasNewline(line) && Front(middle, lines, rest)
    ensures Front(line + [NEWLINE] + middle, [line] + lines, rest)
  {
    SplitFirst(line, middle);
    JoinedCons(line, lines);
    Associates([line], lines, Lines(rest));
    Associates(line + [NEWLINE], Joined(lines), rest);
  }

  lemma FrontOfNone(stream: seq<Byte>)
    ensures Front(stream, [], stream)
  {
  }

  lemma {:induction false} FrontThen(stream: seq<Byte>, a: seq<seq<Byte>>, middle: seq<Byte>, b: seq<seq<Byte>>,
                                     rest: seq<Byte>)
    requires Front(stream, a, middle) && Front(middle, b, rest)
    ensures Front(stream, a + b, rest)
  {
    JoinedAppend(a, b);
    Associates(Joined(a), Joined(b), rest);
    Associates(a, b, Lines(rest));
  }

  lemma {:induction false} JoinedAppend(a: seq<seq<Byte>>, b: seq<seq<Byte>>)
    ensures Joined(a + b) == Joined(a) + Joined(b)
  {
    if a == [] {
      assert a + b == b;
    } else {
      JoinedAppend(a[1..], b);
      assert (a + b)[1..] == a[1..] + b;
    }
  }

  /** However the stream is chunked and wherever timeouts fall: the lines read so far are the first of the
      newline split, and with what is still buffered or on its way they are every byte received. */
  lemma {:induction false} ReadsAreTheSplit(w: Wire, n: nat)
    ensures var (lines, w') := Reads(w, n); Front(Ahead(w), lines, Ahead(w'))
    decreases n
  {
    if n == 0 {
      FrontOfNone(Ahead(w));
    } else {
      ReadAccounts(w);
      var (read, w1) := ReadLine(w);
      ReadsAreTheSplit(w1, n - 1);
      if read.Line? {
        var (lines, w') := Reads(w1, n - 1);
        FrontOf(read.line, lines, Ahead(w1), Ahead(w'));
      }
    }
  }

  /** What one read leaves of the lines ahead. */
  lemma ReadLeaves(w: Wire)
    ensures var (read, w1) := ReadLine(w);
      && |w1.inbox| <= |w.inbox|
      && (if read.Line? then Lines(Ahead(w)) == [read.line] + Lines(Ahead(w1))
          else && Ahead(w1) == Ahead(w)
               && (w.inbox == [] ==> !HasNewline(w.buf))
               && (w.inbox != [] ==> |w1.inbox| < |w.inbox|))
  {
    ReadAccounts(w);
    var (read, w1) := ReadLine(w);
    if read.Line? {
      SplitFirst(read.line, Ahead(w1));
    }
  }

  /** Reads that are enough to return every line: one for each line and one for each event. */
  function Enough(w: Wire): nat
  {
    |w.inbox| + |Lines(Ahead(w))|
  }

  lemma OneReadMore(w: Wire, n: nat)
    requires n > 0 && (ReadLine(w).0.Line? || w.inbox != [])
    requires Reads(ReadLine(w).1, n - 1).0 == Lines(Ahead(ReadLine(w).1))
    ensures Reads(w, n).0 == Lines(Ahead(w))
  {
    ReadLeaves(w);
  }

  lemma FewerAhead(w: Wire)
    requires ReadLine(w).0.Line? || w.inbox != []
    ensures Enough(ReadLine(w).1) < Enough(w)
  {
    ReadLeaves(w);
  }

  /** Enough reads return every line. */
  lemma {:induction false} EnoughReads(w: Wire, n: nat)
    requires n >= Enough(w)
    ensures Reads(w, n).0 == Lines(Ahead(w))
    decreases n
  {
    if ReadLine(w).0.Line? || w.inbox != [] {
      var w1 := ReadLine(w).1;
      FewerAhead(w);
      EnoughReads(w1, n - 1);
      OneReadMore(w, n);
    } else {
      NothingToRead(w, n);
    }
  }

  lemma NothingToRead(w: Wire, n: nat)
    requires !ReadLine(w).0.Line? && w.inbox == []
    ensures Reads(w, n).0 == Lines(Ahead(w))
  {
    ReadLeaves(w);
    NothingAhead(w);
    NoMoreReads(w, n);
  }

  lemma NothingAhead(w: Wire)
    requires w.inbox == [] && !HasNewline(w.buf)
    ensures Lines(Ahead(w)) == []
  {
    assert Ahead(w) == w.buf;
  }

  lemma {:induction false} NoMoreReads(w: Wire, n: nat)
    requires w.inbox == [] && !HasNewline(w.buf)
    ensures Reads(w, n).0 == []
  {
    if n > 0 {
      NoMoreReads(w, n - 1);
    }
  }

  /** Chunk independence: two scripts that deliver the same bytes give the same lines. */
  lemma ChunkingDoesNotMatter(v: Wire, w: Wire, m: nat, n: nat)
    requires Ahead(v) == Ahead(w)
    requires m >= Enough(v) && n >= Enough(w)
    ensures Reads(v, m).0 == Reads(w, n).0
  {
    EnoughReads(v, m);
    EnoughReads(w, n);
  }

  // ---- replies --------------------------------------------------------------------------------------

  /** The lines a call takes off the wire. */
  ghost function Taken(w: Wire, id: int, view: seq<Byte> -> Frame): seq<seq<Byte>>
    decreases Size(w)
  {
    ReadShrinks(w);
    var (read, w') := ReadLine(w);
    if !read.Line? then []
    else [read.line] + if Skipped(view(read.line), id) then Taken(w', id, view) else []
  }

  /** A line read is the first of the stream, whatever is taken after it. */
  lemma ReadThenTaken(w: Wire, lines: seq<seq<Byte>>, rest: seq<Byte>)
    requires var (read, w1) := ReadLine(w); read.Line? && Front(Ahead(w1), lines, rest)
    ensures Front(Ahead(w), [ReadLine(w).0.line] + lines, rest)
  {
    ReadAccounts(w);
    var (read, w1) := ReadLine(w);
    FrontOf(read.line, lines, Ahead(w1), rest);
  }

  /** A call takes its lines off the front of the stream. */
  lemma {:induction false} TakenFromTheFront(w: Wire, id: int, view: seq<Byte> -> Frame)
    ensures var w' := Await(w, id, view).1; Front(Ahead(w), Taken(w, id, view), Ahead(w'))
    decreases Size(w)
  {
    ReadShrinks(w);
    var (read, w1) := ReadLine(w);
    if !read.Line? {
      ReadAccounts(w);
      FrontOfNone(Ahead(w));
    } else if Skipped(view(read.line), id) {
      TakenFromTheFront(w1, id, view);
      ReadThenTaken(w, Taken(w1, id, view), Ahead(Await(w1, id, view).1));
    } else {
      FrontOfNone(Ahead(w1));
      ReadThenTaken(w, [], Ahead(w1));
    }
  }

  /** What a call's lines and outcome have to do with each other: it skips every line that is not a reply
      to its own id, and answers from the first that is. */
  ghost predicate Answers(outcome: Outcome, lines: seq<seq<Byte>>, id: int, view: seq<Byte> -> Frame)
  {
    && (forall i :: 0 <= i < |lines| - 1 ==> Skipped(view(lines[i]), id))
    && (if lines == [] || Skipped(view(lines[|lines| - 1]), id) then
          outcome.Late? || outcome.Dropped? || outcome.TransportFailed?
        else
          var f := view(lines[|lines| - 1]);
          if f.NotObject? then outcome.Crashed?
          else f.Object? && f.id == Some(id) && outcome == if f.error then Rejected else Result(f.result))
  }

  lemma {:induction false} AnswersItsOwnRequest(w: Wire, id: int, view: seq<Byte> -> Frame)
    ensures Answers(Await(w, id, view).0, Taken(w, id, view), id, view)
    decreases Size(w)
  {
    ReadShrinks(w);
    var (read, w1) := ReadLine(w);
    if read.Line? && Skipped(view(read.line), id) {
      AnswersItsOwnRequest(w1, id, view);
      var lines := Taken(w1, id, view);
      forall i | 0 <= i < |[read.line] + lines| - 1 ensures Skipped(view(([read.line] + lines)[i]), id) {
      }
    }
  }

  // ---- a line that is no object ----------------------------------------------------------------------

  /** The bytes that arrive before anything interrupts: a deadline, a hang-up or an error. */
  function Arriving(w: Wire): seq<Byte>
    decreases |w.inbox|
  {
    if w.inbox == [] || !w.inbox[0].Chunk? || w.inbox[0].bytes == [] then w.buf
    else Arriving(Wire(w.buf + w.inbox[0].bytes, w.inbox[1..]))
  }

  /** A shorter buffer only takes those bytes off the front of what arrives. */
  lemma {:induction false} ArrivingAppends(head: seq<Byte>, w: Wire)
    ensures Arriving(w.(buf := head + w.buf)) == head + Arriving(w)
    decreases |w.inbox|
  {
    if w.inbox != [] && w.inbox[0].Chunk? && w.inbox[0].bytes != [] {
      Associates(head, w.buf, w.inbox[0].bytes);
      ArrivingAppends(head, Wire(w.buf + w.inbox[0].bytes, w.inbox[1..]));
    }
  }

  /** A read returns a line exactly when a newline arrives, and then the first line that does. */
  lemma {:induction false} ReadArriving(w: Wire)
    ensures var (read, w1) := ReadLine(w);
      if HasNewline(Arriving(w)) then read.Line? && Lines(Arriving(w)) == [read.line] + Lines(Arriving(w1))
      else !read.Line? && Lines(Arriving(w)) == []
    decreases |w.inbox|
  {
    if HasNewline(w.buf) {
      var i := Find(w.buf);
      var line, w1 := w.buf[..i], w.(buf := w.buf[i + 1..]);
      assert w.buf == (line + [NEWLINE]) + w1.buf;
      ArrivingAppends(line + [NEWLINE], w1);
      SplitFirst(line, Arriving(w1));
    } else if w.inbox != [] && w.inbox[0].Chunk? && w.inbox[0].bytes != [] {
      ReadArriving(Wire(w.buf + w.inbox[0].bytes, w.inbox[1..]));
    }
  }

  /** The first line that is not skipped is no object. */
  predicate NoObjectFirst(lines: seq<seq<Byte>>, id: int, view: seq<Byte> -> Frame)
  {
    exists k :: 0 <= k < |lines| && view(lines[k]).NotObject? && AllSkipped(lines, k, id, view)
  }

  predicate AllSkipped(lines: seq<seq<Byte>>, k: nat, id: int, view: seq<Byte> -> Frame)
    requires k <= |lines|
  {
    forall j :: 0 <= j < k ==> Skipped(view(lines[j]), id)
  }

  lemma NoObjectStep(line: seq<Byte>, rest: seq<seq<Byte>>, id: int, view: seq<Byte> -> Frame)
    ensures NoObjectFirst([line] + rest, id, view)
      <==> if Skipped(view(line), id) then NoObjectFirst(rest, id, view) else view(line).NotObject?
  {
    var lines := [line] + rest;
    if Skipped(view(line), id) && NoObjectFirst(rest, id, view) {
      var k :| 0 <= k < |rest| && view(rest[k]).NotObject? && AllSkipped(rest, k, id, view);
      forall j | 0 <= j < k + 1 ensures Skipped(view(lines[j]), id) {
        assert j > 0 ==> lines[j] == rest[j - 1];
      }
      assert lines[k + 1] == rest[k] && AllSkipped(lines, k + 1, id, view);
    }
    if NoObjectFirst(lines, id, view) {
      var k :| 0 <= k < |lines| && view(lines[k]).NotObject? && AllSkipped(lines, k, id, view);
      if k > 0 {
        assert Skipped(view(lines[0]), id);
        forall j | 0 <= j < k - 1 ensures Skipped(view(rest[j]), id) {
          assert rest[j] == lines[j + 1];
        }
        assert rest[k - 1] == lines[k] && AllSkipped(rest, k - 1, id, view);
      }
    }
    if view(line).NotObject? {
      assert lines[0] == line && AllSkipped(lines, 0, id, view);
    }
  }

  /** The reply loop raises exactly when the first line it cannot skip, among those arriving in time, is JSON
      but no object. */
  lemma {:induction false} CrashesExactly(w: Wire, id: int, view: seq<Byte> -> Frame)
    ensures Await(w, id, view).0.Crashed? <==> NoObjectFirst(Lines(Arriving(w)), id, view)
    decreases Size(w)
  {
    ReadShrinks(w);
    ReadArriving(w);
    var (read, w1) := ReadLine(w);
    if read.Line? {
      NoObjectStep(read.line, Lines(Arriving(w1)), id, view);
      if Skipped(view(read.line), id) {
        CrashesExactly(w1, id, view);
      }
    }
  }

  /** One such line is enough. */
  lemma OneLineCrashes(line: seq<Byte>, id: int, view: seq<Byte> -> Frame)
    requires !HasNewline(line) && view(line).NotObject?
    ensures Await(Wire([], [Chunk(line + [NEWLINE])]), id, view).0.Crashed?
  {
    var w := Wire([], [Chunk(line + [NEWLINE])]);
    assert w.buf + (line + [NEWLINE]) == line + [NEWLINE] + [];
    SplitFirst(line, []);
    NoObjectStep(line, [], id, view);
    assert Arriving(w) == line + [NEWLINE] + [];
    CrashesExactly(w, id, view);
  }

  // ---- every outcome ---------------------------------------------------------------------------------

  /** What interrupts the arriving bytes: the deadline, also when nothing more comes, the peer hanging up or a
      socket error. */
  function Interruption(inbox: seq<Event>): Event
  {
    if inbox == [] then Deadline
    else if !inbox[0].Chunk? then inbox[0]
    else if inbox[0].bytes == [] then Closed
    else Interruption(inbox[1..])
  }

  /** A frame that the call with this id waits for: not a blank line, not something else than JSON, and if an
      object then the reply to this very request. */
  predicate AnswersCall(f: Frame, id: int)
  {
    f.NotObject? || (f.Object? && f.id == Some(id))
  }

  /** The first frame of these lines that the call waits for. */
  function FirstAnswer(lines: seq<seq<Byte>>, id: int, view: seq<Byte> -> Frame): Option<Frame>
  {
    if lines == [] then None
    else if AnswersCall(view(lines[0]), id) then Some(view(lines[0]))
    else FirstAnswer(lines[1..], id, view)
  }

  function Reply(f: Frame): Outcome
  {
    match f
    case Object(_, error, result) => if error then Rejected else Result(result)
    case _ => Crashed
  }

  lemma {:induction false} ReadKeepsInterruption(w: Wire)
    ensures var (read, w1) := ReadLine(w);
      if read.Line? then Interruption(w1.inbox) == Interruption(w.inbox)
      else read == match Interruption(w.inbox) case Deadline => TimedOut case Closed => HungUp case _ => Failed
    decreases |w.inbox|
  {
    if !HasNewline(w.buf) && w.inbox != [] && w.inbox[0].Chunk? && w.inbox[0].bytes != [] {
      ReadKeepsInterruption(Wire(w.buf + w.inbox[0].bytes, w.inbox[1..]));
    }
  }

  /** The outcome of a call, whatever the chunks: told by the first line it waits for, of those arriving before
      anything interrupts; if there is none, by what interrupts. */
  lemma {:induction false} OutcomeExactly(w: Wire, id: int, view: seq<Byte> -> Frame)
    ensures Await(w, id, view).0 ==
      match FirstAnswer(Lines(Arriving(w)), id, view)
      case Some(f) => Reply(f)
      case None => if Interruption(w.inbox).Deadline? then Late
                   else if Interruption(w.inbox).Closed? then Dropped else TransportFailed
    decreases Size(w)
  {
    ReadShrinks(w);
    ReadArriving(w);
    ReadKeepsInterruption(w);
    var (read, w1) := ReadLine(w);
    if read.Line? && Skipped(view(read.line), id) {
      OutcomeExactly(w1, id, view);
    }
  }

  /** A run of calls on one connection, numbered on from last; sent[k] says whether the k-th request went out. */
  function Calls(w: Wire, last: nat, sent: seq<bool>, view: seq<Byte> -> Frame): (seq<Outcome>, Wire)
    decreases |sent|
  {
    if sent == [] then ([], w)
    else
      var (outcome, w1) := if sent[0] then Await(w, last + 1, view) else (TransportFailed, w);
      var (outcomes, w') := Calls(w1, last + 1, sent[1..], view);
      ([outcome] + outcomes, w')
  }

  /** The lines each call of a run takes. */
  ghost function AllTaken(w: Wire, last: nat, sent: seq<bool>, view: seq<Byte> -> Frame): seq<seq<seq<Byte>>>
    decreases |sent|
  {
    if sent == [] then []
    else if sent[0] then [Taken(w, last + 1, view)] + AllTaken(Await(w, last + 1, view).1, last + 1, sent[1..], view)
    else [[]] + AllTaken(w, last + 1, sent[1..], view)
  }

  function Flat(lines: seq<seq<seq<Byte>>>): seq<seq<Byte>>
  {
    if lines == [] then [] else lines[0] + Flat(lines[1..])
  }

  lemma {:induction false} RunTakesFromTheFront(w: Wire, last: nat, sent: seq<bool>, view: seq<Byte> -> Frame)
    ensures var w' := Calls(w, last, sent, view).1;
      Front(Ahead(w), Flat(AllTaken(w, last, sent, view)), Ahead(w'))
    decreases |sent|
  {
    var stream := Ahead(w);
    FrontOfNone(stream);
    if sent != [] {
      var w1 := if sent[0] then Await(w, last + 1, view).1 else w;
      var first := if sent[0] then Taken(w, last + 1, view) else [];
      if sent[0] {
        TakenFromTheFront(w, last + 1, view);
      }
      RunTakesFromTheFront(w1, last + 1, sent[1..], view);
      var w' := Calls(w1, last + 1, sent[1..], view).1;
      var taken := AllTaken(w1, last + 1, sent[1..], view);
      FlatCons(first, taken);
      FrontThen(stream, first, Ahead(w1), Flat(taken), Ahead(w'));
    }
  }

  lemma FlatCons(first: seq<seq<Byte>>, taken: seq<seq<seq<Byte>>>)
    ensures Flat([first] + taken) == first + Flat(taken)
  {
    assert ([first] + taken)[1..] == taken;
  }

  lemma {:induction false} RunAnswers(w: Wire, last: nat, sent: seq<bool>, view: seq<Byte> -> Frame, k: nat)
    requires k < |sent|
    ensures |Calls(w, last, sent, view).0| == |AllTaken(w, last, sent, view)| == |sent|
    ensures Answers(Calls(w, last, sent, view).0[k], AllTaken(w, last, sent, view)[k], last + 1 + k, view)
    decreases |sent|
  {
    RunLengths(w, last, sent, view);
    if k > 0 {
      RunAnswers(if sent[0] then Await(w, last + 1, view).1 else w, last + 1, sent[1..], view, k - 1);
    } else if sent[0] {
      AnswersItsOwnRequest(w, last + 1, view);
    }
  }

  lemma {:induction false} RunLengths(w: Wire, last: nat, sent: seq<bool>, view: seq<Byte> -> Frame)
    ensures |Calls(w, last, sent, view).0| == |AllTaken(w, last, sent, view)| == |sent|
    decreases |sent|
  {
    if sent != [] {
      RunLengths(if sent[0] then Await(w, last + 1, view).1 else w, last + 1, sent[1..], view);
    }
  }

  /** Over any run of calls, any chunking and any timeouts: every line goes to exactly one call, in stream
      order, and the k-th call answers only from a reply to the k-th request, so a reply that comes late
      is never taken for a later request's. */
  lemma RunAnswersInOrder(w: Wire, last: nat, sent: seq<bool>, view: seq<Byte> -> Frame)
    ensures var (outcomes, w') := Calls(w, last, sent, view); var taken := AllTaken(w, last, sent, view);
      && |outcomes| == |taken| == |sent|
      && Front(Ahead(w), Flat(taken), Ahead(w'))
      && forall k :: 0 <= k < |sent| ==> Answers(outcomes[k], taken[k], last + 1 + k, view)
  {
    RunLengths(w, last, sent, view);
    RunTakesFromTheFront(w, last, sent, view);
    forall k | 0 <= k < |sent|
      ensures Answers(Calls(w, last, sent, view).0[k], AllTaken(w, last, sent, view)[k], last + 1 + k, view)
    {
      RunAnswers(w, last, sent, view, k);
    }
  }
}
