/** The body states of the HTTP parser, one byte at a time. A character stands for one byte. The machine begins at the
    end of a header and ends where a header is parsed again: at a trailer field, and behind a complete message, which
    is handed over, answered at once and cleared away. */
module HttpBody {
  import opened Basics

  const MAX_HEADER_SIZE: nat := 80 * 1024
  /** The content length that stands for no length at all. */
  const NO_LENGTH: nat := 0xFFFF_FFFF_FFFF_FFFF

  datatype State =
    | ChunkSizeStart
    | ChunkSize
    | ChunkParameters
    | ChunkSizeAlmostDone
    | ChunkData
    | ChunkDataAlmostDone
    | ChunkDataDone
    | HeaderFieldStart
    | HeaderField
    | HeadersAlmostDone
    | HeadersDone
    | BodyIdentity
    | MessageDone
    | StartReq

  datatype Errno =
    | Okay
    | HeaderOverflow
    | InvalidHeaderToken
    | InvalidChunkSize
    | InvalidContentLength
    | UnexpectedContentLength
    | InvalidTransferEncoding
    | Strict
    | InvalidEofState

  /** What the header said about the body, and whether the connection ends with this request. */
  datatype Head = Head(chunked: bool, usesTransferEncoding: bool, hasLength: bool, closes: bool)

  /** The parser between two bytes. `body` is the body of the request so far; `pending` has been read from the current
      buffer and is still to be delivered to it. `handed` are the bodies of the requests that were handed over; `rest`
      is what follows, where a header is parsed again. */
  datatype Machine = Machine(
    state: State,
    contentLength: nat,
    nread: nat,
    head: Head,
    trailing: bool,
    errno: Errno,
    body: string,
    pending: string,
    handed: seq<string>,
    rest: string)

  /** The states whose bytes count against the header size. */
  predicate InHeader(state: State) {
    match state
    case ChunkData | ChunkDataAlmostDone | ChunkDataDone | BodyIdentity | MessageDone => false
    case _ => !Leaves(state)
  }

  /** The states in which a header is parsed. */
  predicate Leaves(state: State) {
    state == StartReq || state == HeaderField
  }

  /** The hexadecimal digit table, which lists the first 128 bytes only: the others read as zero. */
  function Unhex(c: char): (n: int)
    ensures -1 <= n < 16
  {
    if '0' <= c <= '9' then c as int - '0' as int
    else if 'A' <= c <= 'F' then c as int - 'A' as int + 10
    else if 'a' <= c <= 'f' then c as int - 'a' as int + 10
    else if c as int >= 128 then 0
    else -1
  }

  predicate IsToken(c: char) {
    || '0' <= c <= '9' || 'a' <= c <= 'z' || 'A' <= c <= 'Z'
    || c in {'!', '#', '$', '%', '&', '\'', '*', '+', '-', '.', '^', '_', '`', '|', '~'}
  }

  function Fail(m: Machine, e: Errno): Machine {
    m.(errno := e)
  }

  /** The bytes of the body that have been read. */
  function Read(m: Machine): string {
    m.body + m.pending
  }

  /** The message is complete: the request is handed over. Its handler answers at once, which clears the parser. */
  function Complete(m: Machine): Machine {
    m.(state := StartReq, handed := m.handed + [Read(m)], body := "", pending := "")
  }

  /** The end of the header decides how the body is framed. */
  function EndOfHeader(m: Machine): Machine {
    if m.trailing then Complete(m)
    else if m.head.usesTransferEncoding && m.head.hasLength then Fail(m, UnexpectedContentLength)
    else StartBody(m.(state := HeadersDone))
  }

  function StartBody(m: Machine): Machine {
    var m := m.(nread := 0);
    if m.head.chunked then m.(state := ChunkSizeStart)
    else if m.head.usesTransferEncoding then Fail(m, InvalidTransferEncoding)
    else if m.contentLength == 0 || m.contentLength == NO_LENGTH then Complete(m)
    else m.(state := BodyIdentity)
  }

  function SizeDigit(m: Machine, digit: nat): Machine
    requires digit < 16
  {
    if (NO_LENGTH - 16) / 16 < m.contentLength then Fail(m, InvalidContentLength)
    else m.(contentLength := (m.contentLength * 16 % TWO64 + digit) % TWO64)
  }

  function BodyByte(m: Machine, c: char): Machine {
    m.(contentLength := (m.contentLength - 1) % TWO64, pending := m.pending + [c])
  }

  /** What one byte does in a given state. */
  function Act(m: Machine, c: char): Machine {
    match m.state
    case ChunkSizeStart =>
      if Unhex(c) == -1 then Fail(m, InvalidChunkSize)
      else m.(contentLength := Unhex(c), state := ChunkSize)
    case ChunkSize =>
      if c == CR then m.(state := ChunkSizeAlmostDone)
      else if Unhex(c) != -1 then SizeDigit(m, Unhex(c))
      else if c == ';' || c == ' ' then m.(state := ChunkParameters)
      else Fail(m, InvalidChunkSize)
    case ChunkParameters =>
      if c == CR then m.(state := ChunkSizeAlmostDone) else m
    case ChunkSizeAlmostDone =>
      if c != LF then Fail(m, Strict)
      else if m.contentLength == 0 then m.(nread := 0, trailing := true, state := HeaderFieldStart)
      else m.(nread := 0, state := ChunkData)
    case ChunkData =>
      var m := BodyByte(m, c);
      if m.contentLength == 0 then m.(state := ChunkDataAlmostDone) else m
    case ChunkDataAlmostDone =>
      if c != CR then Fail(m, Strict) else m.(state := ChunkDataDone, body := m.body + m.pending, pending := "")
    case ChunkDataDone =>
      if c != LF then Fail(m, Strict) else m.(nread := 0, state := ChunkSizeStart)
    case HeaderFieldStart =>
      if c == CR then m.(state := HeadersAlmostDone)
      else if c == LF then EndOfHeader(m.(state := HeadersAlmostDone))
      else if IsToken(c) then m.(state := HeaderField, rest := m.rest + [c])
      else Fail(m, InvalidHeaderToken)
    case HeaderField => m.(rest := m.rest + [c])
    case HeadersAlmostDone =>
      if c != LF then Fail(m, Strict) else EndOfHeader(m)
    case HeadersDone =>
      if c != LF then Fail(m, Strict) else StartBody(m)
    case BodyIdentity =>
      var m := BodyByte(m, c);
      if m.contentLength == 0 then Complete(m) else m
    case MessageDone => Complete(m)
    case StartReq => m.(rest := m.rest + [c])
  }

  /** One byte: it is counted if it belongs to a header, and acted on unless there are too many of those. */
  function Step(m: Machine, c: char): Machine {
    if !InHeader(m.state) then Act(m, c)
    else
      var m := m.(nread := m.nread + 1);
      if m.nread > MAX_HEADER_SIZE then Fail(m, HeaderOverflow) else Act(m, c)
  }

  function Steps(m: Machine, d: string): Machine
    decreases |d|
  {
    if d == "" || m.errno != Okay then m else Steps(Step(m, d[0]), d[1..])
  }

  /** How many bytes are read before an error, not counting the byte that fails. */
  function Consumed(m: Machine, d: string): (n: nat)
    requires m.errno == Okay
    ensures n <= |d|
    decreases |d|
  {
    if d == "" || Step(m, d[0]).errno != Okay then 0 else 1 + Consumed(Step(m, d[0]), d[1..])
  }

  /** At the end of a buffer its pending bytes are delivered. */
  function Flush(m: Machine): Machine {
    if m.errno != Okay then m else m.(body := m.body + m.pending, pending := "")
  }

  /** One call with one buffer. An empty buffer announces the end of the stream, which may come between messages. */
  function Execute(m: Machine, d: string): Machine {
    if m.errno != Okay then m
    else if d == "" then if m.state == StartReq then m else Fail(m, InvalidEofState)
    else Flush(Steps(m, d))
  }

  /** A sequence of calls. */
  function Feed(m: Machine, bufs: seq<string>): Machine
    decreases |bufs|
  {
    if bufs == [] then m else Feed(Execute(m, bufs[0]), bufs[1..])
  }

  // ---------- what every step keeps ----------

  /** What the parser takes for granted in each state, and the range of its counters. */
  predicate Inv(m: Machine) {
    && m.contentLength <= NO_LENGTH && m.nread <= MAX_HEADER_SIZE
    && (m.state == ChunkSizeStart ==> m.nread == 0)
    && (m.state in {ChunkSizeStart, ChunkSize, ChunkParameters, ChunkSizeAlmostDone, ChunkData, ChunkDataAlmostDone,
        ChunkDataDone}
        ==> m.head.chunked && !m.trailing)
    && m.state != HeadersDone && m.state != MessageDone
    && (m.state == StartReq ==> m.body == "")
    && (m.state in {ChunkSize, ChunkParameters, ChunkSizeAlmostDone} ==> m.contentLength != NO_LENGTH)
    && (m.state in {ChunkData, BodyIdentity} ==> m.contentLength != 0 && m.contentLength != NO_LENGTH)
    && (m.state in {ChunkDataAlmostDone, ChunkDataDone} ==> m.contentLength == 0)
    && (m.pending != "" ==> m.state in {ChunkData, ChunkDataAlmostDone, BodyIdentity})
  }

  /** A state between two buffers: nothing is pending. */
  predicate Ready(m: Machine) {
    m.errno == Okay && m.pending == "" && Inv(m)
  }

  /** The guard of the accumulator is exact enough: what it lets through neither wraps nor reaches the sentinel. */
  lemma SizeDigitExact(m: Machine, digit: nat)
    requires digit < 16 && m.contentLength <= NO_LENGTH
    ensures m.contentLength * 16 + digit < TWO64 - 16 ==>
            SizeDigit(m, digit) == m.(contentLength := m.contentLength * 16 + digit)
    ensures m.contentLength * 16 + digit >= TWO64 - 16 ==> SizeDigit(m, digit) == Fail(m, InvalidContentLength)
  {
  }

  lemma ActKeeps(m: Machine, c: char)
    requires Inv(m.(nread := 0)) && m.nread <= MAX_HEADER_SIZE && m.errno == Okay && Act(m, c).errno == Okay
    ensures Inv(Act(m, c))
  {
    match m.state
    case ChunkSize =>
      if c != CR && Unhex(c) != -1 {
        SizeDigitExact(m, Unhex(c));
      }
      hide SizeDigit, Unhex, EndOfHeader, StartBody, BodyByte, IsToken;
    case ChunkData =>
      hide SizeDigit, Unhex, EndOfHeader, StartBody, IsToken;
    case BodyIdentity =>
      hide SizeDigit, Unhex, EndOfHeader, StartBody, IsToken;
    case _ =>
      hide SizeDigit, BodyByte;
  }

  lemma StepKeeps(m: Machine, c: char)
    requires Inv(m) && m.errno == Okay && Step(m, c).errno == Okay
    ensures Inv(Step(m, c))
  {
    hide Act;
    var counted := if InHeader(m.state) then m.(nread := m.nread + 1) else m;
    ActKeeps(counted, c);
  }

  /** Over every run from a ready parser, what the parser takes for granted holds. */
  lemma {:induction false} StepsKeep(m: Machine, d: string)
    requires Inv(m) && m.errno == Okay && Steps(m, d).errno == Okay
    ensures Inv(Steps(m, d))
    decreases |d|
  {
    hide Step, Inv;
    if d != "" {
      StepsFail(m, d);
      StepKeeps(m, d[0]);
      StepsKeep(Step(m, d[0]), d[1..]);
    }
  }

  lemma {:induction false} StepsFail(m: Machine, d: string)
    ensures m.errno != Okay ==> Steps(m, d) == m
    ensures d != "" && Steps(m, d).errno == Okay ==> m.errno == Okay && Step(m, d[0]).errno == Okay
  {
    hide Step;
    if d != "" && m.errno == Okay {
      if Step(m, d[0]).errno != Okay {
        assert Steps(Step(m, d[0]), d[1..]) == Step(m, d[0]);
      }
    }
  }

  /** Between two buffers nothing is left over. */
  lemma FeedKeeps(m: Machine, d: string)
    requires Ready(m) && Execute(m, d).errno == Okay
    ensures Ready(Execute(m, d))
  {
    StepsKeep(m, d);
    hide Steps;
  }

  // ---------- cutting the stream ----------

  lemma {:induction false} StepsAppend(m: Machine, a: string, b: string)
    ensures Steps(m, a + b) == Steps(Steps(m, a), b)
    decreases |a|
  {
    hide Step;
    if a == "" {
      assert a + b == b;
    } else {
      assert (a + b)[0] == a[0] && (a + b)[1..] == a[1..] + b;
      StepsAppend(Step(m, a[0]), a[1..], b);
    }
  }

  /** The parser as if all that has been read had been delivered. */
  function Whole(m: Machine): Machine {
    m.(body := Read(m), pending := "")
  }

  /** Two parsers that differ only in how much of the body has been delivered. */
  predicate SameRun(m: Machine, n: Machine) {
    Whole(m) == Whole(n)
  }

  lemma ReadWhole(m: Machine)
    ensures Read(Whole(m)) == Read(m)
  {
  }

  lemma WholeParts(m: Machine, digit: nat)
    requires digit < 16
    ensures Whole(SizeDigit(m, digit)) == Whole(SizeDigit(Whole(m), digit))
    ensures Whole(EndOfHeader(m)) == Whole(EndOfHeader(Whole(m)))
    ensures Whole(StartBody(m)) == Whole(StartBody(Whole(m)))
    ensures Complete(m) == Complete(Whole(m))
  {
    ReadWhole(m);
    ReadWhole(m.(nread := 0));
    hide Read;
  }

  lemma WholeBodyByte(m: Machine, c: char)
    ensures Whole(BodyByte(m, c)) == Whole(BodyByte(Whole(m), c))
    ensures Read(BodyByte(m, c)) == Read(m) + [c]
  {
    assert m.body + (m.pending + [c]) == (m.body + m.pending) + ("" + [c]);
  }

  lemma SizeActWhole(m: Machine, c: char)
    requires m.state in {ChunkSizeStart, ChunkSize, ChunkParameters, ChunkSizeAlmostDone}
    ensures Whole(Act(m, c)) == Whole(Act(Whole(m), c))
  {
    WholeParts(m, if Unhex(c) == -1 then 0 else Unhex(c));
    ReadWhole(m);
    hide Unhex, SizeDigit;
  }

  lemma FieldActWhole(m: Machine, c: char)
    requires m.state == HeaderFieldStart || Leaves(m.state)
    ensures Whole(Act(m, c)) == Whole(Act(Whole(m), c))
  {
    WholeParts(m.(state := HeadersAlmostDone), 0);
    ReadWhole(m);
    hide IsToken, EndOfHeader;
  }

  lemma EndActWhole(m: Machine, c: char)
    requires m.state == HeadersAlmostDone || m.state == HeadersDone || m.state == MessageDone
    ensures Whole(Act(m, c)) == Whole(Act(Whole(m), c))
  {
    WholeParts(m, 0);
    ReadWhole(m);
    hide EndOfHeader, StartBody, Complete;
  }

  lemma DataActWhole(m: Machine, c: char)
    requires m.state in {ChunkData, ChunkDataAlmostDone, ChunkDataDone, BodyIdentity}
    ensures Whole(Act(m, c)) == Whole(Act(Whole(m), c))
  {
    WholeBodyByte(m, c);
    ReadWhole(m);
    WholeParts(BodyByte(m, c), 0);
    WholeParts(BodyByte(Whole(m), c), 0);
    hide Read, Complete;
  }

  /** A byte does not care how much of the body has been delivered. */
  lemma ActWhole(m: Machine, c: char)
    ensures Whole(Act(m, c)) == Whole(Act(Whole(m), c))
  {
    hide Act, Whole;
    match m.state
    case ChunkSizeStart | ChunkSize | ChunkParameters | ChunkSizeAlmostDone => SizeActWhole(m, c);
    case ChunkData | ChunkDataAlmostDone | ChunkDataDone | BodyIdentity => DataActWhole(m, c);
    case HeaderFieldStart | HeaderField | StartReq => FieldActWhole(m, c);
    case _ => EndActWhole(m, c);
  }

  lemma SameRunStep(m: Machine, n: Machine, c: char)
    requires SameRun(m, n)
    ensures SameRun(Step(m, c), Step(n, c))
  {
    StepWhole(m, c);
    StepWhole(n, c);
    hide Step, Whole;
  }

  lemma StepWhole(m: Machine, c: char)
    ensures Whole(Step(m, c)) == Whole(Step(Whole(m), c))
  {
    hide Act, Step, Read;
    StepActs(m, c);
    StepActs(Whole(m), c);
    ReadWhole(m);
    ActWhole(m, c);
    CountedWhole(m);
    ActWhole(m.(nread := m.nread + 1), c);
  }

  lemma CountedWhole(m: Machine)
    ensures Whole(m.(nread := m.nread + 1)) == Whole(m).(nread := m.nread + 1)
    ensures var full := m.(nread := m.nread + 1, errno := HeaderOverflow);
            Whole(full) == Whole(Whole(m).(nread := m.nread + 1, errno := HeaderOverflow))
  {
    ReadWhole(m);
    ReadWhole(m.(nread := m.nread + 1, errno := HeaderOverflow));
  }

  lemma StepActs(m: Machine, c: char)
    ensures !InHeader(m.state) ==> Step(m, c) == Act(m, c)
    ensures InHeader(m.state) ==>
              Step(m, c) == if m.nread + 1 > MAX_HEADER_SIZE then m.(nread := m.nread + 1, errno := HeaderOverflow)
                            else Act(m.(nread := m.nread + 1), c)
  {
    hide Act;
  }

  lemma {:induction false} SameRunSteps(m: Machine, n: Machine, d: string)
    requires SameRun(m, n)
    ensures SameRun(Steps(m, d), Steps(n, d))
    decreases |d|
  {
    hide Step;
    if d != "" && m.errno == Okay {
      SameRunStep(m, n, d[0]);
      SameRunSteps(Step(m, d[0]), Step(n, d[0]), d[1..]);
    }
  }

  predicate NoneEmpty(bufs: seq<string>) {
    forall i :: 0 <= i < |bufs| ==> bufs[i] != ""
  }

  /** The final state, the error, the counters and the bytes of the body do not depend on how the stream is cut
      into buffers. The body here includes bytes that an error kept from being delivered. */
  lemma {:induction false} CutsAgree(m: Machine, bufs: seq<string>)
    requires NoneEmpty(bufs)
    ensures SameRun(Feed(m, bufs), Steps(m, Concat(bufs)))
    decreases |bufs|
  {
    hide Steps;
    if bufs == [] {
      StepsNothing(m);
    } else {
      var next := Execute(m, bufs[0]);
      ExecuteRuns(m, bufs[0]);
      CutsAgree(next, bufs[1..]);
      StepsAppend(m, bufs[0], Concat(bufs[1..]));
      SameRunSteps(next, Steps(m, bufs[0]), Concat(bufs[1..]));
    }
  }

  lemma StepsNothing(m: Machine)
    ensures Steps(m, "") == m
  {
  }

  lemma ExecuteRuns(m: Machine, d: string)
    requires d != ""
    ensures SameRun(Execute(m, d), Steps(m, d))
  {
    hide Step;
    StepsFail(m, d);
  }

  // ---------- what is delivered ----------

  /** A wrong byte where the CR behind a chunk was expected. */
  predicate BadChunkEnd(m: Machine) {
    m.errno == Strict && m.state == ChunkDataAlmostDone
  }

  lemma SizeDigitFrame(m: Machine, digit: nat)
    requires digit < 16
    ensures SizeDigit(m, digit).errno in {m.errno, InvalidContentLength}
    ensures SizeDigit(m, digit) == m.(contentLength := SizeDigit(m, digit).contentLength,
            errno := SizeDigit(m, digit).errno)
  {
  }

  /** Only this error can strike while bytes are pending, and it always does unless it is the first byte read. */
  lemma PendingStep(m: Machine, c: char)
    requires Inv(m) && m.errno == Okay
    ensures Step(m, c).errno != Okay ==> Step(m, c).pending == m.pending
    ensures Step(m, c).errno != Okay && m.pending != "" ==> BadChunkEnd(Step(m, c))
    ensures BadChunkEnd(Step(m, c)) ==> m.state == ChunkDataAlmostDone
    ensures Step(m, c).errno == Okay && Step(m, c).state == ChunkDataAlmostDone ==> Step(m, c).pending != ""
  {
    if Unhex(c) != -1 {
      SizeDigitFrame(m.(nread := m.nread + 1), Unhex(c));
    }
    hide Unhex, IsToken, SizeDigit;
  }

  lemma {:induction false} PendingAfter(m: Machine, d: string)
    requires Inv(m) && m.errno == Okay && Steps(m, d).errno != Okay
    ensures !BadChunkEnd(Steps(m, d)) ==> Steps(m, d).pending == ""
    ensures BadChunkEnd(Steps(m, d)) && Consumed(m, d) > 0 ==> Steps(m, d).pending != ""
    ensures BadChunkEnd(Steps(m, d)) && Consumed(m, d) == 0 ==> Steps(m, d).pending == m.pending
    ensures BadChunkEnd(Steps(m, d)) && m.state == ChunkDataAlmostDone && m.pending != "" ==> Steps(m, d).pending != ""
    decreases |d|
  {
    hide Step, Inv;
    PendingStep(m, d[0]);
    var next := Step(m, d[0]);
    if next.errno != Okay {
      StepsFail(next, d[1..]);
    } else {
      StepKeeps(m, d[0]);
      PendingAfter(next, d[1..]);
      if Consumed(next, d[1..]) == 0 {
        AtChunkEnd(next, d[1..]);
      }
    }
  }

  /** A run that fails on its first byte with a bad chunk end starts there. */
  lemma AtChunkEnd(m: Machine, d: string)
    requires Inv(m) && m.errno == Okay && Steps(m, d).errno != Okay && Consumed(m, d) == 0
    ensures BadChunkEnd(Steps(m, d)) ==> m.state == ChunkDataAlmostDone
  {
    hide Step, Inv;
    PendingStep(m, d[0]);
    StepsFail(Step(m, d[0]), d[1..]);
  }

  lemma FeedAfterError(m: Machine, bufs: seq<string>)
    requires m.errno != Okay
    ensures Feed(m, bufs) == m
    decreases |bufs|
  {
    if bufs != [] {
      FeedAfterError(m, bufs[1..]);
    }
  }

  /** However the stream is cut, all of the body that was read is delivered, unless a chunk ends badly. */
  lemma {:induction false} AllDelivered(m: Machine, bufs: seq<string>)
    requires Ready(m) && NoneEmpty(bufs)
    ensures !BadChunkEnd(Feed(m, bufs)) ==> Feed(m, bufs).pending == ""
    decreases |bufs|
  {
    hide Steps, Inv;
    if bufs != [] {
      var d, next := bufs[0], Execute(m, bufs[0]);
      if next.errno == Okay {
        FeedKeeps(m, d);
        AllDelivered(next, bufs[1..]);
      } else {
        FeedAfterError(next, bufs[1..]);
        PendingAfter(m, d);
      }
    }
  }

  /** What an error keeps back is lost: the delivered body is a proper prefix of what was read. */
  lemma LostAtChunkEnd(m: Machine, d: string)
    requires Ready(m) && d != "" && BadChunkEnd(Execute(m, d))
    ensures Execute(m, d) == Steps(m, d)
    ensures |Execute(m, d).body| < |Read(Steps(m, d))| <==> Consumed(m, d) > 0
  {
    hide Steps, Inv, Consumed;
    PendingAfter(m, d);
  }

  lemma {:induction false} ConsumedCut(m: Machine, d: string)
    requires m.errno == Okay && Steps(m, d).errno != Okay
    ensures var n := Consumed(m, d);
            n < |d| && Steps(m, d[..n]).errno == Okay && Steps(Steps(m, d[..n]), d[n..]) == Steps(m, d)
    ensures var n := Consumed(m, d); n < |d| && Consumed(Steps(m, d[..n]), d[n..]) == 0
    decreases |d|
  {
    hide Step;
    var next := Step(m, d[0]);
    if next.errno == Okay {
      ConsumedCut(next, d[1..]);
      var n := Consumed(m, d);
      assert d[..n][1..] == d[1..][..n - 1] && d[n..] == d[1..][n - 1..];
    }
  }

  lemma ConsumedSame(m: Machine, n: Machine, d: string)
    requires SameRun(m, n) && m.errno == Okay
    ensures Consumed(m, d) == Consumed(n, d)
    decreases |d|
  {
    hide Step;
    if d != "" {
      SameRunStep(m, n, d[0]);
      if Step(m, d[0]).errno == Okay {
        ConsumedSame(Step(m, d[0]), Step(n, d[0]), d[1..]);
      }
    }
  }

  /** A bad byte at the beginning of a buffer keeps nothing back. */
  lemma NothingKept(m: Machine, d: string)
    requires Ready(m) && d != "" && BadChunkEnd(Steps(m, d)) && Consumed(m, d) == 0
    ensures Execute(m, d).body == Read(Steps(m, d))
  {
    hide Steps, Inv, Consumed;
    PendingAfter(m, d);
  }

  /** The stream up to the byte that fails, and the rest. */
  lemma CutRuns(m: Machine, d: string, a: string, b: string)
    requires Ready(m) && a != "" && b != "" && BadChunkEnd(Steps(m, d))
    requires Steps(m, a).errno == Okay && Steps(Steps(m, a), b) == Steps(m, d) && Consumed(Steps(m, a), b) == 0
    ensures Execute(Execute(m, a), b).body == Read(Steps(m, d))
  {
    var next := Execute(m, a);
    FeedKeeps(m, a);
    ExecuteRuns(m, a);
    hide Steps, Inv, Consumed;
    SameRunSteps(next, Steps(m, a), b);
    ConsumedSame(next, Steps(m, a), b);
    hide Execute;
    NothingKept(next, b);
  }

  /** Cut right before the byte that ends a chunk badly, the stream is delivered in full. */
  lemma CutBeforeError(m: Machine, d: string)
    requires Ready(m) && BadChunkEnd(Steps(m, d)) && Consumed(m, d) > 0
    ensures var n := Consumed(m, d);
            && n < |d| && NoneEmpty([d[..n], d[n..]]) && Concat([d[..n], d[n..]]) == d
            && Feed(m, [d[..n], d[n..]]).body == Read(Steps(m, d))
  {
    hide Step, Steps, Inv, Consumed, Execute, Feed, NoneEmpty, Concat;
    var n := Consumed(m, d);
    ConsumedCut(m, d);
    Halves(d, n);
    CutRuns(m, d, d[..n], d[n..]);
    FeedTwo(m, d[..n], d[n..]);
    TwoBuffers(d[..n], d[n..]);
  }

  lemma Halves(d: string, n: nat)
    requires 0 < n < |d|
    ensures d[..n] != "" && d[n..] != "" && d[..n] + d[n..] == d
  {
  }

  lemma TwoBuffers(a: string, b: string)
    ensures Concat([a, b]) == a + b && (a != "" && b != "" ==> NoneEmpty([a, b]))
  {
    assert [a, b][1..] == [b] && [b][1..] == [];
    assert Concat([b]) == b + [] == b;
  }

  lemma FeedTwo(m: Machine, a: string, b: string)
    ensures Feed(m, [a, b]) == Execute(Execute(m, a), b)
  {
    hide Execute;
    assert [a, b][1..] == [b] && [b][1..] == [];
    assert Feed(Execute(m, a), [b]) == Feed(Execute(Execute(m, a), b), []);
  }

  /** Somewhere behind the first byte of a buffer a chunk is complete, and the byte that follows is not its CR. */
  ghost predicate ChunkEndsBadly(m: Machine, d: string) {
    exists n :: 0 < n < |d| && EndsBadlyAt(m, d, n)
  }

  predicate EndsBadlyAt(m: Machine, d: string, n: nat)
    requires n < |d|
  {
    Steps(m, d[..n]).errno == Okay && Steps(m, d[..n]).state == ChunkDataAlmostDone && d[n] != CR
  }

  lemma BadByte(m: Machine, c: char)
    requires Inv(m) && m.errno == Okay
    ensures BadChunkEnd(Step(m, c)) <==> m.state == ChunkDataAlmostDone && c != CR
  {
    if Unhex(c) != -1 {
      SizeDigitFrame(m.(nread := m.nread + 1), Unhex(c));
    }
    hide Unhex, IsToken, SizeDigit;
  }

  lemma RunsTo(m: Machine, d: string, n: nat)
    requires n < |d| && Steps(m, d[..n]).errno == Okay
    ensures Steps(m, d) == Steps(Step(Steps(m, d[..n]), d[n]), d[n + 1..])
  {
    hide Step;
    assert d == d[..n] + d[n..];
    StepsAppend(m, d[..n], d[n..]);
  }

  lemma {:induction false} ConsumedAtLeast(m: Machine, d: string, n: nat)
    requires n <= |d| && m.errno == Okay && Steps(m, d[..n]).errno == Okay
    ensures Consumed(m, d) >= n
    decreases n
  {
    hide Step;
    if n > 0 {
      StepsFail(m, d[..n]);
      assert d[..n][0] == d[0] && d[..n][1..] == d[1..][..n - 1];
      ConsumedAtLeast(Step(m, d[0]), d[1..], n - 1);
    }
  }

  /** A run ends at a bad chunk end, and not with its first byte, exactly if a chunk ends badly behind it. */
  lemma EndsBadly(m: Machine, d: string)
    requires Ready(m) && d != ""
    ensures ChunkEndsBadly(m, d) <==> BadChunkEnd(Steps(m, d)) && Consumed(m, d) > 0
  {
    hide Steps, Step, Inv;
    if BadChunkEnd(Steps(m, d)) && Consumed(m, d) > 0 {
      var n := Consumed(m, d);
      BadEndAt(m, d);
      assert EndsBadlyAt(m, d, n);
    }
    if ChunkEndsBadly(m, d) {
      var n :| 0 < n < |d| && EndsBadlyAt(m, d, n);
      StepsKeep(m, d[..n]);
      BadByte(Steps(m, d[..n]), d[n]);
      RunsTo(m, d, n);
      StepsFail(Step(Steps(m, d[..n]), d[n]), d[n + 1..]);
      ConsumedAtLeast(m, d, n);
    }
  }

  lemma BadEndAt(m: Machine, d: string)
    requires Ready(m) && d != "" && BadChunkEnd(Steps(m, d))
    ensures Consumed(m, d) < |d| && EndsBadlyAt(m, d, Consumed(m, d))
  {
    var n := Consumed(m, d);
    hide Step, Inv;
    ConsumedCut(m, d);
    var before := Steps(m, d[..n]);
    StepsKeep(m, d[..n]);
    BadByte(before, d[n]);
    assert d[n..][0] == d[n];
    StepsFail(Step(before, d[n]), d[n..][1..]);
  }

  /** What the application has: the bodies of the requests handed over, and the body of the next as far as it goes. */
  function Delivered(m: Machine): (seq<string>, string) {
    (m.handed, m.body)
  }

  /** What is delivered is the same for every way of cutting a stream into buffers exactly if nowhere behind its first
      byte a chunk is complete and another byte than its CR follows. */
  lemma BodyIndependent(m: Machine, d: string)
    requires Ready(m) && d != ""
    ensures (forall bufs: seq<string> :: NoneEmpty(bufs) && Concat(bufs) == d ==>
            Delivered(Feed(m, bufs)) == Delivered(Execute(m, d)))
       <==> !ChunkEndsBadly(m, d)
  {
    hide Steps, Inv, Feed, Consumed, Execute, NoneEmpty, Concat, ChunkEndsBadly;
    EndsBadly(m, d);
    ExecuteRuns(m, d);
    OneBuffer(m, d);
    if !ChunkEndsBadly(m, d) {
      forall bufs: seq<string> | NoneEmpty(bufs) && Concat(bufs) == d
          ensures Delivered(Feed(m, bufs)) == Delivered(Execute(m, d)) {
        SameDelivery(m, bufs, d);
        SameDelivery(m, [d], d);
      }
    } else {
      LostAtChunkEnd(m, d);
      CutBeforeError(m, d);
    }
  }

  lemma OneBuffer(m: Machine, d: string)
    requires d != ""
    ensures Feed(m, [d]) == Execute(m, d) && NoneEmpty([d]) && Concat([d]) == d
  {
    hide Execute;
    assert [d][1..] == [];
    assert d + "" == d;
  }

  lemma SameDelivery(m: Machine, bufs: seq<string>, d: string)
    requires Ready(m) && NoneEmpty(bufs) && Concat(bufs) == d && (!BadChunkEnd(Steps(m, d)) || Consumed(m, d) == 0)
    requires d != ""
    ensures Delivered(Feed(m, bufs)) == (Steps(m, d).handed, Read(Steps(m, d)))
  {
    hide Steps, Inv, Feed, Consumed, NoneEmpty, Concat;
    CutsAgree(m, bufs);
    AllDelivered(m, bufs);
    if BadChunkEnd(Steps(m, d)) {
      FailsAtOnce(m, bufs, d);
    }
    AllThere(Feed(m, bufs), Steps(m, d));
  }

  lemma AllThere(m: Machine, n: Machine)
    requires SameRun(m, n) && m.pending == ""
    ensures Delivered(m) == (n.handed, Read(n))
  {
    assert m.body + "" == m.body;
    assert Whole(m).handed == Whole(n).handed && Whole(m).body == Whole(n).body;
  }

  lemma FailsAtOnce(m: Machine, bufs: seq<string>, d: string)
    requires Ready(m) && NoneEmpty(bufs) && Concat(bufs) == d && d != "" && BadChunkEnd(Steps(m, d))
             && Consumed(m, d) == 0
    ensures Feed(m, bufs).pending == ""
  {
    hide Step, Inv;
    var a := bufs[0];
    assert a[0] == d[0];
    PendingStep(m, d[0]);
    StepsFail(Step(m, d[0]), a[1..]);
    FeedAfterError(Execute(m, a), bufs[1..]);
  }

  lemma StepsByByte(m: Machine, d: string)
    requires d != "" && m.errno == Okay
    ensures Steps(m, d) == Steps(Step(m, d[0]), d[1..])
  {
  }
}
