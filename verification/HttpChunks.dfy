/** The chunked transfer coding: what its texts mean to the body states of the HTTP parser. */
module HttpChunks {
  import opened Basics
  import opened Hexadecimals
  import opened HttpBody

  // ---------- runs over a piece of text ----------

  lemma OneStep(m: Machine, c: char)
    requires m.errno == Okay
    ensures Steps(m, [c]) == Step(m, c)
  {
    hide Step;
    assert [c][1..] == "";
    assert Steps(Step(m, c), "") == Step(m, c);
  }

  lemma LastStep(m: Machine, d: string)
    requires d != "" && Steps(m, d[..|d| - 1]).errno == Okay
    ensures Steps(m, d) == Step(Steps(m, d[..|d| - 1]), d[|d| - 1])
  {
    hide Step, Steps;
    assert d == d[..|d| - 1] + [d[|d| - 1]];
    StepsAppend(m, d[..|d| - 1], [d[|d| - 1]]);
    OneStep(Steps(m, d[..|d| - 1]), d[|d| - 1]);
  }

  lemma FailedBefore(m: Machine, d: string)
    requires d != "" && Steps(m, d[..|d| - 1]).errno != Okay
    ensures Steps(m, d) == Steps(m, d[..|d| - 1])
  {
    hide Step, Steps;
    assert d == d[..|d| - 1] + [d[|d| - 1]];
    StepsAppend(m, d[..|d| - 1], [d[|d| - 1]]);
    StepsFail(Steps(m, d[..|d| - 1]), [d[|d| - 1]]);
  }

  // ---------- data in bulk ----------

  /** The bytes of a body before its last one are only collected. */
  lemma {:induction false} DataReads(m: Machine, d: string)
    requires m.errno == Okay && (m.state == ChunkData || m.state == BodyIdentity) && |d| < m.contentLength <= NO_LENGTH
    ensures Steps(m, d) == m.(contentLength := m.contentLength - |d|, pending := m.pending + d)
    decreases |d|
  {
    if d == "" {
      StepsNothing(m);
      assert m.pending + d == m.pending;
    } else {
      var next := m.(contentLength := m.contentLength - 1, pending := m.pending + [d[0]]);
      DataStep(m, d[0]);
      StepsByByte(m, d);
      hide Steps, Step;
      DataReads(next, d[1..]);
      assert (m.pending + [d[0]]) + d[1..] == m.pending + d;
    }
  }

  lemma DataStep(m: Machine, c: char)
    requires (m.state == ChunkData || m.state == BodyIdentity) && 0 < m.contentLength <= NO_LENGTH
    ensures m.contentLength > 1 ==> Step(m, c) == m.(contentLength := m.contentLength - 1, pending := m.pending + [c])
    ensures m.contentLength == 1 && m.state == ChunkData ==>
              Step(m, c) == m.(contentLength := 0, pending := m.pending + [c], state := ChunkDataAlmostDone)
    ensures m.contentLength == 1 && m.state == BodyIdentity ==>
              Step(m, c) == Complete(m.(contentLength := 0, pending := m.pending + [c]))
  {
  }

  /** All the bytes of a body, up to its last one. */
  lemma DataEnds(m: Machine, d: string)
    requires m.errno == Okay && (m.state == ChunkData || m.state == BodyIdentity) && |d| == m.contentLength
             && 0 < |d| <= NO_LENGTH
    ensures m.state == ChunkData ==>
              Steps(m, d) == m.(contentLength := 0, pending := m.pending + d, state := ChunkDataAlmostDone)
    ensures m.state == BodyIdentity ==>
              Steps(m, d) == Complete(m.(contentLength := 0, pending := m.pending + d))
  {
    hide Steps, Step;
    var front, last := d[..|d| - 1], d[|d| - 1];
    DataReads(m, front);
    LastStep(m, d);
    var before := m.(contentLength := 1, pending := m.pending + front);
    DataStep(before, last);
    assert Steps(m, front) == before;
    assert (m.pending + front) + [last] == m.pending + d;
  }

  // ---------- where a header is parsed again ----------

  /** All the bytes are left to the header. */
  lemma {:induction false} RestReads(m: Machine, d: string)
    requires m.errno == Okay && Leaves(m.state)
    ensures Steps(m, d) == m.(rest := m.rest + d)
    decreases |d|
  {
    if d == "" {
      StepsNothing(m);
      assert m.rest + d == m.rest;
    } else {
      StepsByByte(m, d);
      assert Step(m, d[0]) == m.(rest := m.rest + [d[0]]);
      hide Step, Steps;
      RestReads(m.(rest := m.rest + [d[0]]), d[1..]);
      assert (m.rest + [d[0]]) + d[1..] == m.rest + d;
    }
  }

  /** A stream that completes the message, and what follows. */
  lemma RestBehind(m: Machine, d: string, behind: string)
    requires Steps(m, d).errno == Okay && Leaves(Steps(m, d).state)
    ensures Steps(m, d + behind) == Steps(m, d).(rest := Steps(m, d).rest + behind)
  {
    StepsAppend(m, d, behind);
    RestReads(Steps(m, d), behind);
    hide Steps;
  }

  // ---------- chunk sizes ----------

  /** The parser's digit table has the values of the digits. */
  lemma DigitReads(c: char, d: nat)
    requires IsDigitOf(c, d)
    ensures Unhex(c) == d && c != CR
  {
    DigitCodes(d);
  }

  /** A chunk size is read as the number it writes, in digits of either case and with any leading zeros, or rejected: as
      too many bytes, or as too large for 64 bits. */
  lemma {:induction false} SizeReads(m: Machine, s: string, n: nat)
    requires m.errno == Okay && m.state == ChunkSizeStart && m.nread == 0 && Writes(s, n)
    ensures if n < TWO64 - 16 && |s| <= MAX_HEADER_SIZE
            then Steps(m, s) == m.(state := ChunkSize, contentLength := n, nread := |s|)
            else Steps(m, s).errno in {InvalidContentLength, HeaderOverflow}
    decreases |s|
  {
    hide Steps, Unhex, IsDigitOf;
    DigitReads(s[|s| - 1], n % 16);
    if |s| == 1 {
      assert s == [s[0]];
      OneStep(m, s[0]);
    } else {
      hide Step;
      var front, last := s[..|s| - 1], s[|s| - 1];
      SizeReads(m, front, n / 16);
      if n / 16 < TWO64 - 16 && |front| <= MAX_HEADER_SIZE {
        LastStep(m, s);
        SizeStep(m.(state := ChunkSize, contentLength := n / 16, nread := |front|), last);
      } else {
        FailedBefore(m, s);
      }
    }
  }

  lemma SizeStep(m: Machine, c: char)
    requires m.errno == Okay && m.state == ChunkSize && Unhex(c) >= 0 && c != CR && m.contentLength <= NO_LENGTH
    ensures var value := m.contentLength * 16 + Unhex(c);
            if m.nread >= MAX_HEADER_SIZE then Step(m, c).errno == HeaderOverflow
            else if value < TWO64 - 16 then Step(m, c) == m.(contentLength := value, nread := m.nread + 1)
            else Step(m, c).errno == InvalidContentLength
  {
    SizeDigitExact(m.(nread := m.nread + 1), Unhex(c));
    hide SizeDigit;
  }

  // ---------- chunks ----------

  /** A chunk as it is written: the digits of its size, whatever follows them on that line, and its data. */
  datatype Chunk = Chunk(size: string, extension: string, data: string)

  predicate IsExtension(s: string) {
    s == "" || ((s[0] == ';' || s[0] == ' ') && forall i :: 0 <= i < |s| ==> s[i] != CR)
  }

  /** A chunk whose size line writes the size of its data, and is one that the header limit admits. */
  predicate GoodChunk(c: Chunk) {
    && Writes(c.size, |c.data|) && |c.data| < TWO64 - 16
    && IsExtension(c.extension) && |c.size| + |c.extension| + 2 <= MAX_HEADER_SIZE
  }

  function SizeLine(c: Chunk): string {
    c.size + (c.extension + [CR, LF])
  }

  function ChunkText(c: Chunk): string {
    SizeLine(c) + (c.data + [CR, LF])
  }

  function ChunkTexts(chunks: seq<Chunk>): string {
    if chunks == [] then "" else ChunkText(chunks[0]) + ChunkTexts(chunks[1..])
  }

  function DataOf(chunks: seq<Chunk>): string {
    if chunks == [] then "" else chunks[0].data + DataOf(chunks[1..])
  }

  /** A body in the chunked coding, without trailer fields. */
  function Chunked(chunks: seq<Chunk>, last: Chunk): string {
    ChunkTexts(chunks) + (SizeLine(last) + [CR, LF])
  }

  predicate GoodChunks(chunks: seq<Chunk>) {
    forall i :: 0 <= i < |chunks| ==> GoodChunk(chunks[i]) && chunks[i].data != ""
  }

  lemma {:induction false} ExtensionReads(m: Machine, s: string)
    requires m.errno == Okay && m.state == ChunkParameters && m.nread + |s| <= MAX_HEADER_SIZE
    requires forall i :: 0 <= i < |s| ==> s[i] != CR
    ensures Steps(m, s) == m.(nread := m.nread + |s|)
    decreases |s|
  {
    if s == "" {
      StepsNothing(m);
    } else {
      StepsByByte(m, s);
      assert Step(m, s[0]) == m.(nread := m.nread + 1);
      hide Step, Steps;
      ExtensionReads(m.(nread := m.nread + 1), s[1..]);
    }
  }

  lemma LineTailReads(m: Machine, extension: string)
    requires m.errno == Okay && m.state == ChunkSize && IsExtension(extension)
    requires m.nread + |extension| + 2 <= MAX_HEADER_SIZE
    ensures Steps(m, extension).errno == Okay
    ensures Steps(m, extension) == m.(nread := m.nread + |extension|,
            state := if extension == "" then ChunkSize else ChunkParameters)
  {
    if extension == "" {
      StepsNothing(m);
    } else {
      StepsByByte(m, extension);
      assert Step(m, extension[0]) == m.(nread := m.nread + 1, state := ChunkParameters);
      hide Step, Steps;
      ExtensionReads(m.(nread := m.nread + 1, state := ChunkParameters), extension[1..]);
    }
  }

  lemma TwoSteps(m: Machine, a: char, b: char)
    requires m.errno == Okay && Step(m, a).errno == Okay
    ensures Steps(m, [a, b]) == Step(Step(m, a), b)
  {
    hide Step;
    assert [a, b] == [a] + [b];
    StepsAppend(m, [a], [b]);
    OneStep(m, a);
    OneStep(Step(m, a), b);
  }

  lemma LineEndReads(m: Machine)
    requires m.errno == Okay && (m.state == ChunkSize || m.state == ChunkParameters) && m.nread + 2 <= MAX_HEADER_SIZE
    ensures Steps(m, [CR, LF])
         == if m.contentLength == 0 then m.(nread := 0, trailing := true, state := HeaderFieldStart)
             else m.(nread := 0, state := ChunkData)
  {
    TwoSteps(m, CR, LF);
  }

  lemma LineReads(m: Machine, c: Chunk)
    requires m.errno == Okay && m.state == ChunkSizeStart && m.nread == 0 && GoodChunk(c)
    ensures Steps(m, SizeLine(c))
         == if |c.data| == 0 then m.(contentLength := 0, trailing := true, state := HeaderFieldStart)
            else m.(contentLength := |c.data|, state := ChunkData)
  {
    var m1 := m.(state := ChunkSize, contentLength := |c.data|, nread := |c.size|);
    SizeReads(m, c.size, |c.data|);
    LineTailReads(m1, c.extension);
    LineEndReads(Steps(m1, c.extension));
    hide Step, Steps;
    StepsAppend(m, c.size, c.extension + [CR, LF]);
    StepsAppend(m1, c.extension, [CR, LF]);
  }

  lemma ChunkEndReads(m: Machine)
    requires m.errno == Okay && m.state == ChunkDataAlmostDone
    ensures Steps(m, [CR, LF]) == m.(nread := 0, state := ChunkSizeStart, body := m.body + m.pending, pending := "")
  {
    TwoSteps(m, CR, LF);
  }

  /** One chunk adds its data to the body and leaves the parser where it was. */
  lemma ChunkReads(m: Machine, c: Chunk)
    requires Ready(m) && m.state == ChunkSizeStart && GoodChunk(c) && c.data != ""
    ensures Steps(m, ChunkText(c)) == m.(contentLength := 0, body := m.body + c.data)
  {
    var m1 := m.(contentLength := |c.data|, state := ChunkData);
    var m2 := m.(contentLength := 0, pending := c.data, state := ChunkDataAlmostDone);
    LineReads(m, c);
    DataEnds(m1, c.data);
    ChunkEndReads(m2);
    hide Step, Steps;
    assert "" + c.data == c.data;
    StepsAppend(m, SizeLine(c), c.data + [CR, LF]);
    StepsAppend(m1, c.data, [CR, LF]);
  }

  lemma ReadyBehindChunk(m: Machine, data: string)
    requires Ready(m) && m.state == ChunkSizeStart
    ensures Ready(m.(contentLength := 0, body := m.body + data))
  {
  }

  lemma {:induction false} ChunksRead(m: Machine, chunks: seq<Chunk>)
    requires Ready(m) && m.state == ChunkSizeStart && GoodChunks(chunks)
    ensures Steps(m, ChunkTexts(chunks))
            == m.(contentLength := if chunks == [] then m.contentLength else 0, body := m.body + DataOf(chunks))
    decreases |chunks|
  {
    hide Step, Steps, GoodChunk, Inv, ChunkText;
    if chunks == [] {
      StepsNothing(m);
      assert m.body + DataOf(chunks) == m.body;
    } else {
      var c, rest := chunks[0], chunks[1..];
      var m1 := m.(contentLength := 0, body := m.body + c.data);
      ChunkReads(m, c);
      ReadyBehindChunk(m, c.data);
      StepsAppend(m, ChunkText(c), ChunkTexts(rest));
      ChunksRead(m1, rest);
      assert (m.body + c.data) + DataOf(rest) == m.body + DataOf(chunks);
    }
  }

  lemma TrailerReads(m: Machine)
    requires m.errno == Okay && m.state == HeaderFieldStart && m.trailing && m.nread == 0
    ensures Steps(m, [CR, LF]) == Complete(m.(nread := 2))
  {
    TwoSteps(m, CR, LF);
  }

  /** The parser when it has handed a request over and is cleared, with what follows on the stream. */
  function HandedOver(m: Machine, body: string, behind: string): Machine {
    m.(state := StartReq, handed := m.handed + [body], body := "", pending := "", contentLength := 0,
        rest := m.rest + behind)
  }

  /** What the parser is after a chunked body, and what follows. */
  function AfterChunked(m: Machine, chunks: seq<Chunk>, behind: string): Machine {
    HandedOver(m, m.body + DataOf(chunks), behind).(trailing := true, nread := 2)
  }

  lemma ChunkedRuns(m: Machine, chunks: seq<Chunk>, last: Chunk)
    requires Ready(m) && m.state == ChunkSizeStart && GoodChunks(chunks) && GoodChunk(last) && last.data == ""
    ensures Steps(m, Chunked(chunks, last)) == AfterChunked(m, chunks, "")
  {
    var m1 := Steps(m, ChunkTexts(chunks));
    ChunksRead(m, chunks);
    LineReads(m1, last);
    var m2 := m1.(contentLength := 0, trailing := true, state := HeaderFieldStart);
    TrailerReads(m2);
    hide Step, Steps, DataOf, ChunkTexts, SizeLine;
    StepsAppend(m, ChunkTexts(chunks), SizeLine(last) + [CR, LF]);
    StepsAppend(m1, SizeLine(last), [CR, LF]);
    assert (m.body + DataOf(chunks)) + "" == m.body + DataOf(chunks) && m.rest + "" == m.rest;
  }

  lemma ChunkedRunsOn(m: Machine, chunks: seq<Chunk>, last: Chunk, behind: string)
    requires Ready(m) && m.state == ChunkSizeStart && GoodChunks(chunks) && GoodChunk(last) && last.data == ""
    ensures Steps(m, Chunked(chunks, last) + behind) == AfterChunked(m, chunks, behind)
  {
    hide Steps, Chunked, DataOf, GoodChunk, GoodChunks, Inv;
    ChunkedRuns(m, chunks, last);
    RestBehind(m, Chunked(chunks, last), behind);
    NothingBehind(m.rest, behind);
  }

  lemma NothingBehind(a: string, b: string)
    ensures (a + "") + b == a + b
  {
  }

  /** Decoding the chunked coding of any list of chunks, cut into buffers in any way and with anything behind it, hands
      over the concatenation of their data once, and leaves what is behind. */
  lemma ChunkedRoundTrip(m: Machine, chunks: seq<Chunk>, last: Chunk, behind: string, bufs: seq<string>)
    requires Ready(m) && m.state == ChunkSizeStart && GoodChunks(chunks) && GoodChunk(last) && last.data == ""
    requires NoneEmpty(bufs) && Concat(bufs) == Chunked(chunks, last) + behind
    ensures Feed(m, bufs) == AfterChunked(m, chunks, behind)
  {
    hide Steps, Feed, Concat, Chunked, DataOf, GoodChunk, Inv, NoneEmpty, GoodChunks;
    ChunkedRunsOn(m, chunks, last, behind);
    CutsAgree(m, bufs);
    AllDelivered(m, bufs);
    NothingPending(Feed(m, bufs), AfterChunked(m, chunks, behind));
  }

  lemma NothingPending(m: Machine, n: Machine)
    requires SameRun(m, n) && m.pending == "" && n.pending == ""
    ensures m == n
  {
    assert m.body + "" == m.body && n.body + "" == n.body;
    assert m == Whole(m) && n == Whole(n);
  }

  lemma LengthRuns(m: Machine, d: string, behind: string)
    requires Ready(m) && m.state == BodyIdentity && m.contentLength == |d|
    ensures Steps(m, d + behind) == HandedOver(m, m.body + d, behind)
  {
    DataEnds(m, d);
    hide Steps;
    RestBehind(m, d, behind);
    assert "" + d == d;
  }

  /** A body of known length, cut into buffers in any way and with anything behind it, is handed over whole, once. */
  lemma LengthRoundTrip(m: Machine, d: string, behind: string, bufs: seq<string>)
    requires Ready(m) && m.state == BodyIdentity && m.contentLength == |d|
    requires NoneEmpty(bufs) && Concat(bufs) == d + behind
    ensures Feed(m, bufs) == HandedOver(m, m.body + d, behind)
  {
    hide Steps, Feed, Concat, Inv, NoneEmpty;
    LengthRuns(m, d, behind);
    CutsAgree(m, bufs);
    AllDelivered(m, bufs);
    NothingPending(Feed(m, bufs), HandedOver(m, m.body + d, behind));
  }

  // ---------- chunks that end badly ----------

  /** A stream from the end of a header on: some chunks, and one more with another byte than CR behind its data. */
  function BadlyChunked(chunks: seq<Chunk>, c: Chunk, wrong: char, rest: string): string {
    [LF] + (ChunkTexts(chunks) + (SizeLine(c) + (c.data + ([wrong] + rest))))
  }

  /** A parser before the last byte of the header of a chunked request. */
  predicate BeforeChunks(m: Machine) {
    && Ready(m) && m.state == HeadersAlmostDone && m.nread < MAX_HEADER_SIZE && !m.trailing
    && m.head.chunked && !(m.head.usesTransferEncoding && m.head.hasLength)
  }

  lemma HeaderEndReads(m: Machine)
    requires BeforeChunks(m)
    ensures Steps(m, [LF]) == m.(state := ChunkSizeStart, nread := 0)
  {
    OneStep(m, LF);
  }

  /** The stream up to the end of the data. */
  lemma BadlyChunkedReads(m: Machine, chunks: seq<Chunk>, c: Chunk)
    requires BeforeChunks(m) && GoodChunks(chunks) && GoodChunk(c) && c.data != ""
    ensures Steps(m, [LF] + (ChunkTexts(chunks) + (SizeLine(c) + c.data)))
         == m.(state := ChunkDataAlmostDone, nread := 0, contentLength := 0, body := m.body + DataOf(chunks),
             pending := c.data)
  {
    var m0 := m.(state := ChunkSizeStart, nread := 0);
    var m1 := Steps(m0, ChunkTexts(chunks));
    var m2 := m1.(contentLength := |c.data|, state := ChunkData);
    HeaderEndReads(m);
    ChunksRead(m0, chunks);
    LineReads(m1, c);
    DataEnds(m2, c.data);
    assert "" + c.data == c.data;
    hide Steps, Step, ChunkTexts, SizeLine, DataOf;
    StepsAppend(m, [LF], ChunkTexts(chunks) + (SizeLine(c) + c.data));
    StepsAppend(m0, ChunkTexts(chunks), SizeLine(c) + c.data);
    StepsAppend(m1, SizeLine(c), c.data);
  }

  lemma BadlyChunkedCut(m: Machine, chunks: seq<Chunk>, c: Chunk, wrong: char, rest: string)
    ensures var front := [LF] + (ChunkTexts(chunks) + (SizeLine(c) + c.data));
            && BadlyChunked(chunks, c, wrong, rest) == front + ([wrong] + rest)
            && NoneEmpty([front, [wrong] + rest])
            && Concat([front, [wrong] + rest]) == BadlyChunked(chunks, c, wrong, rest)
  {
    hide ChunkTexts, SizeLine;
    var front, back := [LF] + (ChunkTexts(chunks) + (SizeLine(c) + c.data)), [wrong] + rest;
    Regroup([LF], ChunkTexts(chunks) + (SizeLine(c) + c.data), back);
    Regroup(ChunkTexts(chunks), SizeLine(c) + c.data, back);
    Regroup(SizeLine(c), c.data, back);
    assert [front, back][1..] == [back] && [back][1..] == [] && Concat([back]) == back + "" == back;
  }

  /** Such a stream delivers the last chunk if it is cut in front of the wrong byte, and loses it in one buffer; the
      error is the same. */
  lemma BodyDependsOnCuts(m: Machine, chunks: seq<Chunk>, c: Chunk, wrong: char, rest: string)
    requires BeforeChunks(m) && GoodChunks(chunks) && GoodChunk(c) && c.data != "" && wrong != CR
    ensures var d, front := BadlyChunked(chunks, c, wrong, rest), [LF] + (ChunkTexts(chunks) + (SizeLine(c) + c.data));
            && Concat([front, [wrong] + rest]) == d
            && Feed(m, [front, [wrong] + rest]).body == m.body + DataOf(chunks) + c.data
            && Feed(m, [d]).body == m.body + DataOf(chunks)
            && Feed(m, [front, [wrong] + rest]).errno == Feed(m, [d]).errno == Strict
  {
    var front, back := [LF] + (ChunkTexts(chunks) + (SizeLine(c) + c.data)), [wrong] + rest;
    BadlyChunkedReads(m, chunks, c);
    BadlyChunkedCut(m, chunks, c, wrong, rest);
    assert back[0] == wrong;
    hide ChunkTexts, SizeLine, DataOf, GoodChunks, GoodChunk, BadlyChunked;
    var read := Steps(m, front);
    WrongByte(read, back);
    WrongByte(read.(body := read.body + read.pending, pending := ""), back);
    StepsAppend(m, front, back);
    FeedTwo(m, front, back);
    OneBuffer(m, front + back);
    hide Steps;
  }

  lemma WrongByte(m: Machine, d: string)
    requires m.errno == Okay && m.state == ChunkDataAlmostDone && d != "" && d[0] != CR
    ensures Steps(m, d) == m.(errno := Strict)
  {
    assert Steps(Step(m, d[0]), d[1..]) == Step(m, d[0]);
  }

  /** For example a chunk of three bytes. */
  lemma ThreeBytesLost()
    ensures var m := Machine(HeadersAlmostDone, NO_LENGTH, 60, Head(true, true, false, false), false, Okay, "", "", [],
            "");
            var front := [LF, '3', CR, LF, 'a', 'b', 'c'];
            Ready(m) && Feed(m, [front + "X"]).body == "" && Feed(m, [front, "X"]).body == "abc"
  {
    var m := Machine(HeadersAlmostDone, NO_LENGTH, 60, Head(true, true, false, false), false, Okay, "", "", [], "");
    var c := Chunk("3", "", "abc");
    assert IsDigitOf('3', 3) && Writes("3", 3);
    assert SizeLine(c) == ['3', CR, LF];
    assert [LF] + (ChunkTexts([]) + (SizeLine(c) + c.data)) == [LF, '3', CR, LF, 'a', 'b', 'c'];
    BodyDependsOnCuts(m, [], c, 'X', "");
    hide Feed;
    assert ['X'] + "" == "X";
  }
}
