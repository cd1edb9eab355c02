/** The HTTP parser's body states as they run: over a whole buffer, with a mark where the undelivered part of the
    body begins, and in strides over the bytes of a body; and the connection that feeds it. */
module HttpParser {
  import opened Basics
  import opened Decimals
  import opened HttpBody
  import opened HttpChunks

  class BodyParser {
    var state: State
    var contentLength: nat
    var nread: nat
    const head: Head
    var trailing: bool
    var errno: Errno
    var body: string
    /** The bodies of the requests that the handler was given. */
    var handed: seq<string>
    /** What is left to the header, behind a complete message or at a trailer field. */
    var rest: string
    var messageComplete: bool
    var closeConnection: bool
    /** What an error kept from being delivered. */
    ghost var lost: string

    /** The parser as it stands after the end of a header, with nothing read of the body. */
    constructor (head: Head, contentLength: nat, nread: nat)
      requires contentLength <= NO_LENGTH && nread <= MAX_HEADER_SIZE
      ensures At() == Machine(HeadersAlmostDone, contentLength, nread, head, false, Okay, "", "", [], "")
      ensures Ready(At()) && Valid() && !messageComplete
    {
      this.state := HeadersAlmostDone;
      this.contentLength := contentLength;
      this.nread := nread;
      this.head := head;
      this.trailing := false;
      this.errno := Okay;
      this.body := "";
      this.handed := [];
      this.rest := "";
      this.messageComplete := false;
      this.closeConnection := false;
      this.lost := "";
    }

    /** The parser between two calls. */
    ghost function At(): Machine
      reads this
    {
      Machine(state, contentLength, nread, head, trailing, errno, body, lost, handed, rest)
    }

    /** The parser inside a call, with the local count of header bytes and the marked part of the body. */
    ghost function Running(count: nat, pending: string): Machine
      reads this
    {
      Machine(state, contentLength, count, head, trailing, errno, body, pending, handed, rest)
    }

    /** The connection closes exactly if it is to close behind this request, and the request is complete. */
    ghost predicate ClosesInTime()
      reads this`state, this`closeConnection
    {
      closeConnection <==> state == StartReq && head.closes
    }

    ghost predicate Valid()
      reads this
    {
      (errno == Okay ==> Ready(At())) && ClosesInTime()
    }

    /** The application's callbacks. */
    method OnBody(piece: string)
      modifies this`body
      ensures body == old(body) + piece
    {
      body := body + piece;
    }

    method OnMessageComplete()
      modifies this`state, this`body, this`handed, this`messageComplete, this`closeConnection
      ensures state == StartReq && handed == old(handed) + [old(body)] && body == "" && !messageComplete
              && ClosesInTime()
    {
      messageComplete := true;
      Handle();
    }

    /** The request goes to its handler, which answers at once; when the answer has been written, the parser is cleared
        for the next request, still inside the callback. */
    method Handle()
      modifies this`state, this`body, this`handed, this`messageComplete, this`closeConnection
      ensures state == StartReq && handed == old(handed) + [old(body)] && body == "" && !messageComplete
              && ClosesInTime()
    {
      closeConnection := head.closes;
      handed := handed + [body];
      Clear();
    }

    method Clear()
      modifies this`state, this`body, this`messageComplete
      ensures state == StartReq && body == "" && !messageComplete
    {
      body := "";
      messageComplete := false;
      state := StartReq;
    }

    /** The bytes of a chunk's size line. */
    method SizeLineByte(c: char, count: nat, ghost pending: string) returns (count': nat)
      requires state in {ChunkSizeStart, ChunkSize, ChunkParameters, ChunkSizeAlmostDone}
      modifies this`state, this`contentLength, this`trailing, this`errno
      ensures Running(count', pending) == Act(old(Running(count, pending)), c) && state != StartReq
    {
      count' := count;
      var digit := Unhex(c);
      match state
      case ChunkSizeStart =>
        if digit == -1 {
          errno := InvalidChunkSize;
        } else {
          contentLength := digit;
          state := ChunkSize;
        }
      case ChunkSize =>
        if c == CR {
          state := ChunkSizeAlmostDone;
        } else if digit == -1 {
          if c == ';' || c == ' ' {
            state := ChunkParameters;
          } else {
            errno := InvalidChunkSize;
          }
        } else {
          var t := contentLength * 16 % TWO64;
          t := (t + digit) % TWO64;
          if (NO_LENGTH - 16) / 16 < contentLength {
            errno := InvalidContentLength;
          } else {
            contentLength := t;
          }
        }
      case ChunkParameters =>
        if c == CR {
          state := ChunkSizeAlmostDone;
        }
      case ChunkSizeAlmostDone =>
        if c != LF {
          errno := Strict;
        } else {
          count' := 0;
          if contentLength == 0 {
            trailing := true;
            state := HeaderFieldStart;
          } else {
            state := ChunkData;
          }
        }
    }

    /** The LF that ends the header, or the trailer. */
    method EndHeader(count: nat) returns (count': nat)
      requires !messageComplete && !closeConnection && state == HeadersAlmostDone
      modifies this`state, this`errno, this`body, this`handed, this`messageComplete, this`closeConnection
      ensures Running(count', "") == EndOfHeader(old(Running(count, ""))) && !messageComplete && ClosesInTime()
    {
      assert body + "" == body;
      count' := count;
      if trailing {
        OnMessageComplete();
      } else if head.usesTransferEncoding && head.hasLength {
        errno := UnexpectedContentLength;
      } else {
        state := HeadersDone;
        count' := BeginBody(count);
      }
    }

    method BeginBody(count: nat) returns (count': nat)
      requires !messageComplete && !closeConnection && state == HeadersDone
      modifies this`state, this`errno, this`body, this`handed, this`messageComplete, this`closeConnection
      ensures Running(count', "") == StartBody(old(Running(count, ""))) && !messageComplete && ClosesInTime()
    {
      assert body + "" == body;
      count' := 0;
      if head.chunked {
        state := ChunkSizeStart;
      } else if head.usesTransferEncoding {
        errno := InvalidTransferEncoding;
      } else if contentLength == 0 {
        OnMessageComplete();
      } else if contentLength != NO_LENGTH {
        state := BodyIdentity;
      } else {
        OnMessageComplete();
      }
    }

    /** The bytes between the parts of a message. */
    method ControlByte(c: char, count: nat) returns (count': nat)
      requires state in {ChunkDataDone, HeaderFieldStart, HeadersAlmostDone, HeadersDone, MessageDone}
      requires !messageComplete && !closeConnection
      modifies this`state, this`errno, this`body, this`handed, this`rest, this`messageComplete, this`closeConnection
      ensures Running(count', "") == Act(old(Running(count, "")), c) && !messageComplete && ClosesInTime()
    {
      hide IsToken, EndOfHeader, StartBody;
      assert body + "" == body;
      count' := count;
      match state
      case ChunkDataDone =>
        if c != LF {
          errno := Strict;
        } else {
          count' := 0;
          state := ChunkSizeStart;
        }
      case HeaderFieldStart =>
        if c == CR {
          state := HeadersAlmostDone;
        } else if c == LF {
          state := HeadersAlmostDone;
          count' := EndHeader(count);
        } else if !IsToken(c) {
          errno := InvalidHeaderToken;
        } else {
          state := HeaderField;
          LeaveToHeader([c]);
        }
      case HeadersAlmostDone =>
        if c != LF {
          errno := Strict;
        } else {
          count' := EndHeader(count);
        }
      case HeadersDone =>
        if c != LF {
          errno := Strict;
        } else {
          count' := BeginBody(count);
        }
      case MessageDone =>
        OnMessageComplete();
    }

    /** What the states of the header are given to read. */
    method LeaveToHeader(data: string)
      modifies this`rest
      ensures rest == old(rest) + data
    {
      rest := rest + data;
    }

    /** The byte behind the data of a chunk: the marked part of the body is delivered. */
    method ChunkEndByte(c: char, ghost count: nat, marked: Option<string>, ghost pending: string)
        returns (ghost pending': string)
      requires errno == Okay && state == ChunkDataAlmostDone && pending == if marked.Some? then marked.value else ""
      modifies this`state, this`errno, this`body
      ensures Running(count, pending') == Act(old(Running(count, pending)), c) && state != StartReq
      ensures pending' == if errno == Okay then "" else pending
    {
      if c != CR {
        errno := Strict;
        return pending;
      }
      state := ChunkDataDone;
      if marked.Some? {
        OnBody(marked.value);
      }
      assert old(body) + "" == old(body);
      return "";
    }

    /** Passes the bytes of a body as far as the buffer or the body goes. */
    method ReadData(data: string, p: nat, mark: Option<nat>, ghost count: nat, ghost m: Machine)
        returns (next: nat, mark': Option<nat>)
      requires p < |data| && (mark.Some? ==> mark.value <= p) && m == Running(count, Marked(data, mark, p))
      requires (m.state == ChunkData || m.state == BodyIdentity) && 0 < m.contentLength < NO_LENGTH && m.errno == Okay
      requires !messageComplete && !closeConnection
      modifies this`state, this`contentLength, this`body, this`handed, this`messageComplete, this`closeConnection
      ensures p < next <= |data| && (mark'.Some? ==> mark'.value <= p)
      ensures Running(count, Marked(data, mark', next)) == Steps(m, data[p..next]) && !messageComplete && ClosesInTime()
    {
      if contentLength <= |data| - p {
        next := p + contentLength;
        mark' := FinishData(data, p, mark, next, count, m);
        return;
      }
      mark' := PartData(data, p, mark, count, m);
      return |data|, mark';
    }

    /** Passes the rest of a buffer, which does not hold the rest of the body. */
    method PartData(data: string, p: nat, mark: Option<nat>, ghost count: nat, ghost m: Machine)
        returns (mark': Option<nat>)
      requires p < |data| && (mark.Some? ==> mark.value <= p) && m == Running(count, Marked(data, mark, p))
      requires (m.state == ChunkData || m.state == BodyIdentity) && |data| - p < m.contentLength < NO_LENGTH
               && m.errno == Okay
      modifies this`contentLength
      ensures mark'.Some? && mark'.value <= p
      ensures Running(count, Marked(data, mark', |data|)) == Steps(m, data[p..|data|])
    {
      DataReads(m, data[p..|data|]);
      MarkedGrows(data, mark, p, |data|);
      hide Steps, Marked;
      contentLength := contentLength - (|data| - p);
      return Some(if mark.None? then p else mark.value);
    }

    /** Passes the rest of a body that the buffer holds. */
    method FinishData(data: string, p: nat, mark: Option<nat>, next: nat, ghost count: nat, ghost m: Machine)
        returns (mark': Option<nat>)
      requires p < next <= |data| && (mark.Some? ==> mark.value <= p) && m == Running(count, Marked(data, mark, p))
      requires (m.state == ChunkData || m.state == BodyIdentity) && next == p + m.contentLength && m.errno == Okay
      requires m.contentLength < NO_LENGTH && !messageComplete && !closeConnection
      modifies this`state, this`contentLength, this`body, this`handed, this`messageComplete, this`closeConnection
      ensures mark'.Some? ==> mark'.value <= p
      ensures Running(count, Marked(data, mark', next)) == Steps(m, data[p..next]) && !messageComplete && ClosesInTime()
    {
      var start := if mark.None? then p else mark.value;
      DataEnds(m, data[p..next]);
      MarkedGrows(data, mark, p, next);
      hide Steps, Marked;
      if state == ChunkData {
        contentLength := 0;
        state := ChunkDataAlmostDone;
        return Some(start);
      }
      FinishBody(data[start..next]);
      return None;
    }

    /** The last byte of a body of known length delivers it and ends the message. */
    method FinishBody(piece: string)
      modifies this`state, this`contentLength, this`body, this`handed, this`messageComplete, this`closeConnection
      ensures state == StartReq && contentLength == 0 && body == "" && handed == old(handed) + [old(body) + piece]
      ensures !messageComplete && ClosesInTime()
    {
      contentLength := 0;
      state := MessageDone;
      OnBody(piece);
      OnMessageComplete();
    }

    /** Acts on a byte outside the data of a body. */
    method ReadControl(c: char, count: nat) returns (count': nat)
      requires errno == Okay && !messageComplete && !closeConnection && !Leaves(state)
      requires state != ChunkData && state != BodyIdentity && state != ChunkDataAlmostDone
      modifies this`state, this`contentLength, this`trailing, this`errno, this`body, this`handed, this`rest,
          this`messageComplete, this`closeConnection
      ensures Running(count', "") == Step(old(Running(count, "")), c) && !messageComplete && ClosesInTime()
    {
      StepActs(Running(count, ""), c);
      hide Act, Step;
      count' := count;
      if InHeader(state) {
        count' := count' + 1;
        if count' > MAX_HEADER_SIZE {
          errno := HeaderOverflow;
          return;
        }
      }
      if state == ChunkSizeStart || state == ChunkSize || state == ChunkParameters || state == ChunkSizeAlmostDone {
        count' := SizeLineByte(c, count', "");
      } else {
        count' := ControlByte(c, count');
      }
    }

    /** Acts on the byte at `p`, or on a stride of bytes from there. */
    method Advance(data: string, p: nat, mark: Option<nat>, count: nat)
        returns (next: nat, mark': Option<nat>, count': nat)
      requires p < |data| && (mark.Some? ==> mark.value < p) && errno == Okay && !Leaves(state)
      requires Inv(Running(count, Marked(data, mark, p))) && !messageComplete && ClosesInTime()
      modifies this`state, this`contentLength, this`trailing, this`errno, this`body, this`handed, this`rest,
          this`messageComplete, this`closeConnection
      ensures p < next <= |data| && (mark'.Some? ==> mark'.value <= p) && !messageComplete && ClosesInTime()
      ensures Running(count', Marked(data, mark', if errno == Okay then next else p))
           == Steps(old(Running(count, Marked(data, mark, p))), data[p..next])
      ensures errno != Okay ==> next == p + 1
    {
      ghost var m := Running(count, Marked(data, mark, p));
      MarkInData(m, data, mark, p);
      OneStep(m, data[p]);
      assert data[p..p + 1] == [data[p]];
      StepAtChunkEnd(m, data[p]);
      hide Steps, Step, Act, Inv;
      count' := count;
      if state == ChunkData || state == BodyIdentity {
        next, mark' := ReadData(data, p, mark, count, m);
        return;
      }
      next := p + 1;
      if state != ChunkDataAlmostDone {
        mark' := None;
        count' := ReadControl(data[p], count);
        return;
      }
      ghost var pending := ChunkEndByte(data[p], count, if mark.None? then None else Some(data[mark.value..p]),
          Marked(data, mark, p));
      mark' := if errno == Okay then None else mark;
    }

    /** Parses one buffer. An empty buffer announces the end of the stream. Returns how many bytes were taken, those
        that are left to the header among them. */
    method Execute(data: string) returns (n: nat)
      requires Valid() && !messageComplete
      modifies this
      ensures Valid() && !messageComplete
      ensures At() == HttpBody.Execute(old(At()), data)
      ensures n == if old(errno) != Okay then 0
                   else if data == "" then if old(state) == StartReq then 0 else 1
                   else Consumed(old(At()), data)
      ensures old(errno) == Okay ==> (errno == Okay <==> n == |data|)
    {
      if errno != Okay {
        return 0;
      }
      if |data| == 0 {
        if state == StartReq {
          return 0;
        }
        errno := InvalidEofState;
        return 1;
      }
      ghost var m := At();
      var p, mark, count := Scan(data);
      nread := count;
      if errno != Okay {
        lost := Marked(data, mark, p);
        return p;
      }
      NeverFails(m, data);
      hide Steps, Inv, Consumed;
      FlushMark(data, mark);
      return |data|;
    }

    /** What the connection does with a buffer that it has read: nothing while a complete message waits for its answer;
        and it reports whether all of the buffer was taken. */
    method Feed(data: string) returns (ok: bool)
      requires Valid()
      modifies this
      ensures Valid() && messageComplete == old(messageComplete)
      ensures At() == if old(messageComplete) then old(At()) else HttpBody.Execute(old(At()), data)
      ensures ok == (old(messageComplete) || errno == Okay)
    {
      if messageComplete {
        return true;
      }
      var n := Execute(data);
      return errno == Okay && n == |data|;
    }

    /** The connection reads one buffer after another, until the parser fails, or the connection is to be closed. */
    method ReadAll(bufs: seq<string>)
      requires Valid() && errno == Okay && !closeConnection && !messageComplete
      modifies this
      ensures Valid() && At() == ReadEach(old(At()), bufs)
    {
      hide HttpBody.Execute, ReadEach, Ready;
      ghost var m := At();
      assert bufs[0..] == bufs;
      for i := 0 to |bufs|
        invariant Valid() && errno == Okay && !closeConnection && !messageComplete
        invariant ReadEach(At(), bufs[i..]) == ReadEach(m, bufs)
      {
        ReadNext(At(), bufs, i);
        var ok := Feed(bufs[i]);
        if !ok || closeConnection {
          ReadStops(At(), bufs[i + 1..]);
          return;
        }
      }
      ReadNext(At(), bufs, |bufs|);
    }

    /** The loop over the bytes of a buffer. */
    method Scan(data: string) returns (p: nat, mark: Option<nat>, count: nat)
      requires Valid() && errno == Okay && !messageComplete
      modifies this`state, this`contentLength, this`trailing, this`errno, this`body, this`handed, this`rest,
          this`messageComplete, this`closeConnection
      ensures p <= |data| && (mark.Some? ==> mark.value <= p) && !messageComplete && ClosesInTime()
      ensures Running(count, Marked(data, mark, p)) == Steps(old(At()), data)
      ensures p == Consumed(old(At()), data)
      ensures if errno == Okay then p == |data| && Inv(Steps(old(At()), data)) else p < |data|
    {
      ghost var m := At();
      p, mark, count := 0, None, nread;
      StepsNothing(m);
      assert data[..0] == "";
      while p < |data| && !Leaves(state)
        invariant p <= |data| && (mark.Some? ==> mark.value < p)
        invariant errno == Okay && !messageComplete && ClosesInTime()
        invariant Running(count, Marked(data, mark, p)) == Steps(m, data[..p])
        invariant Inv(Running(count, Marked(data, mark, p)))
        decreases |data| - p
      {
        hide Steps, Inv, Consumed, Marked;
        var next;
        next, mark, count := Advance(data, p, mark, count);
        RunOn(m, data, p, next);
        if errno != Okay {
          FailsAt(m, data, p);
          return;
        }
        StepsKeep(m, data[..next]);
        p := next;
      }
      assert data[..|data|] == data;
      if p < |data| {
        MarkInData(Running(count, Marked(data, mark, p)), data, mark, p);
        RestReads(Running(count, Marked(data, mark, p)), data[p..|data|]);
        RunOn(m, data, p, |data|);
        hide Steps, Consumed;
        LeaveToHeader(data[p..|data|]);
        p := |data|;
      }
      NeverFails(m, data);
    }

    /** At the end of a buffer, delivers what is marked. */
    method FlushMark(data: string, mark: Option<nat>)
      requires mark.Some? ==> mark.value <= |data|
      modifies this`body
      ensures body == old(body) + Marked(data, mark, |data|)
    {
      if mark.Some? {
        OnBody(data[mark.value..]);
        assert data[mark.value..] == data[mark.value..|data|];
      } else {
        assert body + "" == body;
      }
    }
  }

  lemma RunOn(m: Machine, data: string, p: nat, next: nat)
    requires p <= next <= |data|
    ensures Steps(m, data[..next]) == Steps(Steps(m, data[..p]), data[p..next])
  {
    hide Steps;
    StepsAppend(m, data[..p], data[p..next]);
    assert data[..p] + data[p..next] == data[..next];
  }

  /** A run that fails on the byte at `p` takes the bytes before it, and stays as it is. */
  lemma {:induction false} FailsAt(m: Machine, data: string, p: nat)
    requires p < |data| && Steps(m, data[..p]).errno == Okay && Steps(m, data[..p + 1]).errno != Okay && m.errno == Okay
    ensures Consumed(m, data) == p && Steps(m, data) == Steps(m, data[..p + 1])
    decreases p
  {
    hide Step;
    var d1 := data[..p + 1];
    StepsByByte(m, d1);
    StepsByByte(m, data);
    assert data == d1 + data[p + 1..];
    StepsAppend(m, d1, data[p + 1..]);
    StepsFail(Steps(m, d1), data[p + 1..]);
    if p > 0 {
      StepsFail(m, data[..p]);
      assert data[..p][1..] == data[1..][..p - 1] && d1[1..] == data[1..][..p];
      FailsAt(Step(m, data[0]), data[1..], p - 1);
    } else {
      assert d1[1..] == "";
    }
  }

  lemma {:induction false} NeverFails(m: Machine, data: string)
    requires m.errno == Okay && Steps(m, data).errno == Okay
    ensures Consumed(m, data) == |data|
    decreases |data|
  {
    hide Step;
    if data != "" {
      StepsFail(m, data);
      NeverFails(Step(m, data[0]), data[1..]);
    }
  }

  /** Outside the data of a body there is no mark. */
  lemma MarkInData(m: Machine, data: string, mark: Option<nat>, p: nat)
    requires Inv(m) && p < |data| && (mark.Some? ==> mark.value < p) && m.pending == Marked(data, mark, p)
    ensures mark.Some? ==> m.state in {ChunkData, ChunkDataAlmostDone, BodyIdentity}
    ensures m.state == ChunkData || m.state == BodyIdentity ==> 0 < m.contentLength < NO_LENGTH
  {
    assert mark.Some? ==> |Marked(data, mark, p)| > 0;
  }

  lemma StepAtChunkEnd(m: Machine, c: char)
    ensures m.state == ChunkDataAlmostDone ==> Step(m, c) == Act(m, c)
  {
    hide Act;
  }

  /** The part of a buffer from a mark to a position. */
  function Marked(data: string, mark: Option<nat>, p: nat): string
    requires p <= |data| && (mark.Some? ==> mark.value <= p)
  {
    if mark.None? then "" else data[mark.value..p]
  }

  lemma MarkedGrows(data: string, mark: Option<nat>, p: nat, next: nat)
    requires p <= next <= |data| && (mark.Some? ==> mark.value <= p)
    ensures var start := if mark.None? then p else mark.value;
            Marked(data, Some(start), next) == data[start..next] == Marked(data, mark, p) + data[p..next]
    ensures Marked(data, None, next) == ""
  {
  }

  // ---------- the connection ----------

  /** No buffer is read behind an error, or when the connection is to be closed. */
  predicate Stops(m: Machine) {
    m.errno != Okay || (m.state == StartReq && m.head.closes)
  }

  function ReadEach(m: Machine, bufs: seq<string>): Machine
    decreases |bufs|
  {
    if bufs == [] || Stops(m) then m else ReadEach(HttpBody.Execute(m, bufs[0]), bufs[1..])
  }

  lemma ReadNext(m: Machine, bufs: seq<string>, i: nat)
    requires i <= |bufs| && !Stops(m)
    ensures i < |bufs| ==> ReadEach(m, bufs[i..]) == ReadEach(HttpBody.Execute(m, bufs[i]), bufs[i + 1..])
    ensures i == |bufs| ==> ReadEach(m, bufs[i..]) == m
  {
    assert i < |bufs| ==> bufs[i..][1..] == bufs[i + 1..];
    hide HttpBody.Execute;
  }

  lemma ReadStops(m: Machine, bufs: seq<string>)
    requires Stops(m)
    ensures ReadEach(m, bufs) == m
  {
  }

  // ---------- where the message is complete ----------

  /** What a byte does outside the states of the header. */
  lemma StepOutside(m: Machine, c: char)
    requires m.errno == Okay && Inv(m) && !Leaves(m.state)
    ensures Step(m, c).head == m.head
    ensures Step(m, c).state == StartReq ==> Step(m, c).errno == Okay && Step(m, c).rest == m.rest
    ensures Step(m, c).state == StartReq ==> |Step(m, c).handed| == |m.handed| + 1 && m.handed <= Step(m, c).handed
    ensures !Leaves(Step(m, c).state) ==> Step(m, c).rest == m.rest && Step(m, c).handed == m.handed
  {
    if Unhex(c) != -1 {
      SizeDigitFrame(m.(nread := m.nread + 1), Unhex(c));
    }
    StepActs(m, c);
    hide Unhex, IsToken, SizeDigit, Step;
  }

  /** Where a header is parsed again, the message neither goes on nor ends. */
  lemma StaysOutside(m: Machine, d: string)
    requires m.errno == Okay && Leaves(m.state)
    ensures Steps(m, d) == m.(rest := m.rest + d)
  {
    RestReads(m, d);
  }

  /** The message is complete with the byte in front of position `n`. */
  ghost predicate CompletesAt(m: Machine, d: string, n: nat) {
    && n <= |d| && Steps(m, d[..n]).state == StartReq
    && forall k: nat :: k < n ==> Steps(m, d[..k]).state != StartReq
  }

  /** The same, from the next byte on. */
  lemma CompletesNext(m: Machine, d: string, n: nat)
    requires m.errno == Okay && m.state != StartReq && d != "" && Step(m, d[0]).errno == Okay
    ensures CompletesAt(m, d, n) <==> n > 0 && CompletesAt(Step(m, d[0]), d[1..], n - 1)
  {
    hide Step;
    assert Steps(m, d[..0]) == m;
    forall k: nat | 0 < k <= |d| ensures Steps(m, d[..k]) == Steps(Step(m, d[0]), d[1..][..k - 1]) {
      assert d[..k][0] == d[0] && d[..k][1..] == d[1..][..k - 1];
    }
    hide Steps;
    if n > 0 && CompletesAt(Step(m, d[0]), d[1..], n - 1) {
      forall k: nat | k < n ensures Steps(m, d[..k]).state != StartReq {
      }
    }
    if CompletesAt(m, d, n) {
      forall k: nat | k < n - 1 ensures Steps(Step(m, d[0]), d[1..][..k]).state != StartReq {
        assert Steps(m, d[..k + 1]).state != StartReq;
      }
    }
  }

  lemma StepsAtStart(m: Machine, d: string)
    ensures Steps(m, d[..0]) == m
  {
  }

  /** When the message completes, its body is handed over, once, and what follows is left. */
  lemma {:induction false} HandsOver(m: Machine, d: string, n: nat)
    requires Inv(m) && m.errno == Okay && !Leaves(m.state) && CompletesAt(m, d, n)
    ensures var done := Steps(m, d[..n]);
            && n > 0 && done.errno == Okay && done.rest == m.rest && done.head == m.head
            && |done.handed| == |m.handed| + 1 && m.handed <= done.handed
            && Steps(m, d) == done.(rest := m.rest + d[n..])
    decreases |d|
  {
    hide Step, Steps, Inv, CompletesAt;
    StepsAtStart(m, d);
    FirstByte(m, d, n);
    var next := Step(m, d[0]);
    StepOutside(m, d[0]);
    StepsSplit(m, d, n);
    if next.state == StartReq {
      OneByteCompletes(m, d, n);
      StaysOutside(next, d[1..]);
      OneStep(m, d[0]);
      assert d[..1] == [d[0]];
    } else {
      StepKeeps(m, d[0]);
      CompletesNext(m, d, n);
      NeverFromField(next, d[1..], n - 1);
      HandsOver(next, d[1..], n - 1);
      assert d[1..][n - 1..] == d[n..];
    }
  }

  /** A message that completes does so behind its first byte, which does not fail. */
  lemma FirstByte(m: Machine, d: string, n: nat)
    requires m.errno == Okay && m.state != StartReq && CompletesAt(m, d, n)
    requires Inv(m) && !Leaves(m.state)
    ensures 0 < n <= |d| && Step(m, d[0]).errno == Okay
  {
    StepsAtStart(m, d);
    if n > 0 {
      assert d[..n][0] == d[0];
      StepsByByte(m, d[..n]);
      StepsFail(Step(m, d[0]), d[..n][1..]);
      StepOutside(m, d[0]);
      hide Step, Steps, Inv;
    }
  }

  lemma StepsSplit(m: Machine, d: string, n: nat)
    requires m.errno == Okay && 0 < n <= |d|
    ensures Steps(m, d) == Steps(Step(m, d[0]), d[1..]) && Steps(m, d[..n]) == Steps(Step(m, d[0]), d[1..][..n - 1])
  {
    hide Step;
    assert d[..n][0] == d[0] && d[..n][1..] == d[1..][..n - 1];
  }

  lemma OneByteCompletes(m: Machine, d: string, n: nat)
    requires m.errno == Okay && n > 0 && CompletesAt(m, d, n) && Step(m, d[0]).state == StartReq
    ensures n == 1
  {
    OneStep(m, d[0]);
    assert d[..1] == [d[0]];
    hide Step, Steps;
  }

  lemma NeverFromField(m: Machine, d: string, n: nat)
    requires m.errno == Okay && m.state != StartReq && CompletesAt(m, d, n)
    ensures !Leaves(m.state)
  {
    if m.state == HeaderField {
      StaysOutside(m, d[..n]);
    }
    hide Steps;
  }

  /** Where a message is complete, it stays complete. */
  lemma {:induction false} FindCompletion(m: Machine, d: string) returns (n: nat)
    requires Inv(m) && m.errno == Okay && !Leaves(m.state) && Steps(m, d).state == StartReq
    ensures CompletesAt(m, d, n)
    decreases |d|
  {
    hide Step, Inv;
    StepsNothing(m);
    StepOutside(m, d[0]);
    StepsByByte(m, d);
    StepsFail(Step(m, d[0]), d[1..]);
    var next := Step(m, d[0]);
    if next.state == StartReq {
      AtFirstByte(m, d);
      n := 1;
    } else {
      if next.state == HeaderField {
        StaysOutside(next, d[1..]);
      }
      StepKeeps(m, d[0]);
      hide Steps, CompletesAt;
      var k := FindCompletion(next, d[1..]);
      CompletesNext(m, d, k + 1);
      n := k + 1;
    }
  }

  lemma AtFirstByte(m: Machine, d: string)
    requires m.errno == Okay && m.state != StartReq && d != "" && Step(m, d[0]).state == StartReq
    ensures CompletesAt(m, d, 1)
  {
    hide Step;
    OneStep(m, d[0]);
    assert d[..1] == [d[0]];
    StepsAtStart(m, d);
    hide Steps;
    forall k: nat | k < 1 ensures Steps(m, d[..k]).state != StartReq {
      assert k == 0;
    }
  }

  // ---------- cutting the stream of a connection ----------

  /** What a connection reads behind the first `n` bytes: everything, or if it is to be closed there, what the buffer in
      which they end still holds. */
  function LeftBehind(closes: bool, bufs: seq<string>, n: nat): string
    decreases |bufs|
  {
    if bufs == [] then ""
    else if n <= |bufs[0]| then bufs[0][n..] + if closes then "" else Concat(bufs[1..])
    else LeftBehind(closes, bufs[1..], n - |bufs[0]|)
  }

  lemma {:induction false} AllLeft(bufs: seq<string>, n: nat)
    requires n <= |Concat(bufs)|
    ensures LeftBehind(false, bufs, n) == Concat(bufs)[n..]
    decreases |bufs|
  {
    if bufs != [] {
      var a, rest := bufs[0], bufs[1..];
      if n <= |a| {
        assert (a + Concat(rest))[n..] == a[n..] + Concat(rest);
      } else {
        AllLeft(rest, n - |a|);
        assert (a + Concat(rest))[n..] == Concat(rest)[n - |a|..];
      }
    }
  }

  /** Behind a complete message an open connection reads on. */
  lemma {:induction false} ReadsOn(m: Machine, bufs: seq<string>)
    requires m.errno == Okay && m.state == StartReq && !m.head.closes && m.pending == "" && NoneEmpty(bufs)
    ensures ReadEach(m, bufs) == m.(rest := m.rest + Concat(bufs))
    decreases |bufs|
  {
    if bufs == [] {
      assert m.rest + "" == m.rest;
    } else {
      var next := HttpBody.Execute(m, bufs[0]);
      RestReads(m, bufs[0]);
      assert m.body + "" == m.body;
      assert next == m.(rest := m.rest + bufs[0]);
      hide HttpBody.Execute, Steps;
      ReadsOn(next, bufs[1..]);
      assert (m.rest + bufs[0]) + Concat(bufs[1..]) == m.rest + Concat(bufs);
    }
  }

  /** The completion lies in the first buffer. */
  lemma CompletesHere(m: Machine, a: string, b: string, n: nat)
    requires Ready(m) && !Leaves(m.state) && CompletesAt(m, a + b, n) && n <= |a|
    ensures var r, done := HttpBody.Execute(m, a), Steps(m, (a + b)[..n]);
            && r.errno == Okay && r.state == StartReq && r.head == m.head && r.pending == ""
            && SameRun(r, done.(rest := m.rest + a[n..]))
  {
    assert (a + b)[..n] == a[..n];
    hide Steps, CompletesAt, Inv;
    CompletesIn(m, a, b, n);
    HandsOver(m, a, n);
    RunIsWhole(m, a);
  }

  lemma CompletesIn(m: Machine, a: string, b: string, n: nat)
    requires n <= |a|
    ensures CompletesAt(m, a + b, n) ==> CompletesAt(m, a, n)
  {
    assert forall k: nat :: k <= n ==> (a + b)[..k] == a[..k];
    hide Steps;
  }

  lemma RunIsWhole(m: Machine, a: string)
    requires Steps(m, a).errno == Okay && m.errno == Okay && a != ""
    ensures SameRun(HttpBody.Execute(m, a), Steps(m, a)) && HttpBody.Execute(m, a).errno == Okay
    ensures HttpBody.Execute(m, a).pending == ""
    ensures HttpBody.Execute(m, a).state == Steps(m, a).state && HttpBody.Execute(m, a).head == Steps(m, a).head
  {
    ExecuteRuns(m, a);
    hide Steps;
  }

  /** Before the message completes, nothing fails and nothing is left. */
  lemma {:induction false} BeforeCompletion(m: Machine, d: string, k: nat, n: nat)
    requires Inv(m) && m.errno == Okay && !Leaves(m.state) && k < n && CompletesAt(m, d, n)
    ensures k <= |d| && var r := Steps(m, d[..k]);
            r.errno == Okay && !Leaves(r.state) && r.rest == m.rest && r.head == m.head
    decreases k
  {
    hide Step, Steps, Inv, CompletesAt;
    FirstByte(m, d, n);
    StepsAtStart(m, d);
    if k > 0 {
      var next := Step(m, d[0]);
      StepOutside(m, d[0]);
      CompletesNext(m, d, n);
      if next.state == StartReq {
        OneByteCompletes(m, d, n);
      } else {
        StepKeeps(m, d[0]);
        NeverFromField(next, d[1..], n - 1);
        BeforeCompletion(next, d[1..], k - 1, n - 1);
        StepsSplit(m, d, k);
      }
    }
  }

  /** The completion lies behind the first buffer. */
  lemma CompletesLater(m: Machine, a: string, b: string, n: nat)
    requires Ready(m) && !Leaves(m.state) && CompletesAt(m, a + b, n) && |a| < n && a != ""
    ensures var next := HttpBody.Execute(m, a);
            && Ready(next) && !Leaves(next.state) && next.rest == m.rest && next.head == m.head
            && CompletesAt(next, b, n - |a|)
            && SameRun(Steps(next, b[..n - |a|]), Steps(m, (a + b)[..n]))
  {
    var next := HttpBody.Execute(m, a);
    assert n <= |a + b|;
    assert (a + b)[..|a|] == a;
    hide Inv;
    BeforeCompletion(m, a + b, |a|, n);
    RunIsWhole(m, a);
    FeedKeeps(m, a);
    forall k: nat | k <= |b| ensures SameRun(Steps(next, b[..k]), Steps(m, (a + b)[..|a| + k])) {
      assert (a + b)[..|a| + k] == a + b[..k];
      StepsAppend(m, a, b[..k]);
      SameRunSteps(next, Steps(m, a), b[..k]);
      hide *;
    }
    SameStates(next, m, a, b, n);
    hide Steps;
    WholeFields(next, Steps(m, a));
  }

  lemma SameStates(next: Machine, m: Machine, a: string, b: string, n: nat)
    requires |a| < n && CompletesAt(m, a + b, n)
    requires forall k: nat :: k <= |b| ==> SameRun(Steps(next, b[..k]), Steps(m, (a + b)[..|a| + k]))
    ensures CompletesAt(next, b, n - |a|)
  {
    hide Steps, SameRun;
    forall k: nat | k <= n - |a| ensures Steps(next, b[..k]).state == Steps(m, (a + b)[..|a| + k]).state {
      WholeFields(Steps(next, b[..k]), Steps(m, (a + b)[..|a| + k]));
    }
  }

  lemma WholeFields(m: Machine, n: Machine)
    requires SameRun(m, n)
    ensures m.state == n.state && m.errno == n.errno && m.rest == n.rest && m.head == n.head && m.handed == n.handed
    ensures Read(m) == Read(n)
  {
    assert Whole(m).state == Whole(n).state && Whole(m).errno == Whole(n).errno && Whole(m).rest == Whole(n).rest;
    assert Whole(m).head == Whole(n).head && Whole(m).handed == Whole(n).handed && Whole(m).body == Whole(n).body;
  }

  lemma SameRest(m: Machine, n: Machine, rest: string)
    requires SameRun(m, n)
    ensures SameRun(m.(rest := rest), n.(rest := rest))
  {
    assert Whole(m.(rest := rest)) == Whole(m).(rest := rest) && Whole(n.(rest := rest)) == Whole(n).(rest := rest);
  }

  /** However its stream is cut, a connection hands over the same request, and leaves to the next one what is behind it:
      the whole of it on a connection that stays open, and what the same buffer holds on one that is to be closed. */
  lemma {:induction false} ReadsToCompletion(m: Machine, bufs: seq<string>, n: nat)
    requires Ready(m) && !Leaves(m.state) && NoneEmpty(bufs) && CompletesAt(m, Concat(bufs), n)
    ensures n <= |Concat(bufs)| && ReadEach(m, bufs).pending == ""
    ensures SameRun(ReadEach(m, bufs),
            Steps(m, Concat(bufs)[..n]).(rest := m.rest + LeftBehind(m.head.closes, bufs, n)))
    decreases |bufs|
  {
    hide Steps, Inv, HttpBody.Execute, SameRun, CompletesAt;
    FirstByte(m, Concat(bufs), n);
    var a, rest := bufs[0], bufs[1..];
    var b := Concat(rest);
    if n <= |a| {
      CompletesHere(m, a, b, n);
      HandsOver(m, a + b, n);
      var r, done := HttpBody.Execute(m, a), Steps(m, (a + b)[..n]);
      WholeFields(r, done.(rest := m.rest + a[n..]));
      if m.head.closes {
        ReadStops(r, rest);
        assert a[n..] + "" == a[n..];
      } else {
        ReadsOn(r, rest);
        assert (m.rest + a[n..]) + b == m.rest + (a[n..] + b);
        SameRest(r, done.(rest := m.rest + a[n..]), m.rest + (a[n..] + b));
      }
    } else {
      CompletesLater(m, a, b, n);
      var next := HttpBody.Execute(m, a);
      ReadsToCompletion(next, rest, n - |a|);
      var left := m.rest + LeftBehind(m.head.closes, bufs, n);
      SameRest(Steps(next, b[..n - |a|]), Steps(m, (a + b)[..n]), left);
      SameRunMeets(ReadEach(next, rest), Steps(next, b[..n - |a|]).(rest := left),
          Steps(m, (a + b)[..n]).(rest := left));
    }
  }

  lemma SameRunMeets(m: Machine, n: Machine, k: Machine)
    requires SameRun(m, n) && SameRun(n, k)
    ensures SameRun(m, k) && SameRun(k, m)
  {
  }

  /** A stream that completes its message with its last byte at the earliest is read to its end, so that what is said
      about the parser's calls holds of the connection. */
  lemma {:induction false} FeedPassesAll(m: Machine, bufs: seq<string>)
    requires Ready(m) && !Leaves(m.state) && NoneEmpty(bufs) && bufs != []
    requires var d := Concat(bufs); d != "" && Steps(m, d[..|d| - 1]).state != StartReq
    ensures ReadEach(m, bufs) == HttpBody.Feed(m, bufs)
    decreases |bufs|
  {
    hide Steps, Inv, HttpBody.Execute, SameRun;
    var d, a, rest := Concat(bufs), bufs[0], bufs[1..];
    var next := HttpBody.Execute(m, a);
    if rest == [] {
      OneBufferRead(m, a);
      assert bufs == [a];
    } else {
      var b := Concat(rest);
      assert rest[0] != "" && b != "" && d[..|d| - 1] == a + b[..|b| - 1];
      PassedOn(m, a, b[..|b| - 1]);
      if next.errno != Okay {
        FeedAfterError(next, rest);
        ReadStops(next, rest);
      } else {
        FeedKeeps(m, a);
        if next.state == HeaderField {
          ReadsField(next, rest);
        } else {
          FeedPassesAll(next, rest);
        }
      }
    }
  }

  lemma OneBufferRead(m: Machine, a: string)
    requires Ready(m) && m.state != StartReq
    ensures ReadEach(m, [a]) == HttpBody.Execute(m, a) == HttpBody.Feed(m, [a])
  {
    hide HttpBody.Execute;
    assert [a][1..] == [];
    assert ReadEach(HttpBody.Execute(m, a), []) == HttpBody.Execute(m, a);
    assert HttpBody.Feed(HttpBody.Execute(m, a), []) == HttpBody.Execute(m, a);
  }

  /** If the message is not complete behind `a + b`, it is not complete behind `a`, and goes on from there. */
  lemma PassedOn(m: Machine, a: string, b: string)
    requires Ready(m) && a != "" && Steps(m, a + b).state != StartReq
    ensures HttpBody.Execute(m, a).state != StartReq || HttpBody.Execute(m, a).errno != Okay
    ensures Steps(HttpBody.Execute(m, a), b).state != StartReq
  {
    var next := HttpBody.Execute(m, a);
    ExecuteRuns(m, a);
    StepsAppend(m, a, b);
    SameRunSteps(next, Steps(m, a), b);
    hide Steps, SameRun;
    WholeFields(Steps(next, b), Steps(m, a + b));
    if next.state == StartReq && next.errno == Okay {
      StaysOutside(next, b);
    }
  }

  /** In a trailer field, the connection reads on. */
  lemma {:induction false} ReadsField(m: Machine, bufs: seq<string>)
    requires Ready(m) && m.state == HeaderField && NoneEmpty(bufs)
    ensures ReadEach(m, bufs) == HttpBody.Feed(m, bufs)
    decreases |bufs|
  {
    if bufs != [] {
      RestReads(m, bufs[0]);
      FeedKeeps(m, bufs[0]);
      var next := HttpBody.Execute(m, bufs[0]);
      assert next.state == HeaderField && next.errno == Okay;
      hide HttpBody.Execute, Steps, Inv;
      ReadsField(next, bufs[1..]);
    }
  }

  /** What a connection ends with is the same for every way of cutting its stream exactly if it stays open, or the
      message is not complete before the last byte: what stands behind a message on a connection that is to be closed
      is read only as far as the buffer goes. */
  lemma CutsMatterBehind(m: Machine, d: string)
    requires Ready(m) && !Leaves(m.state) && d != ""
    ensures (forall bufs: seq<string> :: NoneEmpty(bufs) && Concat(bufs) == d ==>
            SameRun(ReadEach(m, bufs), ReadEach(m, [d])))
       <==> !m.head.closes || Steps(m, d[..|d| - 1]).state != StartReq
  {
    hide Steps, Inv, ReadEach, Concat, NoneEmpty, SameRun, CompletesAt, HttpBody.Execute;
    if !m.head.closes || Steps(m, d[..|d| - 1]).state != StartReq {
      forall bufs: seq<string> | NoneEmpty(bufs) && Concat(bufs) == d
          ensures SameRun(ReadEach(m, bufs), ReadEach(m, [d])) {
        OneBuffer(m, d);
        ReadsWhole(m, bufs, d);
        ReadsWhole(m, [d], d);
        SameRunMeets(ReadEach(m, [d]), Steps(m, d), Steps(m, d));
        SameRunMeets(ReadEach(m, bufs), Steps(m, d), ReadEach(m, [d]));
      }
    } else {
      CutBehind(m, d);
    }
  }

  lemma ReadsWhole(m: Machine, bufs: seq<string>, d: string)
    requires Ready(m) && !Leaves(m.state) && NoneEmpty(bufs) && Concat(bufs) == d != ""
    requires !m.head.closes || Steps(m, d[..|d| - 1]).state != StartReq
    ensures SameRun(ReadEach(m, bufs), Steps(m, d))
  {
    assert bufs != [];
    hide Steps, Inv, ReadEach, Concat, NoneEmpty, SameRun, CompletesAt, HttpBody.Execute;
    if Steps(m, d[..|d| - 1]).state != StartReq {
      FeedPassesAll(m, bufs);
      CutsAgree(m, bufs);
    } else {
      var n := FindCompletion(m, d[..|d| - 1]);
      assert d == d[..|d| - 1] + [d[|d| - 1]];
      CompletesOut(m, d[..|d| - 1], [d[|d| - 1]], n);
      HandsOver(m, d, n);
      AllLeft(bufs, n);
      ReadsToCompletion(m, bufs, n);
    }
  }

  lemma CompletesOut(m: Machine, a: string, b: string, n: nat)
    requires CompletesAt(m, a, n)
    ensures n <= |a| && CompletesAt(m, a + b, n)
  {
    assert forall k: nat :: k <= n ==> (a + b)[..k] == a[..k];
    hide Steps;
  }

  /** On a connection that is to be closed, cutting right behind the message makes a difference. */
  lemma CutBehind(m: Machine, d: string)
    requires Ready(m) && !Leaves(m.state) && d != "" && m.head.closes && Steps(m, d[..|d| - 1]).state == StartReq
    ensures exists bufs: seq<string> ::
              NoneEmpty(bufs) && Concat(bufs) == d && !SameRun(ReadEach(m, bufs), ReadEach(m, [d]))
  {
    hide Steps, Inv, ReadEach, SameRun, CompletesAt, HttpBody.Execute;
    var n := FindCompletion(m, d[..|d| - 1]);
    assert d == d[..|d| - 1] + [d[|d| - 1]];
    CompletesOut(m, d[..|d| - 1], [d[|d| - 1]], n);
    HandsOver(m, d, n);
    var a, b := d[..n], d[n..];
    TwoBuffers(a, b);
    assert a + b == d;
    OneBuffer(m, d);
    ReadsToCompletion(m, [a, b], n);
    ReadsToCompletion(m, [d], n);
    assert LeftBehind(true, [a, b], n) == "" && LeftBehind(true, [d], n) == b;
    LeavesApart(ReadEach(m, [a, b]), ReadEach(m, [d]), Steps(m, d[..n]), m.rest, b);
  }

  lemma LeavesApart(r: Machine, q: Machine, done: Machine, rest: string, b: string)
    requires SameRun(r, done.(rest := rest + "")) && SameRun(q, done.(rest := rest + b)) && b != ""
    ensures !SameRun(r, q)
  {
    WholeFields(r, done.(rest := rest + ""));
    WholeFields(q, done.(rest := rest + b));
    if SameRun(r, q) {
      WholeFields(r, q);
    }
    hide SameRun;
  }

  // ---------- what a connection receives ----------

  /** A chunked body completes its message with its last byte, not before. */
  lemma ChunkedCompletesLast(m: Machine, chunks: seq<Chunk>, last: Chunk, behind: string)
    requires Ready(m) && m.state == ChunkSizeStart && GoodChunks(chunks) && GoodChunk(last) && last.data == ""
    ensures CompletesAt(m, Chunked(chunks, last) + behind, |Chunked(chunks, last)|)
  {
    var d := Chunked(chunks, last);
    var front := ChunkTexts(chunks) + (SizeLine(last) + [CR]);
    assert d == front + [LF] && d[..|d| - 1] == front;
    ChunkedRuns(m, chunks, last);
    ChunkedFront(m, chunks, last);
    hide Steps, Chunked, Inv, GoodChunk, GoodChunks, CompletesAt;
    LastCompletes(m, d);
    CompletesOut(m, d, behind, |d|);
  }

  /** A message that is complete at the end of a stream, and not before its last byte. */
  lemma LastCompletes(m: Machine, d: string)
    requires Ready(m) && !Leaves(m.state) && d != ""
    requires Steps(m, d).state == StartReq && Steps(m, d[..|d| - 1]).state != StartReq
    ensures CompletesAt(m, d, |d|)
  {
    hide Steps, Inv;
    var n := FindCompletion(m, d);
    if n < |d| {
      assert d[..|d| - 1] == d[..n] + d[n..|d| - 1];
      HandsOver(m, d, n);
      StepsAppend(m, d[..n], d[n..|d| - 1]);
      StaysOutside(Steps(m, d[..n]), d[n..|d| - 1]);
    }
  }

  lemma TrailerBegins(m: Machine)
    requires m.errno == Okay && m.state == HeaderFieldStart && m.nread == 0
    ensures Steps(m, [CR]).state == HeadersAlmostDone
  {
    OneStep(m, CR);
  }

  lemma ChunkedFront(m: Machine, chunks: seq<Chunk>, last: Chunk)
    requires Ready(m) && m.state == ChunkSizeStart && GoodChunks(chunks) && GoodChunk(last) && last.data == ""
    ensures Steps(m, ChunkTexts(chunks) + (SizeLine(last) + [CR])).state == HeadersAlmostDone
  {
    var m1 := Steps(m, ChunkTexts(chunks));
    var m2 := m1.(contentLength := 0, trailing := true, state := HeaderFieldStart);
    assert m.nread == 0;
    hide Steps, Step, DataOf, ChunkTexts, SizeLine, Inv, GoodChunk, GoodChunks;
    ChunksRead(m, chunks);
    LineReads(m1, last);
    TrailerBegins(m2);
    StepsAppend(m, ChunkTexts(chunks), SizeLine(last) + [CR]);
    StepsAppend(m1, SizeLine(last), [CR]);
  }

  lemma ReceivedWhole(r: Machine, done: Machine)
    requires SameRun(r, done) && r.pending == "" && done.pending == ""
    ensures r == done
  {
    NothingPending(r, done);
  }

  /** A connection that receives a chunked body, cut in any way and with anything behind it, hands over exactly its
      data, and leaves what it reads of the rest. */
  lemma ChunkedReceived(m: Machine, chunks: seq<Chunk>, last: Chunk, behind: string, bufs: seq<string>)
    requires Ready(m) && m.state == ChunkSizeStart
    requires GoodChunks(chunks) && GoodChunk(last) && last.data == ""
    requires NoneEmpty(bufs) && Concat(bufs) == Chunked(chunks, last) + behind
    ensures ReadEach(m, bufs) == AfterChunked(m, chunks, LeftBehind(m.head.closes, bufs, |Chunked(chunks, last)|))
    ensures !m.head.closes ==> ReadEach(m, bufs) == AfterChunked(m, chunks, behind)
  {
    hide Steps, Chunked, GoodChunk, GoodChunks, Inv, ReadEach, CompletesAt, SameRun, NoneEmpty, Concat;
    var d := Chunked(chunks, last);
    ChunkedCompletesLast(m, chunks, last, behind);
    ReadsToCompletion(m, bufs, |d|);
    assert (d + behind)[..|d|] == d;
    ChunkedRuns(m, chunks, last);
    ReceivedWhole(ReadEach(m, bufs), AfterChunked(m, chunks, LeftBehind(m.head.closes, bufs, |d|)));
    AllLeft(bufs, |d|);
    assert (d + behind)[|d|..] == behind;
  }

  /** The same for a body of known length. */
  lemma LengthReceived(m: Machine, d: string, behind: string, bufs: seq<string>)
    requires Ready(m) && m.state == BodyIdentity && m.contentLength == |d|
    requires NoneEmpty(bufs) && Concat(bufs) == d + behind
    ensures ReadEach(m, bufs) == HandedOver(m, m.body + d, LeftBehind(m.head.closes, bufs, |d|))
    ensures !m.head.closes ==> ReadEach(m, bufs) == HandedOver(m, m.body + d, behind)
  {
    DataReads(m, d[..|d| - 1]);
    LengthRuns(m, d, "");
    assert d + "" == d;
    hide Steps, Inv, ReadEach, CompletesAt, SameRun, NoneEmpty, Concat;
    LastCompletes(m, d);
    CompletesOut(m, d, behind, |d|);
    ReadsToCompletion(m, bufs, |d|);
    assert (d + behind)[..|d|] == d;
    ReceivedWhole(ReadEach(m, bufs), HandedOver(m, m.body + d, LeftBehind(m.head.closes, bufs, |d|)));
    AllLeft(bufs, |d|);
    assert (d + behind)[|d|..] == behind;
  }

  // ---------- from the end of the header on ----------

  /** The parser in front of the last byte of a request's header. */
  predicate HeaderEnds(m: Machine) {
    Ready(m) && m.state == HeadersAlmostDone && !m.trailing && m.nread < MAX_HEADER_SIZE
  }

  /** A header that frames its body in exactly one way (section 3.3.3 of RFC 7230). */
  predicate FramesBody(head: Head) {
    if head.usesTransferEncoding then head.chunked && !head.hasLength else !head.chunked
  }

  /** The text that carries a body under this header: its chunks, as many bytes as announced, or nothing. */
  ghost predicate Carries(m: Machine, text: string, data: string) {
    if m.head.chunked then
      exists chunks, last ::
        && GoodChunks(chunks) && GoodChunk(last) && last.data == ""
        && text == Chunked(chunks, last) && data == DataOf(chunks)
    else text == data && |data| == if m.contentLength == NO_LENGTH then 0 else m.contentLength
  }

  /** What the header is left in. */
  lemma HeaderEndsIn(m: Machine, text: string, data: string)
    requires HeaderEnds(m) && FramesBody(m.head) && Carries(m, text, data)
    ensures var next := Steps(m, [LF]);
            if text == "" then next == Complete(m.(nread := 0))
            else next == m.(nread := 0, state := if m.head.chunked then ChunkSizeStart else BodyIdentity)
  {
    OneStep(m, LF);
    if m.head.chunked {
      var chunks, last :| GoodChunks(chunks) && GoodChunk(last) && last.data == ""
          && text == Chunked(chunks, last) && data == DataOf(chunks);
      assert SizeLine(last) != "";
    }
    hide GoodChunks, GoodChunk, Chunked, DataOf;
  }

  /** Behind the header, the text that carries the body completes the message with its last byte. */
  lemma BodyCompletes(m: Machine, text: string, data: string)
    requires Ready(m) && text != "" && (m.state == if m.head.chunked then ChunkSizeStart else BodyIdentity)
    requires Carries(m, text, data)
    ensures CompletesAt(m, text, |text|)
    ensures var done := Steps(m, text); done.handed == m.handed + [m.body + data] && done.body == done.pending == ""
  {
    assert text + "" == text;
    if m.head.chunked {
      var chunks, last :| GoodChunks(chunks) && GoodChunk(last) && last.data == ""
          && text == Chunked(chunks, last) && data == DataOf(chunks);
      hide Steps, CompletesAt, GoodChunks, GoodChunk, Chunked, DataOf, Inv;
      ChunkedCompletesLast(m, chunks, last, "");
      ChunkedRuns(m, chunks, last);
    } else {
      DataReads(m, text[..|text| - 1]);
      LengthRuns(m, text, "");
      hide Steps, CompletesAt, Inv;
      LastCompletes(m, text);
    }
  }

  /** The end of the header, and the text behind it. */
  lemma RequestCompletes(m: Machine, text: string, data: string)
    requires HeaderEnds(m) && FramesBody(m.head) && Carries(m, text, data)
    ensures CompletesAt(m, [LF] + text, |[LF] + text|)
    ensures var done := Steps(m, [LF] + text);
            done.errno == Okay && done.handed == m.handed + [m.body + data] && done.body == done.pending == ""
  {
    var next, d := Steps(m, [LF]), [LF] + text;
    HeaderEndsIn(m, text, data);
    StepsAppend(m, [LF], text);
    OneStep(m, LF);
    if text == "" {
      assert d == [LF] && d[..1] == d && d[..0] == "" && data == "";
      assert m.body + data == m.body == Read(m);
      StepsNothing(m);
    } else {
      assert Carries(next, text, data);
      hide Steps, Step, Carries, CompletesAt;
      BodyCompletes(next, text, data);
      assert d[0] == LF && d[1..] == text;
      CompletesNext(m, d, |d|);
      HandsOver(m, d, |d|);
      assert d[..|d|] == d;
    }
  }

  /** A connection at the end of a header that frames its body in one way receives, cut in any way and with anything
      behind it, exactly the body that is carried: in chunks, of the announced length, or none. */
  lemma RequestReceived(m: Machine, text: string, data: string, behind: string, bufs: seq<string>)
    requires HeaderEnds(m) && FramesBody(m.head) && Carries(m, text, data)
    requires NoneEmpty(bufs) && Concat(bufs) == ([LF] + text) + behind
    ensures var r := ReadEach(m, bufs);
            && r.errno == Okay && r.state == StartReq && r.handed == m.handed + [m.body + data]
            && r.rest == m.rest + LeftBehind(m.head.closes, bufs, 1 + |text|)
    ensures !m.head.closes ==> ReadEach(m, bufs).rest == m.rest + behind
  {
    var d := [LF] + text;
    RequestCompletes(m, text, data);
    hide Steps, CompletesAt, Carries, Inv, ReadEach, SameRun, NoneEmpty, Concat;
    HandsOver(m, d, |d|);
    assert d[..|d|] == d && (d + behind)[..|d|] == d && (d + behind)[|d|..] == behind;
    CompletesOut(m, d, behind, |d|);
    ReadsToCompletion(m, bufs, |d|);
    AllLeft(bufs, |d|);
    DoneFields(m, d);
    WholeFields(ReadEach(m, bufs), Steps(m, d).(rest := m.rest + LeftBehind(m.head.closes, bufs, |d|)));
  }

  lemma DoneFields(m: Machine, d: string)
    requires CompletesAt(m, d, |d|)
    ensures Steps(m, d).state == StartReq
  {
    assert d[..|d|] == d;
  }

  /** A header that frames its body in two ways, or in none that is known, hands nothing over, whatever is behind. */
  lemma FramingRefused(m: Machine, bufs: seq<string>)
    requires HeaderEnds(m) && m.head.usesTransferEncoding && (m.head.hasLength || !m.head.chunked)
    requires NoneEmpty(bufs) && bufs != [] && bufs[0][0] == LF
    ensures var r := ReadEach(m, bufs);
            && r.errno == (if m.head.hasLength then UnexpectedContentLength else InvalidTransferEncoding)
            && r.handed == m.handed && r.body == m.body
  {
    StepsByByte(m, bufs[0]);
    var failed := Step(m, LF);
    assert failed.errno != Okay;
    assert HttpBody.Execute(m, bufs[0]) == failed by {
      StepsFail(failed, bufs[0][1..]);
    }
    ReadStops(failed, bufs[1..]);
  }

  // ---------- content lengths ----------

  /** The largest lengths are rejected: ten times the largest value that the guard lets pass is the limit. */
  const LENGTH_LIMIT: nat := 18446744073709551610

  /** A field value that is a length: digits, then nothing but spaces. */
  predicate IsLength(value: string, digits: nat) {
    && 0 < digits <= |value|
    && (forall i :: 0 <= i < digits ==> IsDigit(value[i]))
    && (forall i :: digits <= i < |value| ==> value[i] == ' ')
  }

  lemma {:induction false} DecimalGrows(s: string, k: nat)
    requires (forall i :: 0 <= i < |s| ==> IsDigit(s[i])) && k <= |s|
    ensures 0 <= NaturalValue(s[..k]) <= NaturalValue(s)
    decreases |s|
  {
    if s != "" {
      var front := s[..|s| - 1];
      var n := if k < |s| then k else |s| - 1;
      assert front[..n] == s[..n] && (k == |s| ==> s[..k] == s);
      DecimalGrows(front, n);
    }
  }

  lemma TooLong(value: string, k: nat)
    requires 0 < k <= |value| && (forall i :: 0 <= i < k ==> IsDigit(value[i]))
             && NaturalValue(value[..k]) >= LENGTH_LIMIT
    ensures forall digits: nat :: IsLength(value, digits) ==> NaturalValue(value[..digits]) >= LENGTH_LIMIT
  {
    forall digits: nat | IsLength(value, digits) ensures NaturalValue(value[..digits]) >= LENGTH_LIMIT {
      assert IsDigit(value[k - 1]);
      assert value[..digits][..k] == value[..k];
      DecimalGrows(value[..digits], k);
    }
  }

  /** One more digit: the guard lets through exactly what stays below the limit, and nothing wraps. */
  lemma AddDigit(value: string, k: nat, length: nat)
    requires 0 < k < |value| && (forall i :: 0 <= i <= k ==> IsDigit(value[i]))
             && length == NaturalValue(value[..k]) < LENGTH_LIMIT
    ensures var t := (length * 10 % TWO64 + (value[k] as int - '0' as int)) % TWO64;
            if (NO_LENGTH - 10) / 10 < length then NaturalValue(value[..k + 1]) >= LENGTH_LIMIT
            else t == NaturalValue(value[..k + 1]) < LENGTH_LIMIT
  {
    assert value[..k + 1][..k] == value[..k];
    assert NaturalValue(value[..k + 1]) == length * 10 + (value[k] as int - '0' as int);
    hide NaturalValue;
  }

  /** Accumulates the value of a Content-Length field in 64 bits. A length is accepted exactly if the value has the
      form of one and stays below the limit, and then with its exact value. */
  method ContentLength(value: string) returns (r: Option<nat>)
    requires value != ""
    ensures r.Some? ==> exists digits: nat ::
              IsLength(value, digits) && r.value == NaturalValue(value[..digits]) < LENGTH_LIMIT
    ensures forall digits: nat :: IsLength(value, digits) && NaturalValue(value[..digits]) < LENGTH_LIMIT ==> r.Some?
  {
    if !IsDigit(value[0]) {
      return None;
    }
    var length, k := value[0] as int - '0' as int, 1;
    assert value[..1][..0] == "" && NaturalValue("") == 0;
    assert NaturalValue(value[..1]) == length;
    while k < |value| && IsDigit(value[k])
      invariant 1 <= k <= |value| && (forall i :: 0 <= i < k ==> IsDigit(value[i]))
      invariant 0 <= length == NaturalValue(value[..k]) < LENGTH_LIMIT
    {
      AddDigit(value, k, length);
      hide NaturalValue;
      var t := length * 10 % TWO64;
      t := (t + (value[k] as int - '0' as int)) % TWO64;
      if (NO_LENGTH - 10) / 10 < length {
        TooLong(value, k + 1);
        return None;
      }
      length := t;
      k := k + 1;
    }
    var digits := k;
    while k < |value|
      invariant digits <= k <= |value|
      invariant forall i :: digits <= i < k ==> value[i] == ' '
    {
      if value[k] != ' ' {
        return None;
      }
      k := k + 1;
    }
    assert IsLength(value, digits);
    return Some(length);
  }
}
