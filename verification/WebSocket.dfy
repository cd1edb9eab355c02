/** WebSocket framing, as in section 5 of RFC 6455: writing headers, reading frames in pieces, and putting messages
    together from their fragments. */
module WebSocket {
  import opened Basics
  import opened Sha256Spec
  import opened Difficulty

  type Bytes = seq<Byte>

  const LENGTHS: nat := 0x1_0000_0000_0000_0000

  // ---------- frames ----------

  /** How a length is written: in seven bits, or behind them in two or in eight bytes. */
  datatype Form = Len7 | Len16 | Len64

  datatype Frame = Frame(fin: bool, opcode: Byte, form: Form, mask: Option<Bytes>, payload: Bytes)

  predicate Fits(form: Form, n: nat) {
    match form
    case Len7 => n < 126
    case Len16 => n < 0x1_0000
    case Len64 => n < LENGTHS
  }

  predicate GoodFrame(f: Frame) {
    f.opcode < 16 && Fits(f.form, |f.payload|) && (f.mask.Some? ==> |f.mask.value| == 4)
  }

  function OpcodeByte(fin: bool, opcode: Byte): Byte {
    if fin then 0x80 | opcode else opcode
  }

  function LengthByte(masked: bool, length7: Byte): Byte {
    if masked then 0x80 | length7 else length7
  }

  function Length7(form: Form, n: nat): Byte
    requires Fits(form, n)
  {
    match form
    case Len7 => LowByte(n)
    case Len16 => 126
    case Len64 => 127
  }

  function ExtendedLength(form: Form, n: nat): Bytes {
    match form
    case Len7 => []
    case Len16 => BigEndian(n, 2)
    case Len64 => BigEndian(n, 8)
  }

  function Masked(d: Bytes, mask: Bytes): (r: Bytes)
    requires |mask| == 4
    ensures |r| == |d|
  {
    seq(|d|, i requires 0 <= i < |d| => XorByte(d[i], mask[i % 4]))
  }

  function Encode(f: Frame): Bytes
    requires GoodFrame(f)
  {
    [OpcodeByte(f.fin, f.opcode), LengthByte(f.mask.Some?, Length7(f.form, |f.payload|))]
    + (ExtendedLength(f.form, |f.payload|)
       + (if f.mask.None? then f.payload else f.mask.value + Masked(f.payload, f.mask.value)))
  }

  // ---------- reading ----------

  datatype ReadState = MiniHeader | ReadLen16 | ReadLen64 | ReadMask | ReadPayload | Stopped

  /** What the application sees, and the message that is being put together. */
  datatype App = App(
    message: Bytes,
    isBinary: bool,
    delivered: seq<(Bytes, bool)>,
    pongs: seq<Bytes>,
    pongReceived: bool,
    closed: Option<(nat, Bytes)>)

  datatype Reader = Reader(
    state: ReadState,
    miniHeader: bv16,
    remaining: nat,
    hasMask: bool,
    mask: Bytes,
    fragment: Bytes,
    maxPayload: nat,
    app: App)

  function MiniHeaderOf(a: Byte, b: Byte): bv16 {
    (a as bv16 << 8) | (b as bv16)
  }

  function IsFin(h: bv16): bool {
    h & 0x8000 != 0
  }

  function Opcode(h: bv16): bv16 {
    (h & 0x0f00) >> 8
  }

  function HasMaskBit(h: bv16): bool {
    h & 0x80 == 0x80
  }

  function Low7(h: bv16): (n: nat)
    ensures n < 128
  {
    (h & 0x7f) as nat
  }

  const NO_STATUS: nat := 1005

  /** The effect of one whole frame. A message is delivered with its last fragment. */
  function Handle(app: App, fin: bool, opcode: bv16, data: Bytes): App {
    if opcode == 0 || opcode == 1 || opcode == 2 then
      var binary := if opcode == 0 then app.isBinary else opcode == 2;
      var message := app.message + data;
      if fin then app.(isBinary := binary, message := [], delivered := app.delivered + [(message, binary)])
      else app.(isBinary := binary, message := message)
    else if opcode == 8 then
      app.(closed := Some(if |data| >= 2 then (data[0] as nat * 256 + data[1] as nat, data[2..])
          else (NO_STATUS, data)))
    else if opcode == 9 then app.(pongs := app.pongs + [data])
    else if opcode == 10 then app.(pongReceived := true)
    else app
  }

  /** The payload of a frame is complete: it is unmasked and handled, and the next frame may come, unless it was a
      close frame. */
  function Finish(r: Reader): (r': Reader)
    requires r.hasMask ==> |r.mask| == 4
    ensures r'.mask == r.mask && r'.maxPayload == r.maxPayload
  {
    var data := if r.hasMask then Masked(r.fragment, r.mask) else r.fragment;
    var app := Handle(r.app, IsFin(r.miniHeader), Opcode(r.miniHeader), data);
    r.(fragment := [], app := app, state := if Opcode(r.miniHeader) == 8 then Stopped else MiniHeader)
  }

  /** Goes on to the next state in which bytes are read. */
  function Settle(r: Reader): (r': Reader)
    requires r.hasMask ==> |r.mask| == 4
    ensures r'.mask == r.mask && r'.maxPayload == r.maxPayload
  {
    match r.state
    case ReadMask =>
      if r.remaining > r.maxPayload then r.(state := Stopped)
      else if r.hasMask then r
      else SettlePayload(r.(state := ReadPayload))
    case _ => r
  }

  function SettlePayload(r: Reader): (r': Reader)
    requires r.hasMask ==> |r.mask| == 4
    ensures r'.mask == r.mask && r'.maxPayload == r.maxPayload
  {
    if r.remaining == 0 then Finish(r) else r
  }

  const BUFFER: nat := 4096

  /** How many bytes a single read may bring. */
  predicate Admissible(r: Reader, n: nat) {
    match r.state
    case MiniHeader => n == 2
    case ReadLen16 => n == 2
    case ReadLen64 => n == 8
    case ReadMask => n == 4
    case ReadPayload => 0 < n <= r.remaining && n <= BUFFER
    case Stopped => false
  }

  /** One read. */
  function Take(r: Reader, piece: Bytes): (r': Reader)
    requires |r.mask| == 4 && Admissible(r, |piece|)
    ensures |r'.mask| == 4 && r'.maxPayload == r.maxPayload
  {
    match r.state
    case MiniHeader =>
      var h := MiniHeaderOf(piece[0], piece[1]);
      var r := r.(miniHeader := h, hasMask := HasMaskBit(h));
      if Low7(h) == 127 then r.(state := ReadLen64)
      else if Low7(h) == 126 then r.(state := ReadLen16)
      else Settle(r.(remaining := Low7(h), state := ReadMask))
    case ReadLen16 => Settle(r.(remaining := ValueOfBytes(piece), state := ReadMask))
    case ReadLen64 => Settle(r.(remaining := ValueOfBytes(piece), state := ReadMask))
    case ReadMask => SettlePayload(r.(mask := piece, state := ReadPayload))
    case ReadPayload => SettlePayload(r.(fragment := r.fragment + piece, remaining := r.remaining - |piece|))
  }

  /** A sequence of reads, each of a size that its state admits. */
  predicate Admits(r: Reader, pieces: seq<Bytes>)
    requires |r.mask| == 4
    decreases |pieces|
  {
    pieces == [] || (Admissible(r, |pieces[0]|) && Admits(Take(r, pieces[0]), pieces[1..]))
  }

  function Reads(r: Reader, pieces: seq<Bytes>): (r': Reader)
    requires |r.mask| == 4 && Admits(r, pieces)
    ensures |r'.mask| == 4
    decreases |pieces|
  {
    if pieces == [] then r else Reads(Take(r, pieces[0]), pieces[1..])
  }

  // ---------- the first two bytes ----------

  lemma HeaderBits(fin: bool, opcode: Byte, masked: bool, length7: Byte)
    requires opcode < 16 && length7 < 128
    ensures var h := MiniHeaderOf(OpcodeByte(fin, opcode), LengthByte(masked, length7));
            IsFin(h) == fin && Opcode(h) == opcode as bv16 && HasMaskBit(h) == masked && Low7(h) == length7 as nat
  {
    var h := MiniHeaderOf(OpcodeByte(fin, opcode), LengthByte(masked, length7));
    FinBits(fin, opcode, LengthByte(masked, length7));
    MaskBits(OpcodeByte(fin, opcode), masked, length7);
  }

  lemma FinBits(fin: bool, opcode: Byte, b: Byte)
    requires opcode < 16
    ensures var h := MiniHeaderOf(OpcodeByte(fin, opcode), b); IsFin(h) == fin && Opcode(h) == opcode as bv16
  {
  }

  lemma MaskBits(a: Byte, masked: bool, length7: Byte)
    requires length7 < 128
    ensures var h := MiniHeaderOf(a, LengthByte(masked, length7)); HasMaskBit(h) == masked && Low7(h) == length7 as nat
  {
    SevenBits(a, LengthByte(masked, length7), masked, length7);
  }

  lemma SevenBits(a: Byte, b: Byte, masked: bool, length7: Byte)
    requires length7 < 128 && b == if masked then 0x80 | length7 else length7
    ensures HasMaskBit(MiniHeaderOf(a, b)) == masked && MiniHeaderOf(a, b) & 0x7f == length7 as bv16
  {
  }

  // ---------- lengths ----------

  /** A length written most significant byte first is read back exactly. */
  lemma {:induction false} BigEndianValue(n: nat, width: nat)
    requires n < Pow2(8 * width)
    ensures ValueOfBytes(BigEndian(n, width)) == n
  {
    if width > 0 {
      Pow2Adds(8 * (width - 1), 8);
      assert Pow2(8) == 256;
      LowByteIs(n);
      BigEndianValue(n / 256, width - 1);
      hide LowByte, Pow2;
      var s := BigEndian(n, width);
      assert s[..width - 1] == BigEndian(n / 256, width - 1);
    }
  }

  lemma LengthRanges()
    ensures Pow2(16) == 0x1_0000 && Pow2(64) == LENGTHS
  {
    assert Pow2(8) == 256;
    Pow2Adds(8, 8);
    Pow2Adds(16, 16);
    Pow2Adds(32, 32);
  }

  // ---------- byte by byte ----------

  function Need(state: ReadState): nat {
    match state
    case MiniHeader => 2
    case ReadLen16 => 2
    case ReadLen64 => 8
    case ReadMask => 4
    case _ => 0
  }

  /** The reader as it would run on single bytes: the bytes of a header wait until there are enough of them. */
  function Feed(r: Reader, have: Bytes, d: Bytes): (Reader, Bytes)
    requires |r.mask| == 4 && (r.state != ReadPayload && r.state != Stopped ==> |have| < Need(r.state))
    decreases |d|
  {
    if d == [] || r.state == Stopped || (r.state == ReadPayload && r.remaining == 0) then (r, have)
    else if r.state == ReadPayload then
      Feed(Take(r, [d[0]]), [], d[1..])
    else if |have| + 1 < Need(r.state) then Feed(r, have + [d[0]], d[1..])
    else Feed(Take(r, have + [d[0]]), [], d[1..])
  }

  /** Between two reads: bytes can still come. */
  predicate Live(r: Reader) {
    |r.mask| == 4 && r.state != Stopped && (r.state == ReadPayload ==> r.remaining > 0)
  }

  lemma FeedStep(r: Reader, have: Bytes, d: Bytes)
    requires Live(r) && d != [] && (r.state != ReadPayload ==> |have| < Need(r.state))
    ensures r.state == ReadPayload ==> Feed(r, have, d) == Feed(Take(r, [d[0]]), [], d[1..])
    ensures r.state != ReadPayload && |have| + 1 < Need(r.state) ==> Feed(r, have, d) == Feed(r, have + [d[0]], d[1..])
    ensures r.state != ReadPayload && |have| + 1 == Need(r.state) ==>
            Feed(r, have, d) == Feed(Take(r, have + [d[0]]), [], d[1..])
  {
    hide Take;
  }

  /** The bytes of a header, one after the other. */
  lemma {:induction false} FeedHeader(r: Reader, have: Bytes, p: Bytes, rest: Bytes)
    requires Live(r) && r.state != ReadPayload && p != [] && |have| + |p| == Need(r.state)
    ensures Feed(r, have, p + rest) == Feed(Take(r, have + p), [], rest)
    decreases |p|
  {
    hide Take, Feed;
    FeedStep(r, have, p + rest);
    assert (p + rest)[0] == p[0] && (p + rest)[1..] == p[1..] + rest;
    if |p| == 1 {
      assert have + p == have + [p[0]] && p[1..] + rest == rest;
    } else {
      assert (have + [p[0]]) + p[1..] == have + p;
      FeedHeader(r, have + [p[0]], p[1..], rest);
    }
  }

  lemma TakePayload(r: Reader, p: Bytes)
    requires Live(r) && r.state == ReadPayload && 0 < |p| <= r.remaining && |p| <= BUFFER
    ensures Take(r, p) == SettlePayload(r.(fragment := r.fragment + p, remaining := r.remaining - |p|))
    ensures |p| < r.remaining ==> Take(r, p) == r.(fragment := r.fragment + p, remaining := r.remaining - |p|)
  {
    hide Finish;
  }

  /** The bytes of a payload, one after the other. */
  lemma {:induction false} FeedPayload(r: Reader, p: Bytes, rest: Bytes)
    requires Live(r) && r.state == ReadPayload && 0 < |p| <= r.remaining
    ensures Feed(r, [], p + rest)
         == Feed(SettlePayload(r.(fragment := r.fragment + p, remaining := r.remaining - |p|)), [], rest)
    decreases |p|
  {
    hide Take, Feed, Finish;
    FeedStep(r, [], p + rest);
    TakePayload(r, [p[0]]);
    assert (p + rest)[0] == p[0] && (p + rest)[1..] == p[1..] + rest;
    if |p| == 1 {
      assert p == [p[0]] && p[1..] + rest == rest;
    } else {
      var next := r.(fragment := r.fragment + [p[0]], remaining := r.remaining - 1);
      assert (r.fragment + [p[0]]) + p[1..] == r.fragment + p;
      FeedPayload(next, p[1..], rest);
    }
  }

  lemma AdmissibleIsLive(r: Reader, n: nat)
    requires |r.mask| == 4 && Admissible(r, n)
    ensures Live(r) && n > 0 && (r.state != ReadPayload ==> n == Need(r.state))
  {
  }

  /** However the reads cut the stream, the reader ends where single bytes would have brought it. */
  lemma {:induction false} ReadsAreBytes(r: Reader, pieces: seq<Bytes>)
    requires |r.mask| == 4 && Admits(r, pieces)
    ensures Feed(r, [], Concat(pieces)) == Feed(Reads(r, pieces), [], [])
    decreases |pieces|
  {
    hide Take, Feed, Admissible, SettlePayload;
    if pieces != [] {
      var p, rest := pieces[0], pieces[1..];
      AdmissibleIsLive(r, |p|);
      ReadsAreBytes(Take(r, p), rest);
      if r.state == ReadPayload {
        PayloadAdmits(r, |p|);
        TakePayload(r, p);
        FeedPayload(r, p, Concat(rest));
      } else {
        assert [] + p == p;
        FeedHeader(r, [], p, Concat(rest));
      }
    }
  }

  lemma PayloadAdmits(r: Reader, n: nat)
    requires Admissible(r, n) && r.state == ReadPayload
    ensures 0 < n <= r.remaining && n <= BUFFER
  {
  }

  // ---------- one frame ----------

  /** Between two frames. */
  predicate Idle(r: Reader, maxPayload: nat, app: App) {
    r.state == MiniHeader && r.fragment == [] && |r.mask| == 4 && r.maxPayload == maxPayload && r.app == app
  }

  lemma {:induction false} MaskTwice(d: Bytes, mask: Bytes)
    requires |mask| == 4
    ensures Masked(Masked(d, mask), mask) == d
  {
    forall i | 0 <= i < |d| ensures Masked(Masked(d, mask), mask)[i] == d[i] {
      XorTwice(d[i], mask[i % 4]);
      hide XorByte;
    }
  }

  lemma XorTwice(a: Byte, b: Byte)
    ensures XorByte(XorByte(a, b), b) == a
  {
  }

  /** What the reader has learnt when the header of a frame is complete, up to its length. */
  function AtMask(r: Reader, f: Frame): Reader
    requires GoodFrame(f)
  {
    r.(state := ReadMask, remaining := |f.payload|, hasMask := f.mask.Some?,
       miniHeader := MiniHeaderOf(OpcodeByte(f.fin, f.opcode), LengthByte(f.mask.Some?, Length7(f.form, |f.payload|))))
  }

  lemma Length7Bits(form: Form, n: nat)
    requires Fits(form, n)
    ensures Length7(form, n) < 128
    ensures form == Len7 ==> Length7(form, n) as nat == n
    ensures form == Len16 ==> Length7(form, n) as nat == 126
    ensures form == Len64 ==> Length7(form, n) as nat == 127
  {
    if form == Len7 {
      LowByteIs(n);
      hide LowByte;
    }
  }

  lemma MiniHeaderTaken(r: Reader, f: Frame)
    requires |r.mask| == 4 && r.state == MiniHeader && GoodFrame(f)
    ensures var two := [OpcodeByte(f.fin, f.opcode), LengthByte(f.mask.Some?, Length7(f.form, |f.payload|))];
            Take(r, two)
            == match f.form
               case Len7 => Settle(AtMask(r, f))
               case Len16 => AtMask(r, f).(state := ReadLen16, remaining := r.remaining)
               case Len64 => AtMask(r, f).(state := ReadLen64, remaining := r.remaining)
  {
    Length7Bits(f.form, |f.payload|);
    HeaderBits(f.fin, f.opcode, f.mask.Some?, Length7(f.form, |f.payload|));
    hide OpcodeByte, LengthByte, MiniHeaderOf, IsFin, Opcode, HasMaskBit, Low7, Settle, Length7;
  }

  lemma LengthTaken(r: Reader, f: Frame)
    requires |r.mask| == 4 && GoodFrame(f) && f.form != Len7
    requires r.state == if f.form == Len16 then ReadLen16 else ReadLen64
    requires r == AtMask(r, f).(state := r.state, remaining := r.remaining)
    ensures var d := ExtendedLength(f.form, |f.payload|); Admissible(r, |d|) && Take(r, d) == Settle(AtMask(r, f))
  {
    LengthRanges();
    BigEndianValue(|f.payload|, if f.form == Len16 then 2 else 8);
    hide OpcodeByte, LengthByte, MiniHeaderOf, Settle, Pow2, ValueOfBytes, BigEndian, Length7;
  }

  /** Whatever the form of its length, the header of a frame is read back exactly. */
  lemma HeaderFeeds(r: Reader, f: Frame, rest: Bytes)
    requires |r.mask| == 4 && r.state == MiniHeader && GoodFrame(f)
    ensures var two := [OpcodeByte(f.fin, f.opcode), LengthByte(f.mask.Some?, Length7(f.form, |f.payload|))];
            Feed(r, [], two + (ExtendedLength(f.form, |f.payload|) + rest)) == Feed(Settle(AtMask(r, f)), [], rest)
  {
    var two, length := [OpcodeByte(f.fin, f.opcode), LengthByte(f.mask.Some?, Length7(f.form, |f.payload|))],
        ExtendedLength(f.form, |f.payload|);
    var r1 := Take(r, two);
    MiniHeaderTaken(r, f);
    hide Take, Feed, OpcodeByte, LengthByte, MiniHeaderOf, Settle, BigEndian, Length7, GoodFrame;
    FeedHeader(r, [], two, length + rest);
    assert [] + two == two;
    if f.form == Len7 {
      assert length + rest == rest;
    } else {
      LengthTaken(r1, f);
      assert [] + length == length;
      FeedHeader(r1, [], length, rest);
    }
  }

  /** The effect of a frame. */
  function HandleFrame(app: App, f: Frame): App {
    Handle(app, f.fin, f.opcode as bv16, f.payload)
  }

  /** The payload as it stands on the wire. */
  function Wire(f: Frame): Bytes
    requires GoodFrame(f)
  {
    if f.mask.None? then f.payload else Masked(f.payload, f.mask.value)
  }

  lemma FinishFrame(r: Reader, f: Frame)
    requires GoodFrame(f) && |r.mask| == 4 && r.hasMask == f.mask.Some? && (f.mask.Some? ==> r.mask == f.mask.value)
    requires r.fragment == Wire(f)
    requires r.miniHeader == MiniHeaderOf(OpcodeByte(f.fin, f.opcode),
             LengthByte(f.mask.Some?, Length7(f.form, |f.payload|)))
    ensures f.opcode != 8 ==> Idle(Finish(r), r.maxPayload, HandleFrame(r.app, f))
    ensures f.opcode == 8 ==> Finish(r).state == Stopped && Finish(r).app == HandleFrame(r.app, f)
  {
    Length7Bits(f.form, |f.payload|);
    HeaderBits(f.fin, f.opcode, f.mask.Some?, Length7(f.form, |f.payload|));
    if f.mask.Some? {
      MaskTwice(f.payload, f.mask.value);
    }
    SameOpcode(f.opcode);
    hide OpcodeByte, LengthByte, MiniHeaderOf, IsFin, Opcode, HasMaskBit, Low7, Length7, Masked, Handle;
  }

  lemma SameOpcode(opcode: Byte)
    ensures opcode as bv16 == 8 <==> opcode == 8
  {
  }

  /** The payload of a frame, once its header is known. */
  lemma PayloadFeeds(r: Reader, f: Frame, rest: Bytes)
    requires GoodFrame(f) && |r.mask| == 4 && r.hasMask == f.mask.Some? && (f.mask.Some? ==> r.mask == f.mask.value)
    requires r.state == ReadPayload && r.remaining == |f.payload| && r.fragment == []
    requires r.miniHeader == MiniHeaderOf(OpcodeByte(f.fin, f.opcode),
             LengthByte(f.mask.Some?, Length7(f.form, |f.payload|)))
    ensures var r' := Finish(r.(fragment := Wire(f), remaining := 0));
            Feed(SettlePayload(r), [], Wire(f) + rest) == Feed(r', [], rest)
  {
    hide Feed, Finish, Masked, OpcodeByte, LengthByte, MiniHeaderOf, Length7;
    assert |Wire(f)| == |f.payload|;
    if f.payload == [] {
      assert Wire(f) == [] && Wire(f) + rest == rest;
      assert r == r.(fragment := Wire(f), remaining := 0);
    } else {
      FeedPayload(r, Wire(f), rest);
      assert [] + Wire(f) == Wire(f);
    }
  }

  /** What stands behind the length. */
  function Body(f: Frame): Bytes
    requires GoodFrame(f)
  {
    if f.mask.None? then f.payload else f.mask.value + Masked(f.payload, f.mask.value)
  }

  /** Behind a frame: its effect has been had, and the next frame may come unless it was a close frame. */
  predicate Behind(r: Reader, maxPayload: nat, app: App, f: Frame) {
    if f.opcode == 8 then r.state == Stopped && |r.mask| == 4 && r.app == HandleFrame(app, f)
    else Idle(r, maxPayload, HandleFrame(app, f))
  }

  lemma BodyFeeds(r: Reader, f: Frame, rest: Bytes)
    requires |r.mask| == 4 && r.fragment == [] && GoodFrame(f) && |f.payload| <= r.maxPayload
    ensures exists r' ::
              Behind(r', r.maxPayload, r.app, f)
              && Feed(Settle(AtMask(r, f)), [], Body(f) + rest) == Feed(r', [], rest)
  {
    var r1 := AtMask(r, f);
    var r2 := if f.mask.None? then r1.(state := ReadPayload) else r1.(state := ReadPayload, mask := f.mask.value);
    hide Feed, Finish, SettlePayload, Masked, OpcodeByte, LengthByte, MiniHeaderOf, Length7, Idle, HandleFrame;
    if f.mask.Some? {
      FeedMask(r1, f.mask.value, Wire(f) + rest);
      assert Body(f) + rest == f.mask.value + (Wire(f) + rest);
    } else {
      assert Settle(r1) == SettlePayload(r2);
    }
    PayloadFeeds(r2, f, rest);
    FinishFrame(r2.(fragment := Wire(f), remaining := 0), f);
    assert Behind(Finish(r2.(fragment := Wire(f), remaining := 0)), r.maxPayload, r.app, f);
  }

  /** Reading an encoded frame has its effect, and leaves the reader ready for the next one. */
  lemma FrameFeeds(r: Reader, f: Frame, rest: Bytes, maxPayload: nat, app: App)
    requires Idle(r, maxPayload, app) && GoodFrame(f) && |f.payload| <= maxPayload
    ensures exists r' :: Behind(r', maxPayload, app, f) && Feed(r, [], Encode(f) + rest) == Feed(r', [], rest)
  {
    var two, length := [OpcodeByte(f.fin, f.opcode), LengthByte(f.mask.Some?, Length7(f.form, |f.payload|))],
        ExtendedLength(f.form, |f.payload|);
    assert Encode(f) == two + (length + Body(f));
    hide Feed, Masked, OpcodeByte, LengthByte, Length7, ExtendedLength, Settle, Body, HandleFrame;
    RegroupFour(two, length, Body(f), rest);
    HeaderFeeds(r, f, Body(f) + rest);
    BodyFeeds(r, f, rest);
  }

  lemma FeedMask(r: Reader, mask: Bytes, rest: Bytes)
    requires |r.mask| == 4 && |mask| == 4 && r.state == ReadMask && r.hasMask && r.remaining <= r.maxPayload
    ensures Settle(r) == r
    ensures Feed(r, [], mask + rest) == Feed(SettlePayload(r.(mask := mask, state := ReadPayload)), [], rest)
  {
    assert [] + mask == mask;
    assert Take(r, mask) == SettlePayload(r.(mask := mask, state := ReadPayload));
    hide Take, Feed, SettlePayload;
    FeedHeader(r, [], mask, rest);
  }

  lemma RegroupFour(a: Bytes, b: Bytes, c: Bytes, d: Bytes)
    ensures (a + (b + c)) + d == a + (b + (c + d))
  {
  }

  // ---------- many frames ----------

  function EncodeAll(frames: seq<Frame>): Bytes
    requires forall i :: 0 <= i < |frames| ==> GoodFrame(frames[i])
  {
    if frames == [] then [] else Encode(frames[0]) + EncodeAll(frames[1..])
  }

  function HandleAll(app: App, frames: seq<Frame>): App
    decreases |frames|
  {
    if frames == [] then app else HandleAll(HandleFrame(app, frames[0]), frames[1..])
  }

  predicate Readable(frames: seq<Frame>, maxPayload: nat) {
    forall i :: 0 <= i < |frames| ==> GoodFrame(frames[i]) && |frames[i].payload| <= maxPayload && frames[i].opcode != 8
  }

  lemma {:induction false} FramesFeed(r: Reader, frames: seq<Frame>, rest: Bytes, maxPayload: nat, app: App)
    requires Idle(r, maxPayload, app) && Readable(frames, maxPayload)
    ensures exists r' ::
              && Idle(r', maxPayload, HandleAll(app, frames))
              && Feed(r, [], EncodeAll(frames) + rest) == Feed(r', [], rest)
    decreases |frames|
  {
    hide Handle, Encode, GoodFrame, Feed, HandleFrame;
    if frames == [] {
      assert EncodeAll(frames) + rest == rest;
      assert Idle(r, maxPayload, HandleAll(app, frames)) && Feed(r, [], EncodeAll(frames) + rest) == Feed(r, [], rest);
    } else {
      var f, more := frames[0], EncodeAll(frames[1..]) + rest;
      assert EncodeAll(frames) + rest == Encode(f) + more;
      FrameFeeds(r, f, more, maxPayload, app);
      var r1 :| Behind(r1, maxPayload, app, f) && Feed(r, [], Encode(f) + more) == Feed(r1, [], more);
      FramesFeed(r1, frames[1..], rest, maxPayload, HandleFrame(app, f));
      var r2 :| && Idle(r2, maxPayload, HandleAll(HandleFrame(app, f), frames[1..]))
                && Feed(r1, [], EncodeAll(frames[1..]) + rest) == Feed(r2, [], rest);
      assert Idle(r2, maxPayload, HandleAll(app, frames));
    }
  }

  lemma FeedNothing(r: Reader)
    requires |r.mask| == 4
    ensures Feed(r, [], []) == (r, [])
  {
  }

  /** Any frames, read in pieces of any sizes, have their effects one after the other. */
  lemma FramesRead(r: Reader, frames: seq<Frame>, maxPayload: nat, app: App, pieces: seq<Bytes>)
    requires Idle(r, maxPayload, app) && Readable(frames, maxPayload)
    requires |r.mask| == 4 && Admits(r, pieces) && Concat(pieces) == EncodeAll(frames)
    ensures Idle(Reads(r, pieces), maxPayload, HandleAll(app, frames))
  {
    hide Feed, Take, GoodFrame, Encode;
    FramesFeed(r, frames, [], maxPayload, app);
    assert EncodeAll(frames) + [] == EncodeAll(frames);
    var r' :| Idle(r', maxPayload, HandleAll(app, frames)) && Feed(r, [], EncodeAll(frames) + []) == Feed(r', [], []);
    FeedNothing(r');
    ReadsAreBytes(r, pieces);
    FeedNothing(Reads(r, pieces));
  }

  /** The status and the reason in a close frame; a payload too short for a status is the reason. */
  predicate ClosesWith(payload: Bytes, status: nat, reason: Bytes) {
    if |payload| < 2 then status == NO_STATUS && reason == payload
    else status < 0x1_0000 && payload == BigEndian(status, 2) + reason
  }

  lemma StatusBytes(payload: Bytes, status: nat, reason: Bytes)
    requires |payload| >= 2 && ClosesWith(payload, status, reason)
    ensures payload[0] as nat * 256 + payload[1] as nat == status && payload[2..] == reason
  {
    var s := BigEndian(status, 2);
    assert payload[..2] == s && payload[0] == s[0] && payload[1] == s[1];
    LengthRanges();
    BigEndianValue(status, 2);
    assert s[..1][..0] == [] && s[..1] == [s[0]];
    assert ValueOfBytes(s[..1]) == s[0] as nat;
    hide BigEndian, Pow2;
  }

  lemma CloseHandled(app: App, f: Frame, status: nat, reason: Bytes)
    requires f.opcode == 8 && ClosesWith(f.payload, status, reason)
    ensures HandleFrame(app, f) == app.(closed := Some((status, reason)))
  {
    if |f.payload| >= 2 {
      StatusBytes(f.payload, status, reason);
    }
    hide BigEndian;
  }

  /** A close frame behind any others, read in any pieces: its status and its reason are handed on, and nothing can
      be read behind it. */
  lemma CloseRead(r: Reader, frames: seq<Frame>, f: Frame, status: nat, reason: Bytes, maxPayload: nat, app: App,
      pieces: seq<Bytes>)
    requires Idle(r, maxPayload, app) && Readable(frames, maxPayload)
    requires GoodFrame(f) && f.opcode == 8 && |f.payload| <= maxPayload && ClosesWith(f.payload, status, reason)
    requires |r.mask| == 4 && Admits(r, pieces) && Concat(pieces) == EncodeAll(frames) + Encode(f)
    ensures var r' := Reads(r, pieces);
            && r'.state == Stopped && (forall n :: !Admissible(r', n))
            && r'.app == HandleAll(app, frames).(closed := Some((status, reason)))
  {
    hide Feed, Take, GoodFrame, Encode, HandleAll, HandleFrame, EncodeAll;
    FramesFeed(r, frames, Encode(f), maxPayload, app);
    var r1 :| Idle(r1, maxPayload, HandleAll(app, frames))
        && Feed(r, [], EncodeAll(frames) + Encode(f)) == Feed(r1, [], Encode(f));
    assert Encode(f) + [] == Encode(f);
    FrameFeeds(r1, f, [], maxPayload, HandleAll(app, frames));
    var r2 :| Behind(r2, maxPayload, HandleAll(app, frames), f) && Feed(r1, [], Encode(f) + []) == Feed(r2, [], []);
    FeedNothing(r2);
    ReadsAreBytes(r, pieces);
    FeedNothing(Reads(r, pieces));
    CloseHandled(HandleAll(app, frames), f, status, reason);
  }

  /** A frame whose length is over the limit, behind any others: the reader stops at its length, before its payload,
      and the application does not see it. */
  lemma TooLargeStops(r: Reader, frames: seq<Frame>, f: Frame, maxPayload: nat, app: App, pieces: seq<Bytes>)
    requires Idle(r, maxPayload, app) && Readable(frames, maxPayload) && GoodFrame(f) && |f.payload| > maxPayload
    requires |r.mask| == 4 && Admits(r, pieces)
    requires Concat(pieces) == EncodeAll(frames) + Header(f)
    ensures var r' := Reads(r, pieces);
            && r'.state == Stopped && (forall n :: !Admissible(r', n)) && r'.app == HandleAll(app, frames)
  {
    hide Feed, Take, Encode, HandleAll, EncodeAll, Settle, Header, Reads, Admits, Concat, GoodFrame;
    var header := Header(f);
    FramesFeed(r, frames, header, maxPayload, app);
    var r1 :| && Idle(r1, maxPayload, HandleAll(app, frames)) && |r1.mask| == 4
              && Feed(r, [], EncodeAll(frames) + header) == Feed(r1, [], header);
    HeaderStops(r1, f, maxPayload, HandleAll(app, frames));
    ReadsAreBytes(r, pieces);
    FeedNothing(Reads(r, pieces));
    StopsForGood(Settle(AtMask(r1, f)));
  }

  /** The bytes of a frame up to its length. */
  function Header(f: Frame): Bytes
    requires GoodFrame(f)
  {
    [OpcodeByte(f.fin, f.opcode), LengthByte(f.mask.Some?, Length7(f.form, |f.payload|))]
    + ExtendedLength(f.form, |f.payload|)
  }

  lemma HeaderStops(r: Reader, f: Frame, maxPayload: nat, app: App)
    requires Idle(r, maxPayload, app) && GoodFrame(f) && |f.payload| > maxPayload && |r.mask| == 4
    ensures var r' := Settle(AtMask(r, f));
            r'.state == Stopped && r'.app == app && |r'.mask| == 4 && Feed(r, [], Header(f)) == (r', [])
  {
    hide Feed, OpcodeByte, LengthByte, Length7, Settle;
    var two, length := [OpcodeByte(f.fin, f.opcode), LengthByte(f.mask.Some?, Length7(f.form, |f.payload|))],
        ExtendedLength(f.form, |f.payload|);
    assert two + (length + []) == two + length;
    HeaderFeeds(r, f, []);
    SettleStops(r, f);
    FeedNothing(Settle(AtMask(r, f)));
  }

  lemma StopsForGood(r: Reader)
    requires r.state == Stopped
    ensures forall n :: !Admissible(r, n)
  {
  }

  lemma SettleStops(r: Reader, f: Frame)
    requires GoodFrame(f) && |f.payload| > r.maxPayload && |r.mask| == 4
    ensures var r' := Settle(AtMask(r, f)); r'.state == Stopped && r'.app == r.app
  {
    hide MiniHeaderOf, OpcodeByte, LengthByte, Length7;
  }

  // ---------- messages ----------

  /** The fragments of a message: all but the first are continuations, and the last one is marked as the last. */
  predicate Fragments(frames: seq<Frame>, binary: bool) {
    && frames != []
    && frames[0].opcode == (if binary then 2 else 1)
    && (forall i :: 0 < i < |frames| ==> frames[i].opcode == 0)
    && (forall i :: 0 <= i < |frames| ==> frames[i].fin == (i == |frames| - 1))
  }

  /** A frame that is no part of a message: a control frame, or one of an unknown kind. */
  predicate IsControl(f: Frame) {
    f.opcode > 2
  }

  function DataFrames(frames: seq<Frame>): seq<Frame> {
    if frames == [] then [] else (if IsControl(frames[0]) then [] else [frames[0]]) + DataFrames(frames[1..])
  }

  function Payloads(frames: seq<Frame>): Bytes {
    if frames == [] then [] else frames[0].payload + Payloads(frames[1..])
  }

  function Pings(frames: seq<Frame>): seq<Bytes> {
    if frames == [] then [] else (if frames[0].opcode == 9 then [frames[0].payload] else []) + Pings(frames[1..])
  }

  lemma HandleControl(app: App, f: Frame)
    requires IsControl(f)
    ensures var app' := HandleFrame(app, f);
            && app'.message == app.message && app'.isBinary == app.isBinary && app'.delivered == app.delivered
            && app'.pongs == app.pongs + (if f.opcode == 9 then [f.payload] else [])
            && app'.pongReceived == (app.pongReceived || f.opcode == 10)
            && (f.opcode != 8 ==> app'.closed == app.closed)
  {
    assert app.pongs + [] == app.pongs;
  }

  lemma HandleData(app: App, f: Frame)
    requires f.opcode == 0 || f.opcode == 1 || f.opcode == 2
    ensures var app', binary := HandleFrame(app, f), if f.opcode == 0 then app.isBinary else f.opcode == 2;
            && app'.pongs == app.pongs && app'.isBinary == binary
            && (f.fin ==> app'.message == [] && app'.delivered == app.delivered + [(app.message + f.payload, binary)])
            && (!f.fin ==> app'.message == app.message + f.payload && app'.delivered == app.delivered)
  {
  }

  /** Frames whose data frames are continuations up to the last one. */
  predicate Continues(data: seq<Frame>) {
    && (forall i :: 0 <= i < |data| ==> data[i].opcode == 0)
    && (forall i :: 0 <= i < |data| ==> data[i].fin == (i == |data| - 1))
  }

  lemma DataFramesStep(frames: seq<Frame>)
    requires frames != []
    ensures IsControl(frames[0]) ==> DataFrames(frames) == DataFrames(frames[1..])
    ensures !IsControl(frames[0]) ==> var data := DataFrames(frames);
            data != [] && data[0] == frames[0] && data[1..] == DataFrames(frames[1..])
  {
    hide IsControl;
    var data := (if IsControl(frames[0]) then [] else [frames[0]]) + DataFrames(frames[1..]);
    assert DataFrames(frames) == data;
    hide DataFrames;
  }

  lemma PingsStep(frames: seq<Frame>)
    requires frames != []
    ensures Pings(frames) == (if frames[0].opcode == 9 then [frames[0].payload] else []) + Pings(frames[1..])
  {
  }

  lemma DataIsNoPing(f: Frame, pongs: seq<Bytes>)
    requires !IsControl(f)
    ensures f.opcode != 9 && [] + pongs == pongs
  {
  }

  lemma Joins(a: Bytes, b: Bytes, c: Bytes)
    ensures (a + b) + c == a + (b + c) && a + [] == a && [] + a == a
  {
  }

  lemma JoinsAll(a: seq<Bytes>, b: seq<Bytes>, c: seq<Bytes>)
    ensures (a + b) + c == a + (b + c) && a + [] == a
  {
  }

  lemma {:induction false} ContinuationDelivered(app: App, frames: seq<Frame>)
    requires Continues(DataFrames(frames))
    ensures var app', data := HandleAll(app, frames), DataFrames(frames);
            && app'.pongs == app.pongs + Pings(frames)
            && (data != [] ==>
                  app'.message == []
                  && app'.delivered == app.delivered + [(app.message + Payloads(data), app.isBinary)])
            && (data == [] ==>
                  app'.message == app.message && app'.delivered == app.delivered && app'.isBinary == app.isBinary)
    decreases |frames|
  {
    hide HandleFrame, IsControl;
    if frames == [] {
      JoinsAll(app.pongs, [], []);
    } else {
      var f, rest, data := frames[0], frames[1..], DataFrames(frames);
      var app1 := HandleFrame(app, f);
      DataFramesStep(frames);
      PingsStep(frames);
      hide DataFrames, Pings;
      JoinsAll(app.pongs, if f.opcode == 9 then [f.payload] else [], Pings(rest));
      if IsControl(f) {
        HandleControl(app, f);
        ContinuationDelivered(app1, rest);
      } else {
        DataIsNoPing(f, Pings(rest));
        HandleData(app, f);
        TailContinues(data);
        ContinuationDelivered(app1, rest);
        Joins(app.message, f.payload, Payloads(data[1..]));
        Joins(f.payload, [], []);
      }
    }
  }

  lemma TailContinues(data: seq<Frame>)
    requires data != [] && Continues(data)
    ensures Continues(data[1..])
  {
    forall i | 0 <= i < |data| - 1 ensures data[1..][i].opcode == 0 && data[1..][i].fin == (i == |data| - 2) {
      assert data[1..][i] == data[i + 1];
    }
  }

  lemma TailOfFragments(data: seq<Frame>, binary: bool)
    requires Fragments(data, binary)
    ensures Continues(data[1..]) && data[0].fin == (|data| == 1) && data[0].opcode == (if binary then 2 else 1)
  {
    forall i | 0 <= i < |data| - 1 ensures data[1..][i].opcode == 0 && data[1..][i].fin == (i == |data| - 2) {
      assert data[1..][i] == data[i + 1];
    }
  }

  /** A message cut into any fragments, with pings and pongs between them, is delivered once and whole, and every
      ping is answered with what it carried. */
  lemma {:induction false} MessageDelivered(app: App, frames: seq<Frame>, binary: bool)
    requires Fragments(DataFrames(frames), binary) && app.message == []
    ensures var app' := HandleAll(app, frames);
            && app'.delivered == app.delivered + [(Payloads(DataFrames(frames)), binary)] && app'.message == []
            && app'.pongs == app.pongs + Pings(frames)
    decreases |frames|
  {
    hide HandleFrame, IsControl;
    var f, rest, data := frames[0], frames[1..], DataFrames(frames);
    var app1 := HandleFrame(app, f);
    DataFramesStep(frames);
    PingsStep(frames);
    hide DataFrames, Pings;
    JoinsAll(app.pongs, if f.opcode == 9 then [f.payload] else [], Pings(rest));
    if IsControl(f) {
      HandleControl(app, f);
      MessageDelivered(app1, rest, binary);
    } else {
      DataIsNoPing(f, Pings(rest));
      HandleData(app, f);
      TailOfFragments(data, binary);
      hide Fragments;
      ContinuationDelivered(app1, rest);
      Joins(f.payload, [], []);
    }
  }

  /** From the wire to the application: the frames of a message, masked in any way, with control frames between them
      and read in pieces of any sizes, deliver exactly the message. */
  lemma MessageRead(r: Reader, frames: seq<Frame>, binary: bool, maxPayload: nat, app: App, pieces: seq<Bytes>)
    requires Idle(r, maxPayload, app) && Readable(frames, maxPayload) && app.message == []
    requires Fragments(DataFrames(frames), binary)
    requires |r.mask| == 4 && Admits(r, pieces) && Concat(pieces) == EncodeAll(frames)
    ensures var app' := Reads(r, pieces).app;
            && app'.delivered == app.delivered + [(Payloads(DataFrames(frames)), binary)] && app'.message == []
            && app'.pongs == app.pongs + Pings(frames)
    ensures Idle(Reads(r, pieces), maxPayload, Reads(r, pieces).app)
  {
    FramesRead(r, frames, maxPayload, app, pieces);
    MessageDelivered(app, frames, binary);
    hide Readable, EncodeAll, Admits, Reads, HandleAll, Fragments;
  }

  // ---------- many messages ----------

  /** A message as it is sent: its frames, with control frames between them, and whether it is binary. */
  datatype Sending = Sending(frames: seq<Frame>, binary: bool)

  function FramesOf(messages: seq<Sending>): seq<Frame> {
    if messages == [] then [] else messages[0].frames + FramesOf(messages[1..])
  }

  /** The messages as they are delivered. */
  function Contents(messages: seq<Sending>): seq<(Bytes, bool)> {
    if messages == [] then []
    else [(Payloads(DataFrames(messages[0].frames)), messages[0].binary)] + Contents(messages[1..])
  }

  predicate AreMessages(messages: seq<Sending>) {
    forall i :: 0 <= i < |messages| ==> Fragments(DataFrames(messages[i].frames), messages[i].binary)
  }

  lemma {:induction false} HandleAppend(app: App, a: seq<Frame>, b: seq<Frame>)
    ensures HandleAll(app, a + b) == HandleAll(HandleAll(app, a), b)
    decreases |a|
  {
    hide HandleFrame;
    if a == [] {
      assert a + b == b;
    } else {
      assert (a + b)[1..] == a[1..] + b;
      HandleAppend(HandleFrame(app, a[0]), a[1..], b);
    }
  }

  lemma {:induction false} PingsAppend(a: seq<Frame>, b: seq<Frame>)
    ensures Pings(a + b) == Pings(a) + Pings(b)
    decreases |a|
  {
    if a == [] {
      assert a + b == b;
    } else {
      assert (a + b)[1..] == a[1..] + b;
      PingsAppend(a[1..], b);
    }
  }

  /** Messages one after the other are delivered one after the other, each once and whole. */
  lemma {:induction false} MessagesDelivered(app: App, messages: seq<Sending>)
    requires AreMessages(messages) && app.message == []
    ensures var app' := HandleAll(app, FramesOf(messages));
            && app'.delivered == app.delivered + Contents(messages) && app'.message == []
            && app'.pongs == app.pongs + Pings(FramesOf(messages))
    decreases |messages|
  {
    hide HandleFrame, Fragments, DataFrames, Payloads;
    if messages == [] {
      assert app.delivered + [] == app.delivered && app.pongs + [] == app.pongs;
      assert Pings([]) == [];
    } else {
      var m, rest := messages[0], messages[1..];
      var app1 := HandleAll(app, m.frames);
      MessageDelivered(app, m.frames, m.binary);
      HandleAppend(app, m.frames, FramesOf(rest));
      PingsAppend(m.frames, FramesOf(rest));
      MessagesDelivered(app1, rest);
      hide HandleAll, Pings;
      Regroup(app.delivered, [(Payloads(DataFrames(m.frames)), m.binary)], Contents(rest));
      Regroup(app.pongs, Pings(m.frames), Pings(FramesOf(rest)));
    }
  }

  /** What frames do besides delivering messages: a pong is noted, frames of unknown kinds have no effect, and the
      connection stays open. */
  lemma {:induction false} ControlEffects(app: App, frames: seq<Frame>)
    requires forall i :: 0 <= i < |frames| ==> frames[i].opcode != 8
    ensures var app' := HandleAll(app, frames);
            && (app'.pongReceived <==> app.pongReceived || exists i :: 0 <= i < |frames| && frames[i].opcode == 10)
            && app'.closed == app.closed && app'.pongs == app.pongs + Pings(frames)
            && ((forall i :: 0 <= i < |frames| ==> IsControl(frames[i])) ==>
                  app'.delivered == app.delivered && app'.message == app.message)
    decreases |frames|
  {
    hide HandleFrame;
    if frames == [] {
      assert app.pongs + [] == app.pongs;
    } else {
      var f, rest := frames[0], frames[1..];
      var app1 := HandleFrame(app, f);
      if IsControl(f) {
        HandleControl(app, f);
      } else {
        HandleData(app, f);
        DataStays(app, f);
        assert app.pongs + [] == app.pongs;
      }
      ControlEffects(app1, rest);
      hide HandleAll, Pings;
      assert forall i :: 1 <= i < |frames| ==> frames[i] == rest[i - 1];
      PingsStep(frames);
      Regroup(app.pongs, if f.opcode == 9 then [f.payload] else [], Pings(rest));
      if i :| 0 <= i < |frames| && frames[i].opcode == 10 {
        assert i == 0 || rest[i - 1].opcode == 10;
      }
      if i :| 0 <= i < |rest| && rest[i].opcode == 10 {
        assert frames[i + 1].opcode == 10;
      }
    }
  }

  lemma DataStays(app: App, f: Frame)
    requires !IsControl(f)
    ensures var app' := HandleFrame(app, f); app'.pongReceived == app.pongReceived && app'.closed == app.closed
  {
  }

  // ---------- the bytes of the standard ----------

  /** The first two bytes, bit by bit (section 5.2 of RFC 6455): the highest bit of the first says that the frame is the
      last one, and its low half the kind; the highest bit of the second that there is a mask. */
  lemma HeaderLayout(fin: bool, opcode: Byte, masked: bool, length7: Byte)
    requires opcode < 16 && length7 < 128
    ensures OpcodeByte(fin, opcode) as nat == (if fin then 0x80 else 0) + opcode as nat
    ensures LengthByte(masked, length7) as nat == (if masked then 0x80 else 0) + length7 as nat
  {
    HighBit(opcode);
    HighBit(length7);
  }

  lemma HighBit(b: Byte)
    requires b < 128
    ensures (0x80 | b) as nat == 0x80 + b as nat
  {
  }

  const HELLO: Bytes := [0x48, 0x65, 0x6c, 0x6c, 0x6f]
  const MASK: Bytes := [0x37, 0xfa, 0x21, 0x3d]

  lemma HelloMasked()
    ensures Masked(HELLO, MASK) == [0x7f, 0x9f, 0x4d, 0x51, 0x58]
  {
    var m := Masked(HELLO, MASK);
    assert m[0] == HELLO[0] ^ MASK[0] && m[1] == HELLO[1] ^ MASK[1] && m[2] == HELLO[2] ^ MASK[2];
    assert m[3] == HELLO[3] ^ MASK[3] && m[4] == HELLO[4] ^ MASK[0];
  }

  lemma LowByteLiteral(n: nat, b: Byte)
    requires n % 256 == b as nat
    ensures LowByte(n) == b
  {
    LowByteIs(n);
    hide LowByte;
  }

  lemma SmallLengths()
    ensures LowByte(5) == 5 && LowByte(3) == 3 && LowByte(2) == 2
    ensures BigEndian(0x100, 2) == [1, 0] && BigEndian(0x1_0000, 8) == [0, 0, 0, 0, 0, 1, 0, 0]
  {
    hide LowByte;
    LowByteLiteral(5, 5);
    LowByteLiteral(3, 3);
    LowByteLiteral(2, 2);
    LowByteLiteral(0, 0);
    LowByteLiteral(1, 1);
    LowByteLiteral(0x100, 0);
    LowByteLiteral(0x1_0000, 0);
    ZeroBytes(5);
    assert BigEndian(1, 1) == BigEndian(0, 0) + [LowByte(1)];
    assert BigEndian(0x100, 2) == BigEndian(1, 1) + [LowByte(0x100)];
    assert BigEndian(1, 6) == BigEndian(0, 5) + [LowByte(1)];
    assert BigEndian(0x100, 7) == BigEndian(1, 6) + [LowByte(0x100)];
    assert BigEndian(0x1_0000, 8) == BigEndian(0x100, 7) + [LowByte(0x1_0000)];
  }

  lemma {:induction false} ZeroBytes(width: nat)
    ensures BigEndian(0, width) == Zeros(width)
  {
    if width > 0 {
      LowByteLiteral(0, 0);
      ZeroBytes(width - 1);
      hide LowByte;
      assert BigEndian(0, width) == BigEndian(0, width - 1) + [LowByte(0)];
    }
  }

  /** The examples of section 5.7 of RFC 6455: a text in one frame, masked and not, and in two fragments; a ping and a
      masked pong; and two lengths that do not fit the header. */
  lemma Examples(data: Bytes)
    ensures Encode(Frame(true, 1, Len7, None, HELLO)) == [0x81, 0x05] + HELLO
    ensures Encode(Frame(true, 1, Len7, Some(MASK), HELLO))
         == [0x81, 0x85, 0x37, 0xfa, 0x21, 0x3d, 0x7f, 0x9f, 0x4d, 0x51, 0x58]
    ensures Encode(Frame(false, 1, Len7, None, HELLO[..3])) == [0x01, 0x03, 0x48, 0x65, 0x6c]
    ensures Encode(Frame(true, 0, Len7, None, HELLO[3..])) == [0x80, 0x02, 0x6c, 0x6f]
    ensures Encode(Frame(true, 9, Len7, None, HELLO)) == [0x89, 0x05] + HELLO
    ensures Encode(Frame(true, 10, Len7, Some(MASK), HELLO))
         == [0x8a, 0x85, 0x37, 0xfa, 0x21, 0x3d, 0x7f, 0x9f, 0x4d, 0x51, 0x58]
    ensures |data| == 0x100 ==> Encode(Frame(true, 2, Len16, None, data)) == [0x82, 0x7e, 0x01, 0x00] + data
    ensures |data| == 0x1_0000 ==>
              Encode(Frame(true, 2, Len64, None, data)) == [0x82, 0x7f, 0, 0, 0, 0, 0, 1, 0, 0] + data
  {
    hide Encode;
    ShortExamples();
    MaskedExamples();
    LongExamples(data);
  }

  lemma ShortExamples()
    ensures Encode(Frame(true, 1, Len7, None, HELLO)) == [0x81, 0x05] + HELLO
    ensures Encode(Frame(false, 1, Len7, None, HELLO[..3])) == [0x01, 0x03, 0x48, 0x65, 0x6c]
    ensures Encode(Frame(true, 0, Len7, None, HELLO[3..])) == [0x80, 0x02, 0x6c, 0x6f]
    ensures Encode(Frame(true, 9, Len7, None, HELLO)) == [0x89, 0x05] + HELLO
  {
    SmallLengths();
    hide LowByte, BigEndian, Masked;
  }

  lemma MaskedExamples()
    ensures Encode(Frame(true, 1, Len7, Some(MASK), HELLO))
         == [0x81, 0x85, 0x37, 0xfa, 0x21, 0x3d, 0x7f, 0x9f, 0x4d, 0x51, 0x58]
    ensures Encode(Frame(true, 10, Len7, Some(MASK), HELLO))
         == [0x8a, 0x85, 0x37, 0xfa, 0x21, 0x3d, 0x7f, 0x9f, 0x4d, 0x51, 0x58]
  {
    HelloMasked();
    SmallLengths();
    hide Masked, LowByte, BigEndian;
  }

  lemma LongExamples(data: Bytes)
    ensures |data| == 0x100 ==> Encode(Frame(true, 2, Len16, None, data)) == [0x82, 0x7e, 0x01, 0x00] + data
    ensures |data| == 0x1_0000 ==>
              Encode(Frame(true, 2, Len64, None, data)) == [0x82, 0x7f, 0, 0, 0, 0, 0, 1, 0, 0] + data
  {
    SmallLengths();
    assert Zeros(5) == [0, 0, 0, 0, 0];
    hide Masked, LowByte, BigEndian, Zeros;
  }
}
