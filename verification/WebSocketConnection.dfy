/** A WebSocket connection as it runs: headers are written through the host's byte order, and each read changes the
    connection's fields. */
module WebSocketConnection {
  import opened Basics
  import opened Sha256Spec
  import opened Difficulty
  import opened WebSocket
  import Sha256Stream

  // ---------- byte order ----------

  const WORD32: nat := 0x1_0000_0000

  /** A 32-bit number with its bytes swapped, as a little-endian host does for the network. */
  function Htonl(n: nat): (r: nat)
    ensures r < WORD32
  {
    n % 256 * 0x100_0000 + n / 0x100 % 256 * 0x1_0000 + n / 0x1_0000 % 256 * 0x100 + n / 0x100_0000 % 256
  }

  function Htons(n: nat): (r: nat)
    ensures r < 0x1_0000
  {
    n % 256 * 0x100 + n / 0x100 % 256
  }

  /** A number in the memory of a little-endian host. */
  function Memory16(n: nat): Bytes {
    [LowByte(n), LowByte(n / 0x100)]
  }

  function Memory32(n: nat): Bytes {
    [LowByte(n), LowByte(n / 0x100), LowByte(n / 0x1_0000), LowByte(n / 0x100_0000)]
  }

  function Memory64(n: nat): Bytes {
    Memory32(n % WORD32) + Memory32(n / WORD32)
  }

  lemma LowByteMod(a: nat, b: nat)
    requires a % 256 == b % 256
    ensures LowByte(a) == LowByte(b)
  {
  }

  lemma SwappedDigits(d0: nat, d1: nat, d2: nat, d3: nat)
    requires d0 < 256 && d1 < 256 && d2 < 256 && d3 < 256
    ensures var x := d0 * 0x100_0000 + d1 * 0x1_0000 + d2 * 0x100 + d3;
            x % 256 == d3 && x / 0x100 % 256 == d2 && x / 0x1_0000 % 256 == d1 && x / 0x100_0000 % 256 == d0
  {
    var x := d0 * 0x100_0000 + d1 * 0x1_0000 + d2 * 0x100 + d3;
    assert x / 0x100 == d0 * 0x1_0000 + d1 * 0x100 + d2;
    assert x / 0x1_0000 == d0 * 0x100 + d1;
    assert x / 0x100_0000 == d0;
  }

  lemma SwappedInMemory(n: nat)
    ensures Memory32(Htonl(n)) == [LowByte(n / 0x100_0000), LowByte(n / 0x1_0000), LowByte(n / 0x100), LowByte(n)]
  {
    SwappedDigits(n % 256, n / 0x100 % 256, n / 0x1_0000 % 256, n / 0x100_0000 % 256);
    var x := Htonl(n);
    LowByteMod(x, n / 0x100_0000);
    LowByteMod(x / 0x100, n / 0x1_0000);
    LowByteMod(x / 0x1_0000, n / 0x100);
    LowByteMod(x / 0x100_0000, n);
    hide LowByte;
  }

  lemma HighHalfSwapped(size: nat)
    ensures Memory32(Htonl(size / WORD32)) == [
      LowByte(size / 0x100_0000_0000_0000), LowByte(size / 0x1_0000_0000_0000), LowByte(size / 0x100_0000_0000),
          LowByte(size / WORD32)]
  {
    hide LowByte, Htonl, Memory32;
    SwappedInMemory(size / WORD32);
    Sha256Stream.Quotients(size);
  }

  lemma LowHalfSwapped(size: nat)
    ensures Memory32(Htonl(size % WORD32))
            == [LowByte(size / 0x100_0000), LowByte(size / 0x1_0000), LowByte(size / 0x100), LowByte(size)]
  {
    hide LowByte, Htonl, Memory32;
    SwappedInMemory(size % WORD32);
    LowHalf(size);
  }

  /** Written through the host's byte order, the length of a frame is in network order. */
  lemma LengthInMemory(size: nat)
    requires size < LENGTHS
    ensures Memory64(Htonl(size % WORD32) * WORD32 + Htonl(size / WORD32)) == BigEndian(size, 8)
  {
    hide LowByte, BigEndian, Htonl, Memory32;
    HalvesOf(Htonl(size % WORD32), Htonl(size / WORD32));
    HighHalfSwapped(size);
    LowHalfSwapped(size);
    Sha256Stream.LengthBytes(size);
  }

  lemma HalvesOf(a: nat, b: nat)
    requires b < WORD32
    ensures (a * WORD32 + b) / WORD32 == a && (a * WORD32 + b) % WORD32 == b
  {
  }

  lemma LowHalf(n: nat)
    ensures LowByte(n % WORD32) == LowByte(n) && LowByte(n % WORD32 / 0x100) == LowByte(n / 0x100)
    ensures LowByte(n % WORD32 / 0x1_0000) == LowByte(n / 0x1_0000)
            && LowByte(n % WORD32 / 0x100_0000) == LowByte(n / 0x100_0000)
  {
    LowHalfDigits(n);
    LowByteMod(n % WORD32, n);
    LowByteMod(n % WORD32 / 0x100, n / 0x100);
    LowByteMod(n % WORD32 / 0x1_0000, n / 0x1_0000);
    LowByteMod(n % WORD32 / 0x100_0000, n / 0x100_0000);
    hide LowByte;
  }

  lemma LowHalfDigits(n: nat)
    ensures n % WORD32 % 256 == n % 256 && n % WORD32 / 0x100 % 256 == n / 0x100 % 256
    ensures n % WORD32 / 0x1_0000 % 256 == n / 0x1_0000 % 256 && n % WORD32 / 0x100_0000 % 256 == n / 0x100_0000 % 256
  {
    SplitsAt32(n);
    FirstDigit(n / WORD32, n % WORD32);
    SecondDigit(n / WORD32, n % WORD32);
    ThirdDigit(n / WORD32, n % WORD32);
    FourthDigit(n / WORD32, n % WORD32);
  }

  lemma SplitsAt32(n: nat)
    ensures n / WORD32 * WORD32 + n % WORD32 == n
  {
  }

  lemma FirstDigit(high: nat, low: nat)
    ensures (high * WORD32 + low) % 256 == low % 256
  {
  }

  lemma Quotient(q: nat, r: nat, unit: nat)
    requires r < unit && (unit == 0x100 || unit == 0x1_0000 || unit == 0x100_0000)
    ensures (unit * q + r) / unit == q
  {
  }

  lemma DropHigh(high: nat, low: nat)
    ensures (high * 0x100 + low) % 0x100 == low % 0x100
  {
  }

  lemma SecondDigit(high: nat, low: nat)
    ensures (high * WORD32 + low) / 0x100 % 256 == low / 0x100 % 256
  {
    assert high * WORD32 + low == 0x100 * (high * 0x100_0000 + low / 0x100) + low % 0x100;
    Quotient(high * 0x100_0000 + low / 0x100, low % 0x100, 0x100);
    DropHigh(high * 0x1_0000, low / 0x100);
  }

  lemma ThirdDigit(high: nat, low: nat)
    ensures (high * WORD32 + low) / 0x1_0000 % 256 == low / 0x1_0000 % 256
  {
    assert high * WORD32 + low == 0x1_0000 * (high * 0x1_0000 + low / 0x1_0000) + low % 0x1_0000;
    Quotient(high * 0x1_0000 + low / 0x1_0000, low % 0x1_0000, 0x1_0000);
    DropHigh(high * 0x100, low / 0x1_0000);
  }

  lemma FourthDigit(high: nat, low: nat)
    ensures (high * WORD32 + low) / 0x100_0000 % 256 == low / 0x100_0000 % 256
  {
    assert high * WORD32 + low == 0x100_0000 * (high * 0x100 + low / 0x100_0000) + low % 0x100_0000;
    Quotient(high * 0x100 + low / 0x100_0000, low % 0x100_0000, 0x100_0000);
    DropHigh(high, low / 0x100_0000);
  }

  lemma ShortInMemory(size: nat)
    requires size < 0x1_0000
    ensures Memory16(Htons(size)) == BigEndian(size, 2)
  {
    var x := Htons(size);
    assert x % 256 == size / 0x100 % 256 && x / 0x100 == size % 256;
    LowByteMod(x, size / 0x100);
    LowByteMod(x / 0x100, size);
    assert BigEndian(size / 0x100, 1) == BigEndian(size / 0x100 / 0x100, 0) + [LowByte(size / 0x100)];
    hide LowByte;
  }

  function FormOf(size: nat): Form {
    if size < 126 then Len7 else if size < 0x1_0000 then Len16 else Len64
  }

  /** The first byte of such a frame, as it is added up. */
  function FinPlus(opcode: Byte): Byte
    requires opcode < 16
  {
    0x80 + opcode
  }

  lemma TopBit(opcode: Byte)
    requires opcode < 16
    ensures FinPlus(opcode) == OpcodeByte(true, opcode)
  {
  }

  lemma UnmaskedByte(length7: Byte)
    ensures LengthByte(false, length7) == length7
  {
  }

  lemma HeaderEncodes(opcode: Byte, size: nat, payload: Bytes)
    requires opcode < 16 && size < LENGTHS && |payload| == size
    ensures var f := Frame(true, opcode, FormOf(size), None, payload);
            GoodFrame(f) && Encode(f) == [FinPlus(opcode), Length7(FormOf(size), size)]
                + ExtendedLength(FormOf(size), size) + payload
  {
    TopBit(opcode);
    UnmaskedByte(Length7(FormOf(size), size));
    hide FinPlus, OpcodeByte, LengthByte, Length7, ExtendedLength;
  }

  /** Writes the header of an unmasked frame that is a whole message: what comes behind it makes it the encoding of
      that frame, in the shortest of the three forms of its length. */
  method BuildHeader(opcode: Byte, size: nat) returns (header: Bytes)
    requires opcode < 16 && size < LENGTHS
    ensures forall payload: Bytes :: |payload| == size ==>
              var f := Frame(true, opcode, FormOf(size), None, payload); GoodFrame(f) && header + payload == Encode(f)
  {
    hide FinPlus, LowByte, Memory16, Memory64, Htons, Htonl, BigEndian, Encode;
    if size < 126 {
      header := [FinPlus(opcode), LowByte(size)];
    } else if size < 0x1_0000 {
      ShortInMemory(size);
      header := [FinPlus(opcode), 126] + Memory16(Htons(size));
    } else {
      LengthInMemory(size);
      header := [FinPlus(opcode), 127] + Memory64(Htonl(size % WORD32) * WORD32 + Htonl(size / WORD32));
    }
    assert header == [FinPlus(opcode), Length7(FormOf(size), size)] + ExtendedLength(FormOf(size), size);
    forall payload: Bytes | |payload| == size
      ensures var f := Frame(true, opcode, FormOf(size), None, payload); GoodFrame(f) && header + payload == Encode(f) {
      HeaderEncodes(opcode, size, payload);
    }
  }

  // ---------- reading ----------

  /** A number as a little-endian host finds it in its memory. */
  function Load16(d: Bytes): nat
    requires |d| == 2
  {
    d[0] as nat + d[1] as nat * 0x100
  }

  function Load32(d: Bytes): nat
    requires |d| == 4
  {
    d[0] as nat + d[1] as nat * 0x100 + d[2] as nat * 0x1_0000 + d[3] as nat * 0x100_0000
  }

  lemma {:induction false} ValueOfFew(d: Bytes)
    ensures |d| == 2 ==> ValueOfBytes(d) == d[0] as nat * 0x100 + d[1] as nat
    ensures |d| == 4 ==>
              ValueOfBytes(d) == d[0] as nat * 0x100_0000 + d[1] as nat * 0x1_0000 + d[2] as nat * 0x100 + d[3] as nat
  {
    if |d| == 2 || |d| == 4 {
      assert d[..|d| - 1][..|d| - 2] == d[..|d| - 2];
      assert ValueOfBytes(d[..0]) == 0;
      if |d| == 4 {
        ValueOfFew(d[..2]);
      }
    }
  }

  lemma LoadedDigits(d0: nat, d1: nat, d2: nat, d3: nat)
    requires d0 < 256 && d1 < 256 && d2 < 256 && d3 < 256
    ensures Htonl(d0 + d1 * 0x100 + d2 * 0x1_0000 + d3 * 0x100_0000)
            == d0 * 0x100_0000 + d1 * 0x1_0000 + d2 * 0x100 + d3
    ensures Htons(d0 + d1 * 0x100) == d0 * 0x100 + d1
  {
    SwappedDigits(d3, d2, d1, d0);
  }

  lemma LengthLoaded(d: Bytes)
    ensures |d| == 2 ==> Htons(Load16(d)) == ValueOfBytes(d)
    ensures |d| == 4 ==> Htonl(Load32(d)) == ValueOfBytes(d)
  {
    ValueOfFew(d);
    if |d| == 2 {
      LoadedDigits(d[0] as nat, d[1] as nat, 0, 0);
    } else if |d| == 4 {
      LoadedDigits(d[0] as nat, d[1] as nat, d[2] as nat, d[3] as nat);
    }
    hide Htonl, Htons, ValueOfBytes;
  }

  lemma LongLengthLoaded(d: Bytes)
    requires |d| == 8
    ensures Htonl(Load32(d[..4])) * WORD32 + Htonl(Load32(d[4..])) == ValueOfBytes(d)
  {
    LengthLoaded(d[..4]);
    LengthLoaded(d[4..]);
    ValueSplits(d[..4], d[4..]);
    LengthRanges();
    assert d == d[..4] + d[4..];
    assert Pow2(32) == WORD32 by {
      assert Pow2(8) == 256;
      Pow2Adds(8, 8);
      Pow2Adds(16, 16);
    }
    hide Htonl, Load32, ValueOfBytes, Pow2;
  }

  class Connection {
    var state: ReadState
    var miniHeader: bv16
    var remaining: nat
    var hasMask: bool
    var mask: Bytes
    var fragment: Bytes
    const maxPayload: nat
    var message: Bytes
    var isBinary: bool
    /** The messages handed to the application, and the pongs sent. */
    var delivered: seq<(Bytes, bool)>
    var pongs: seq<Bytes>
    var pongReceived: bool
    var closed: Option<(nat, Bytes)>

    ghost function At(): Reader
      reads this
    {
      Reader(state, miniHeader, remaining, hasMask, mask, fragment, maxPayload,
             App(message, isBinary, delivered, pongs, pongReceived, closed))
    }

    constructor (maxPayload: nat)
      ensures Idle(At(), maxPayload, App([], false, [], [], false, None))
    {
      state, miniHeader, remaining, hasMask, mask, fragment := MiniHeader, 0, 0, false, [0, 0, 0, 0], [];
      this.maxPayload := maxPayload;
      message, isBinary, delivered, pongs, pongReceived, closed := [], false, [], [], false, None;
    }

    /** The bytes of one read arrive. */
    method OnRead(bytes: Bytes)
      requires |mask| == 4 && Admissible(At(), |bytes|)
      modifies this
      ensures At() == Take(old(At()), bytes) && |mask| == 4
    {
      hide MiniHeaderOf, HasMaskBit, Low7, Finish, ValueOfBytes, Htonl, Htons;
      match state
      case MiniHeader =>
        miniHeader := MiniHeaderOf(bytes[0], bytes[1]);
        hasMask := HasMaskBit(miniHeader);
        if Low7(miniHeader) == 127 {
          state := ReadLen64;
        } else if Low7(miniHeader) == 126 {
          state := ReadLen16;
        } else {
          remaining := Low7(miniHeader);
          state := ReadMask;
          CheckLength();
        }
      case ReadLen16 =>
        LengthLoaded(bytes);
        remaining := Htons(Load16(bytes));
        state := ReadMask;
        CheckLength();
      case ReadLen64 =>
        LongLengthLoaded(bytes);
        remaining := Htonl(Load32(bytes[..4])) * WORD32 + Htonl(Load32(bytes[4..]));
        state := ReadMask;
        CheckLength();
      case ReadMask =>
        mask := bytes;
        state := ReadPayload;
        FinishIfEmpty();
      case ReadPayload =>
        fragment := fragment + bytes;
        remaining := remaining - |bytes|;
        FinishIfEmpty();
    }

    /** A sequence of reads. */
    method OnReads(pieces: seq<Bytes>)
      requires |mask| == 4 && Admits(At(), pieces)
      modifies this
      ensures |mask| == 4 && At() == Reads(old(At()), pieces)
    {
      assert pieces[0..] == pieces;
      for i := 0 to |pieces|
        invariant |mask| == 4 && Admits(At(), pieces[i..]) && Reads(At(), pieces[i..]) == old(Reads(At(), pieces))
      {
        hide Take, Admissible;
        assert pieces[i..][0] == pieces[i] && pieces[i..][1..] == pieces[i + 1..];
        OnRead(pieces[i]);
      }
    }

    /** The length is known: a frame that is too long ends the connection, one without a mask goes on. */
    method CheckLength()
      requires |mask| == 4 && state == ReadMask
      modifies this
      ensures At() == Settle(old(At()))
    {
      hide Finish;
      if remaining > maxPayload {
        state := Stopped;
      } else if !hasMask {
        state := ReadPayload;
        FinishIfEmpty();
      }
    }

    method FinishIfEmpty()
      requires |mask| == 4 && state == ReadPayload
      modifies this
      ensures At() == SettlePayload(old(At()))
    {
      hide Finish;
      if remaining == 0 {
        HandleFragment();
      }
    }

    /** Unmasks the fragment in place. */
    method Unmask()
      requires |mask| == 4
      modifies this`fragment
      ensures fragment == Masked(old(fragment), mask)
    {
      hide XorByte;
      ghost var raw := fragment;
      for i := 0 to |fragment|
        invariant |fragment| == |raw|
        invariant forall j :: 0 <= j < i ==> fragment[j] == XorByte(raw[j], mask[j % 4])
        invariant forall j :: i <= j < |raw| ==> fragment[j] == raw[j]
      {
        fragment := fragment[i := XorByte(fragment[i], mask[i % 4])];
      }
    }

    /** A fragment is complete: it is part of a message, or a control frame of its own. */
    method HandleFragment()
      requires |mask| == 4
      modifies this
      ensures At() == Finish(old(At()))
    {
      hide IsFin, Opcode, Masked, Handle;
      if hasMask {
        Unmask();
      }
      state := MiniHeader;
      HandleOpcode(Opcode(miniHeader));
      fragment := [];
    }

    ghost function AppAt(): App
      reads this
    {
      App(message, isBinary, delivered, pongs, pongReceived, closed)
    }

    method HandleOpcode(opcode: bv16)
      modifies this`message, this`isBinary, this`delivered, this`pongs, this`pongReceived, this`closed, this`state
      ensures AppAt() == Handle(old(AppAt()), IsFin(miniHeader), opcode, fragment)
      ensures state == if opcode == 8 then Stopped else old(state)
    {
      hide IsFin;
      if opcode == 0 {
        AddToMessage();
      } else if opcode == 1 {
        isBinary := false;
        AddToMessage();
      } else if opcode == 2 {
        isBinary := true;
        AddToMessage();
      } else if opcode == 8 {
        OnCloseFrame();
      } else if opcode == 9 {
        pongs := pongs + [fragment];
      } else if opcode == 10 {
        pongReceived := true;
      }
    }

    method AddToMessage()
      modifies this`message, this`delivered
      ensures var whole := old(message) + fragment;
              if IsFin(miniHeader) then message == [] && delivered == old(delivered) + [(whole, isBinary)]
              else message == whole && delivered == old(delivered)
    {
      message := message + fragment;
      if IsFin(miniHeader) {
        delivered := delivered + [(message, isBinary)];
        message := [];
      }
    }

    method OnCloseFrame()
      modifies this`closed, this`state
      ensures state == Stopped
      ensures closed == Some(if |fragment| >= 2 then (fragment[0] as nat * 256 + fragment[1] as nat, fragment[2..])
              else (NO_STATUS, fragment))
    {
      var status, start := NO_STATUS, 2;
      if |fragment| >= 2 {
        ValueOfFew(fragment[..2]);
        LengthLoaded(fragment[..2]);
        status := Htons(Load16(fragment[..2]));
      } else {
        start := 0;
      }
      closed := Some((status, fragment[start..]));
      state := Stopped;
    }
  }
}
