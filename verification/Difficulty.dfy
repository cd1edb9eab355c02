/** The proof of work: the test of leading zero bits, as the server and the client write it, and the search for a
    number that passes it. */
module Difficulty {
  import opened Basics
  import opened Sha256Spec
  import opened Decimals

  /** A digest as a number, its first byte most significant. */
  function ValueOfBytes(d: seq<Byte>): nat {
    if d == [] then 0 else ValueOfBytes(d[..|d| - 1]) * 256 + d[|d| - 1] as nat
  }

  lemma {:induction false} ValueSplits(a: seq<Byte>, b: seq<Byte>)
    ensures ValueOfBytes(a + b) == ValueOfBytes(a) * Pow2(8 * |b|) + ValueOfBytes(b)
    ensures ValueOfBytes(b) < Pow2(8 * |b|)
    decreases |b|
  {
    if b == [] {
      assert a + b == a;
    } else {
      var front := b[..|b| - 1];
      assert (a + b)[..|a + b| - 1] == a + front;
      ValueSplits(a, front);
      Pow2Adds(8 * |front|, 8);
      assert Pow2(8) == 256;
      Scale(ValueOfBytes(a), Pow2(8 * |front|), ValueOfBytes(front));
    }
  }

  lemma Scale(a: nat, p: nat, b: nat)
    ensures (a * p + b) * 256 == a * (p * 256) + b * 256
    ensures b < p ==> b * 256 + 255 < p * 256
  {
  }

  /** The byte with its first `rem` bits set. */
  function Mask(rem: nat): Byte
    requires 0 < rem < 8
  {
    0xFF << (8 - rem)
  }

  lemma MaskTests(b: Byte, rem: nat)
    requires 0 < rem < 8
    ensures b & Mask(rem) == 0 <==> b as nat < Pow2(8 - rem)
  {
    Masks();
    Powers();
    MaskBounds(b);
    hide Mask, Pow2;
  }

  lemma Masks()
    ensures Mask(1) == 0x80 && Mask(2) == 0xC0 && Mask(3) == 0xE0 && Mask(4) == 0xF0
    ensures Mask(5) == 0xF8 && Mask(6) == 0xFC && Mask(7) == 0xFE
  {
  }

  lemma Powers()
    ensures Pow2(7) == 128 && Pow2(6) == 64 && Pow2(5) == 32 && Pow2(4) == 16 && Pow2(3) == 8 && Pow2(2) == 4
            && Pow2(1) == 2
  {
  }

  lemma MaskBounds(b: Byte)
    ensures (b & 0x80 == 0 <==> b as nat < 128) && (b & 0xC0 == 0 <==> b as nat < 64)
            && (b & 0xE0 == 0 <==> b as nat < 32)
    ensures (b & 0xF0 == 0 <==> b as nat < 16) && (b & 0xF8 == 0 <==> b as nat < 8) && (b & 0xFC == 0 <==> b as nat < 4)
    ensures b & 0xFE == 0 <==> b as nat < 2
  {
  }

  /** Whether a digest begins with that many zero bits. */
  predicate ZeroBits(d: seq<Byte>, bits: nat)
    requires bits <= 8 * |d|
  {
    && (forall i :: 0 <= i < bits / 8 ==> d[i] == 0)
    && (bits % 8 > 0 ==> d[bits / 8] & Mask(bits % 8) == 0)
  }

  lemma {:induction false} ValueZero(d: seq<Byte>)
    ensures ValueOfBytes(d) == 0 <==> forall i :: 0 <= i < |d| ==> d[i] == 0
    decreases |d|
  {
    if d != [] {
      ValueZero(d[..|d| - 1]);
      var last := d[|d| - 1];
      assert last as nat == 0 <==> last == 0;
      assert forall i :: 0 <= i < |d| - 1 ==> d[..|d| - 1][i] == d[i];
    }
  }

  /** The leading bytes are zero exactly if they are worth nothing. */
  lemma LeadingZeros(d: seq<Byte>, full: nat)
    requires full <= |d|
    ensures d == d[..full] + d[full..]
    ensures (forall i :: 0 <= i < full ==> d[i] == 0) <==> ValueOfBytes(d[..full]) == 0
  {
    ValueZero(d[..full]);
    hide ValueOfBytes;
    assert forall i :: 0 <= i < full ==> d[..full][i] == d[i];
  }

  /** The bit test is an arithmetic bound: it holds exactly if the digest is below 2^(8n - bits). */
  lemma ZeroBitsBound(d: seq<Byte>, bits: nat)
    requires bits <= 8 * |d|
    ensures ZeroBits(d, bits) <==> ValueOfBytes(d) < Pow2(8 * |d| - bits)
  {
    hide ValueOfBytes, Pow2, Mask;
    var full, rem := bits / 8, bits % 8;
    var a, b := d[..full], d[full..];
    LeadingZeros(d, full);
    ValueSplits(a, b);
    Pow2Adds(8 * |b| - rem, rem);
    TopPart(ValueOfBytes(a), Pow2(8 * |b|), ValueOfBytes(b), Pow2(8 * |b| - rem), Pow2(rem));
    if rem > 0 {
      FirstByte(b, rem);
    } else {
      PowZero();
    }
  }

  lemma PowZero()
    ensures Pow2(0) == 1
  {
  }

  lemma TopPart(a: nat, p: nat, b: nat, q: nat, r: nat)
    requires b < p && p == q * r && 0 < q && 0 < r
    ensures a * p + b < q <==> a == 0 && b < q
  {
    assert q <= p;
    if a > 0 {
      assert a * p >= p;
    }
  }

  lemma FirstByte(b: seq<Byte>, rem: nat)
    requires b != [] && 0 < rem < 8
    ensures b[0] & Mask(rem) == 0 <==> ValueOfBytes(b) < Pow2(8 * |b| - rem)
  {
    hide ValueOfBytes, Pow2, Mask;
    MaskTests(b[0], rem);
    var rest := b[1..];
    OneByte(b);
    ValueSplits([b[0]], rest);
    Pow2Adds(8 - rem, 8 * |rest|);
    assert 8 - rem + 8 * |rest| == 8 * |b| - rem;
    Digits(b[0] as nat, Pow2(8 * |rest|), ValueOfBytes(rest), Pow2(8 - rem));
  }

  lemma OneByte(b: seq<Byte>)
    requires b != []
    ensures b == [b[0]] + b[1..] && ValueOfBytes([b[0]]) == b[0] as nat
  {
    assert [b[0]][..0] == [];
  }

  lemma Digits(a: nat, p: nat, b: nat, k: nat)
    requires b < p
    ensures a * p + b < k * p <==> a < k
  {
    if a < k {
      assert (a + 1) * p <= k * p;
    } else {
      assert a * p >= k * p;
    }
  }

  /** A number of bits, as both programs hold it. */
  type Bits = n: int | -0x8000_0000 <= n < 0x8000_0000

  /** A digest meets a difficulty if, as a number, it is below 2^(8n - bits). A difficulty below zero asks for nothing,
      and none above 8n is met. */
  predicate MeetsBound(d: seq<Byte>, bits: Bits) {
    bits <= 8 * |d| && ValueOfBytes(d) < Pow2(8 * |d| - bits)
  }

  lemma NothingAsked(d: seq<Byte>, bits: Bits)
    requires bits <= 0
    ensures MeetsBound(d, bits)
  {
    ValueSplits([], d);
    Pow2Grows(8 * |d|, 8 * |d| - bits);
    hide ValueOfBytes, Pow2;
    assert [] + d == d;
  }

  /** The server's test reads behind a digest of zeros if more bits are asked for than the digest has. */
  predicate StaysInside(digest: seq<Byte>, bits: Bits) {
    bits <= 8 * |digest| || exists i :: 0 <= i < |digest| && digest[i] != 0
  }

  /** The server's test. */
  method MeetsDifficulty(digest: seq<Byte>, bits: Bits) returns (r: bool)
    requires StaysInside(digest, bits)
    ensures r == MeetsBound(digest, bits)
  {
    hide ValueOfBytes, Pow2;
    if bits <= 0 {
      NothingAsked(digest, bits);
    } else if bits <= 8 * |digest| {
      ZeroBitsBound(digest, bits);
    }
    var n: int := bits;
    var full := if n < 0 then -(-n / 8) else n / 8;
    var rem := n - full * 8;
    var i: nat := 0;
    while i < full
      invariant i <= |digest| && (full >= 0 ==> i <= full) && (full < 0 ==> i == 0)
      invariant forall j :: 0 <= j < i ==> digest[j] == 0
    {
      if digest[i] != 0 {
        return false;
      }
      i := i + 1;
    }
    if rem > 0 {
      var mask: Byte := 0xFF << (8 - rem);
      if digest[full] & mask != 0 {
        return false;
      }
    }
    return true;
  }

  // ---------- the client ----------

  /** The client computes with 32-bit words and cuts its mask to a byte. */
  function WideMask(rem: nat): Word
    requires 0 < rem < 8
  {
    (0xFF << (8 - rem)) & 0xFF
  }

  lemma WideMasks()
    ensures WideMask(1) == 0x80 && WideMask(2) == 0xC0 && WideMask(3) == 0xE0 && WideMask(4) == 0xF0
    ensures WideMask(5) == 0xF8 && WideMask(6) == 0xFC && WideMask(7) == 0xFE
  {
  }

  lemma WideTests(b: Byte)
    ensures (b as Word & 0x80 == 0 <==> b & 0x80 == 0) && (b as Word & 0xC0 == 0 <==> b & 0xC0 == 0)
    ensures (b as Word & 0xE0 == 0 <==> b & 0xE0 == 0) && (b as Word & 0xF0 == 0 <==> b & 0xF0 == 0)
    ensures (b as Word & 0xF8 == 0 <==> b & 0xF8 == 0) && (b as Word & 0xFC == 0 <==> b & 0xFC == 0)
    ensures b as Word & 0xFE == 0 <==> b & 0xFE == 0
  {
  }

  lemma WideMaskTests(b: Byte, rem: nat)
    requires 0 < rem < 8
    ensures b as Word & WideMask(rem) == 0 <==> b & Mask(rem) == 0
  {
    Masks();
    WideMasks();
    WideTests(b);
    hide *;
  }

  /** An element of a digest; there is none outside its range. */
  function ByteAt(digest: seq<Byte>, i: int): Option<Byte> {
    if 0 <= i < |digest| then Some(digest[i]) else None
  }

  /** What the client accepts: the same bound; and a digest of zeros passes for up to seven bits that it does not
      have, since a missing element has no bits set. */
  predicate ClientAccepts(d: seq<Byte>, bits: Bits) {
    if bits <= 8 * |d| then MeetsBound(d, bits) else bits < 8 * |d| + 8 && ValueOfBytes(d) == 0
  }

  /** The client's test, for any difficulty. */
  method ClientMeetsDifficulty(digest: seq<Byte>, bits: Bits) returns (r: bool)
    ensures r == ClientAccepts(digest, bits)
  {
    hide ValueOfBytes, Pow2;
    if bits <= 0 {
      NothingAsked(digest, bits);
    } else if bits <= 8 * |digest| {
      ZeroBitsBound(digest, bits);
    } else {
      ValueZero(digest);
    }
    var full, rem := bits / 8, bits % 8;
    var i: nat := 0;
    while i < full
      invariant i <= |digest| && (full >= 0 ==> i <= full) && (full < 0 ==> i == 0)
      invariant forall j :: 0 <= j < i ==> digest[j] == 0
    {
      if ByteAt(digest, i) != Some(0) {
        return false;
      }
      i := i + 1;
    }
    if rem > 0 {
      var there := MaskedByte(digest, full, rem);
      if there {
        return false;
      }
    }
    return true;
  }

  /** Whether an element of the digest has one of its first bits set. */
  method MaskedByte(digest: seq<Byte>, full: int, rem: nat) returns (r: bool)
    requires 0 < rem < 8
    ensures r <==> 0 <= full < |digest| && digest[full] & Mask(rem) != 0
  {
    hide Mask;
    var mask: Word := (0xFF << (8 - rem)) & 0xFF;
    if full < 0 || full >= |digest| {
      return false;
    }
    WideMaskTests(digest[full], rem);
    assert mask == WideMask(rem);
    hide WideMask;
    return digest[full] as Word & mask != 0;
  }

  /** A string as the bytes that are hashed. */
  function BytesOf(s: string): (b: seq<Byte>)
    ensures |b| == |s|
  {
    seq(|s|, i requires 0 <= i < |s| => LowByte(s[i] as int))
  }

  /** The proof of work for a challenge. */
  predicate Proves(challenge: string, nonce: string, bits: Bits) {
    MeetsBound(Sha256(BytesOf(challenge) + BytesOf(nonce)), bits)
  }

  /** The proof of work as the client checks it. */
  predicate ClientProves(challenge: string, nonce: string, bits: Bits) {
    ClientAccepts(Sha256(BytesOf(challenge) + BytesOf(nonce)), bits)
  }

  /** The two agree on every difficulty that a digest can meet. */
  lemma ClientAgrees(challenge: string, nonce: string, bits: Bits)
    requires bits <= 256
    ensures ClientProves(challenge, nonce, bits) == Proves(challenge, nonce, bits)
  {
    hide Sha256, ValueOfBytes, Pow2;
  }

  const YIELD_EVERY: nat := 4096

  /** The client counts in a floating-point number, which stops growing here. */
  const LAST_COUNTER: nat := 0x20_0000_0000_0000

  /** The client's search, as long as it is left running: it returns the first number that proves its work, which is
      one that the server accepts, and finds none only if there is none among those tried. */
  method SolvePoW(challenge: string, difficulty: Bits, tries: nat) returns (r: Option<string>)
    ensures r.Some? ==> exists counter: nat ::
              && counter < tries && counter <= LAST_COUNTER && r.value == Decimal(counter)
              && ClientProves(challenge, r.value, difficulty)
              && forall k: nat :: k < counter ==> !ClientProves(challenge, Decimal(k), difficulty)
    ensures r.Some? && difficulty <= 256 ==> Proves(challenge, r.value, difficulty)
    ensures r.None? ==> forall k: nat :: k < tries && k <= LAST_COUNTER ==>
            !ClientProves(challenge, Decimal(k), difficulty)
  {
    hide Sha256, ValueOfBytes, Pow2, Decimal, MeetsBound, ClientAccepts;
    var challengeBytes := BytesOf(challenge);
    var counter: nat, tried: nat := 0, 0;
    while tried < tries
      invariant counter == if tried <= LAST_COUNTER then tried else LAST_COUNTER
      invariant forall k: nat :: k < tried && k <= LAST_COUNTER ==> !ClientProves(challenge, Decimal(k), difficulty)
    {
      ghost var start := tried;
      var i := 0;
      while i < YIELD_EVERY && tried < tries
        invariant tried == start + i && counter == if tried <= LAST_COUNTER then tried else LAST_COUNTER
        invariant forall k: nat :: k < tried && k <= LAST_COUNTER ==> !ClientProves(challenge, Decimal(k), difficulty)
      {
        var nonceStr := Decimal(counter);
        var digest := Sha256(challengeBytes + BytesOf(nonceStr));
        var meets := ClientMeetsDifficulty(digest, difficulty);
        if meets {
          assert ClientProves(challenge, nonceStr, difficulty);
          if difficulty <= 256 {
            ClientAgrees(challenge, nonceStr, difficulty);
          }
          return Some(nonceStr);
        }
        counter := if counter < LAST_COUNTER then counter + 1 else counter;
        tried, i := tried + 1, i + 1;
      }
    }
    return None;
  }
}
