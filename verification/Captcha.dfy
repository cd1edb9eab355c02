/** The captcha: challenge tokens that the server signs, and the ledger that lets each of them be used once. */
module Captcha {
  import opened Basics
  import opened Sha256Spec
  import opened Sha256Stream
  import opened Decimals
  import opened Difficulty
  import opened Hexadecimals

  // ---------- HMAC ----------

  const MESSAGE_LIMIT: nat := 0x2000_0000_0000_0000

  method Sha256Of(m: seq<Byte>) returns (d: seq<Byte>)
    requires |m| < MESSAGE_LIMIT
    ensures d == Sha256(m)
  {
    hide Sha256, Holds;
    var h := new SHA256();
    h.Update(m);
    assert h.message == m;
    d := h.Digest();
  }

  /** The digest of two pieces, hashed one after the other. */
  method Sha256OfTwo(a: seq<Byte>, b: seq<Byte>) returns (d: seq<Byte>)
    requires |a| + |b| < MESSAGE_LIMIT
    ensures d == Sha256(a + b)
  {
    hide Sha256, Holds;
    var h := new SHA256();
    h.Update(a);
    h.Update(b);
    assert h.message == a + b;
    d := h.Digest();
  }

  /** The padded key with a byte folded into every byte. */
  method PadKey(kPad: array<Byte>, pad: Byte) returns (r: array<Byte>)
    requires kPad.Length == BLOCK
    ensures fresh(r) && r[..] == XorAll(kPad[..], pad)
  {
    hide XorByte;
    r := new Byte[BLOCK];
    for i := 0 to BLOCK
      invariant forall j :: 0 <= j < i ==> r[j] == XorByte(kPad[j], pad)
    {
      r[i] := XorByte(kPad[i], pad);
    }
  }

  method FitKey(key: seq<Byte>) returns (kPad: array<Byte>)
    requires |key| < MESSAGE_LIMIT
    ensures fresh(kPad) && kPad[..] == BlockKey(key)
  {
    hide Sha256;
    kPad := new Byte[BLOCK](_ => 0);
    var short := key;
    if |key| > BLOCK {
      short := Sha256Of(key);
    }
    for i := 0 to |short|
      invariant kPad[..i] == short[..i]
      invariant forall j :: i <= j < BLOCK ==> kPad[j] == 0
    {
      kPad[i] := short[i];
    }
    assert kPad[..] == short + Zeros(BLOCK - |short|);
  }

  /** HMAC as it is computed, with a fresh hash for each of its passes. */
  method HmacSha256(key: seq<Byte>, msg: seq<Byte>) returns (mac: seq<Byte>)
    requires |key| < MESSAGE_LIMIT && |msg| + BLOCK < MESSAGE_LIMIT
    ensures mac == Hmac(key, msg)
  {
    hide Sha256, BlockKey, XorAll;
    var kPad := FitKey(key);
    var ipad := PadKey(kPad, 0x36);
    var opad := PadKey(kPad, 0x5C);
    var innerDigest := Sha256OfTwo(ipad[..], msg);
    mac := Sha256OfTwo(opad[..], innerDigest);
  }

  // ---------- tokens ----------

  function Nibble(n: Byte): char
    requires n < 16
  {
    if n < 10 then ('0' as int + n as int) as char else ('a' as int + n as int - 10) as char
  }

  function HexOf(d: seq<Byte>): (s: string)
    ensures |s| == 2 * |d|
  {
    if d == [] then "" else HexOf(d[..|d| - 1]) + [Nibble(d[|d| - 1] >> 4), Nibble(d[|d| - 1] & 0x0F)]
  }

  method BytesToHex(data: seq<Byte>) returns (s: string)
    ensures s == HexOf(data)
  {
    s := "";
    for i := 0 to |data|
      invariant s == HexOf(data[..i])
    {
      assert data[..i + 1][..i] == data[..i];
      hide Nibble;
      s := s + [Nibble(data[i] >> 4), Nibble(data[i] & 0x0F)];
    }
    assert data[..|data|] == data;
  }

  /** Where a character occurs for the first time from a position on. */
  function Find(s: string, c: char, from: nat): (r: Option<nat>)
    requires from <= |s|
    ensures r.None? ==> forall i :: from <= i < |s| ==> s[i] != c
    ensures r.Some? ==> from <= r.value < |s| && s[r.value] == c && forall i :: from <= i < r.value ==> s[i] != c
    decreases |s| - from
  {
    if from == |s| then None else if s[from] == c then Some(from) else Find(s, c, from + 1)
  }

  datatype Token = Token(nonceHex: string, exp: string, mac: string)

  /** The three parts of "a:b:c", if the text has that shape. */
  function Split3(s: string): Option<Token> {
    match Find(s, ':', 0)
    case None => None
    case Some(p1) =>
      match Find(s, ':', p1 + 1)
      case None => None
      case Some(p2) =>
        if Find(s, ':', p2 + 1).Some? then None else Some(Token(s[..p1], s[p1 + 1..p2], s[p2 + 1..]))
  }

  predicate NoColon(s: string) {
    forall i :: 0 <= i < |s| ==> s[i] != ':'
  }

  function Join3(t: Token): string {
    t.nonceHex + ":" + t.exp + ":" + t.mac
  }

  lemma FindIs(s: string, from: nat, p: nat)
    requires from <= p < |s| && s[p] == ':' && forall i :: from <= i < p ==> s[i] != ':'
    ensures Find(s, ':', from) == Some(p)
  {
  }

  lemma SplitsJoined(t: Token)
    requires NoColon(t.nonceHex) && NoColon(t.exp) && NoColon(t.mac)
    ensures Split3(Join3(t)) == Some(t)
  {
    var s := Join3(t);
    var p1 := |t.nonceHex|;
    var p2 := p1 + 1 + |t.exp|;
    JoinParts(t.nonceHex, t.exp, t.mac);
    hide Find, Join3;
    assert forall i :: 0 <= i < p1 ==> s[i] == s[..p1][i];
    assert forall i :: p1 + 1 <= i < p2 ==> s[i] == s[p1 + 1..p2][i - p1 - 1];
    assert forall i :: p2 + 1 <= i < |s| ==> s[i] == s[p2 + 1..][i - p2 - 1];
    FindIs(s, 0, p1);
    FindIs(s, p1 + 1, p2);
  }

  lemma JoinParts(a: string, b: string, c: string)
    ensures var s, p1, p2 := Join3(Token(a, b, c)), |a|, |a| + 1 + |b|;
            |s| == p2 + 1 + |c| && s[..p1] == a && s[p1] == ':' && s[p1 + 1..p2] == b && s[p2] == ':'
                && s[p2 + 1..] == c
  {
  }

  lemma JoinsSplit(s: string)
    requires Split3(s).Some?
    ensures var t := Split3(s).value; s == Join3(t) && NoColon(t.nonceHex) && NoColon(t.exp) && NoColon(t.mac)
  {
    hide Find;
    var p1 := Find(s, ':', 0).value;
    var p2 := Find(s, ':', p1 + 1).value;
    assert s == s[..p1] + ":" + s[p1 + 1..p2] + ":" + s[p2 + 1..];
  }

  /** Splitting undoes joining, and finds nothing in any other text. */
  lemma Split3Exact(s: string, t: Token)
    ensures Split3(s) == Some(t) <==> s == Join3(t) && NoColon(t.nonceHex) && NoColon(t.exp) && NoColon(t.mac)
  {
    hide *;
    if Split3(s) == Some(t) {
      JoinsSplit(s);
    } else if NoColon(t.nonceHex) && NoColon(t.exp) && NoColon(t.mac) {
      SplitsJoined(t);
    }
  }

  /** Compares without stopping at the first difference. */
  method CtEqualStr(a: string, b: string) returns (r: bool)
    requires AreBytes(a) && AreBytes(b)
    ensures r == (a == b)
  {
    if |a| != |b| {
      return false;
    }
    var diff: Byte := 0;
    for i := 0 to |a|
      invariant diff == 0 <==> a[..i] == b[..i]
    {
      ghost var before := diff;
      DifferenceSeen(diff, LowByte(a[i] as int), LowByte(b[i] as int));
      SameByte(a[i], b[i]);
      hide LowByte;
      diff := diff | (LowByte(a[i] as int) ^ LowByte(b[i] as int));
      assert a[..i + 1] == a[..i] + [a[i]] && b[..i + 1] == b[..i] + [b[i]];
    }
    assert a[..|a|] == a && b[..|b|] == b;
    return diff == 0;
  }

  lemma DifferenceSeen(diff: Byte, x: Byte, y: Byte)
    ensures diff | (x ^ y) == 0 <==> diff == 0 && x == y
  {
  }

  lemma SameByte(a: char, b: char)
    requires IsByte(a) && IsByte(b)
    ensures LowByte(a as int) == LowByte(b as int) <==> a == b
  {
    hide LowByte;
    LowByteIs(a as int);
    LowByteIs(b as int);
  }

  // ---------- numbers ----------

  /** The library's conversion to a signed 64-bit number: white space and a sign may come first, anything may follow
      the digits. None stands for the exceptions it throws. */
  function Stoll(s: string): Option<int> {
    match LeadingNumber(SkipSpaces(s))
    case None => None
    case Some(n) => if -0x8000_0000_0000_0000 <= n < 0x8000_0000_0000_0000 then Some(n) else None
  }

  /** Reading a printed 64-bit number gives the number. */
  lemma StollDecimal(n: int)
    requires -0x8000_0000_0000_0000 <= n < 0x8000_0000_0000_0000
    ensures Stoll(Decimal(n)) == Some(n)
  {
    LeadingDecimal(n);
    hide Decimal, LeadingNumber;
  }

  // ---------- the ledger ----------

  datatype VerifyResult = Accepted | Malformed | BadHmac | Expired | BadProof | Reused

  /** What is checked before the ledger is asked. */
  function Check(secret: seq<Byte>, challenge: string, nonce: string, bits: Bits, now: int): (r: VerifyResult)
  {
    match Split3(challenge)
    case None => Malformed
    case Some(t) =>
      if t.nonceHex == "" || t.exp == "" || t.mac == "" then Malformed
      else if HexOf(Hmac(secret, BytesOf(t.nonceHex + ":" + t.exp))) != t.mac then BadHmac
      else if Stoll(t.exp).None? then Malformed
      else if Stoll(t.exp).value <= now then Expired
      else if !Proves(challenge, nonce, bits) then BadProof
      else Accepted
  }

  type Ledger = map<string, int>

  /** The entries that have not expired. */
  function Kept(seen: Ledger, now: int): Ledger {
    map k | k in seen && seen[k] > now :: seen[k]
  }

  function Record(seen: Ledger, nonceHex: string, exp: int, now: int): (VerifyResult, Ledger) {
    var kept := Kept(seen, now);
    if nonceHex in kept then (Reused, kept) else (Accepted, kept[nonceHex := exp])
  }

  /** One submission: the answer, and the ledger after it. */
  function Verify(secret: seq<Byte>, seen: Ledger, e: Submission): (VerifyResult, Ledger)
  {
    var r := Check(secret, e.challenge, e.nonce, e.bits, e.now);
    if r != Accepted then (r, seen) else
      CheckedToken(secret, e);
      Record(seen, Split3(e.challenge).value.nonceHex, Stoll(Split3(e.challenge).value.exp).value, e.now)
  }

  datatype Submission = Submission(challenge: string, nonce: string, bits: Bits, now: int)

  lemma CheckedToken(secret: seq<Byte>, e: Submission)
    requires Check(secret, e.challenge, e.nonce, e.bits, e.now) == Accepted
    ensures HasToken(e)
    ensures Stoll(Split3(e.challenge).value.exp).value > e.now && Proves(e.challenge, e.nonce, e.bits)
  {
  }

  class CaptchaServer {
    const secret: seq<Byte>
    var seen: Ledger

    constructor (secret: seq<Byte>)
      ensures this.secret == secret && seen == map[]
    {
      this.secret := secret;
      seen := map[];
    }

    /** Drops the entries that have expired. */
    method GcLocked(now: int)
      modifies this`seen
      ensures seen == Kept(old(seen), now)
    {
      var left := seen.Keys;
      while left != {}
        invariant left <= seen.Keys <= old(seen).Keys
        invariant forall k :: k in seen ==> seen[k] == old(seen)[k] && (k in left || seen[k] > now)
        invariant forall k :: k in old(seen) && old(seen)[k] > now ==> k in seen
        decreases |left|
      {
        var k :| k in left;
        left := left - {k};
        if seen[k] <= now {
          seen := seen - {k};
        }
      }
      assert seen == Kept(old(seen), now);
    }

    method HmacHex(payload: string) returns (s: string)
      requires |secret| < MESSAGE_LIMIT && |payload| + BLOCK < MESSAGE_LIMIT
      ensures s == HexOf(Hmac(secret, BytesOf(payload)))
    {
      var mac := HmacSha256(secret, BytesOf(payload));
      s := BytesToHex(mac);
    }

    method VerifyChallenge(challenge: string, nonce: string, difficultyBits: Bits, now: int) returns (r: VerifyResult)
      requires AreBytes(challenge) && StaysInside(Sha256(BytesOf(challenge) + BytesOf(nonce)), difficultyBits)
      requires |secret| < MESSAGE_LIMIT && |challenge| + |nonce| + BLOCK < MESSAGE_LIMIT
      modifies this`seen
      ensures (r, seen) == Verify(secret, old(seen), Submission(challenge, nonce, difficultyBits, now))
    {
      hide Hmac, HexOf, Sha256, ValueOfBytes, Pow2, Stoll, Split3;
      var parts := Split3(challenge);
      if parts.None? {
        return Malformed;
      }
      var t := parts.value;
      if t.nonceHex == "" || t.exp == "" || t.mac == "" {
        return Malformed;
      }
      JoinsSplit(challenge);
      var expected := HmacHex(t.nonceHex + ":" + t.exp);
      HexIsBytes(Hmac(secret, BytesOf(t.nonceHex + ":" + t.exp)));
      PartIsBytes(challenge, t);
      var equal := CtEqualStr(expected, t.mac);
      if !equal {
        return BadHmac;
      }
      var exp := Stoll(t.exp);
      if exp.None? {
        return Malformed;
      }
      if exp.value <= now {
        return Expired;
      }
      var digest := Sha256OfTwo(BytesOf(challenge), BytesOf(nonce));
      var proof := MeetsDifficulty(digest, difficultyBits);
      if !proof {
        return BadProof;
      }
      GcLocked(now);
      if t.nonceHex in seen {
        return Reused;
      }
      seen := seen[t.nonceHex := exp.value];
      return Accepted;
    }
  }

  lemma PartIsBytes(challenge: string, t: Token)
    requires AreBytes(challenge) && challenge == Join3(t)
    ensures AreBytes(t.mac)
  {
    JoinParts(t.nonceHex, t.exp, t.mac);
    var p := |t.nonceHex| + 1 + |t.exp| + 1;
    assert forall i :: 0 <= i < |t.mac| ==> t.mac[i] == challenge[p..][i];
  }

  lemma {:induction false} HexIsBytes(d: seq<Byte>)
    ensures AreBytes(HexOf(d)) && NoColon(HexOf(d))
  {
    if d != [] {
      HexIsBytes(d[..|d| - 1]);
    }
  }

  // ---------- what a passing submission is, in terms of its text ----------

  /** The text writes each byte in two digits, in lower case and in order. */
  predicate WritesBytes(s: string, d: seq<Byte>) {
    && |s| == 2 * |d|
    && forall i :: 0 <= i < |d| ==>
        s[2 * i] == LOWER_DIGITS[d[i] as nat / 16] && s[2 * i + 1] == LOWER_DIGITS[d[i] as nat % 16]
  }

  lemma NibbleWrites(n: Byte)
    requires n < 16
    ensures Nibble(n) == LOWER_DIGITS[n as nat]
  {
    DigitCodes(n as nat);
  }

  lemma ByteHalves(b: Byte)
    ensures (b >> 4) as nat == b as nat / 16 && (b & 0x0F) as nat == b as nat % 16
  {
  }

  lemma {:induction false} HexOfWrites(d: seq<Byte>)
    ensures WritesBytes(HexOf(d), d)
  {
    if d != [] {
      var front, last := d[..|d| - 1], d[|d| - 1];
      HexOfWrites(front);
      ByteHalves(last);
      NibbleWrites(last >> 4);
      NibbleWrites(last & 0x0F);
      hide Nibble;
      var s := HexOf(d);
      assert s == HexOf(front) + [Nibble(last >> 4), Nibble(last & 0x0F)];
      forall i | 0 <= i < |d|
        ensures s[2 * i] == LOWER_DIGITS[d[i] as nat / 16] && s[2 * i + 1] == LOWER_DIGITS[d[i] as nat % 16]
      {
        if i < |front| {
          assert s[2 * i] == HexOf(front)[2 * i] && s[2 * i + 1] == HexOf(front)[2 * i + 1] && d[i] == front[i];
        }
      }
    }
  }

  /** There is one such text. */
  lemma WritesBytesOnce(s: string, d: seq<Byte>)
    ensures WritesBytes(s, d) <==> s == HexOf(d)
  {
    HexOfWrites(d);
    var t := HexOf(d);
    if WritesBytes(s, d) {
      hide HexOf;
      forall j | 0 <= j < |s| ensures s[j] == t[j] {
        var i := j / 2;
        assert s[2 * i] == t[2 * i] && s[2 * i + 1] == t[2 * i + 1] && (j == 2 * i || j == 2 * i + 1);
      }
    }
  }

  /** The text is three parts between colons: a name, a time, and a third part. */
  predicate Shaped(challenge: string, name: string, time: string, third: string) {
    && challenge == name + ":" + time + ":" + third && name != "" && time != "" && third != ""
    && NoColon(name) && NoColon(time) && NoColon(third)
  }

  /** The third part is the code of the other two under the secret, in digits. */
  predicate Signs(secret: seq<Byte>, name: string, time: string, third: string) {
    WritesBytes(third, Hmac(secret, BytesOf(name + ":" + time)))
  }

  /** A text that the secret signs. */
  ghost predicate Authentic(secret: seq<Byte>, challenge: string, name: string, time: string) {
    exists third :: Shaped(challenge, name, time, third) && Signs(secret, name, time, third)
  }

  /** The text begins, behind white space, with a signed number of 64 bits, which no digit follows. */
  ghost predicate ReadsAs(s: string, n: int) {
    exists space, sign, digits, rest ::
      && s == space + (sign + (digits + rest)) && NumberAt(space, sign, digits, rest)
      && n == (if sign == "-" then -NaturalValue(digits) else NaturalValue(digits))
      && -0x8000_0000_0000_0000 <= n < 0x8000_0000_0000_0000
  }

  predicate NumberAt(space: string, sign: string, digits: string, rest: string) {
    && (forall i :: 0 <= i < |space| ==> space[i] as int in {9, 10, 11, 12, 13, 32})
    && (sign == "" || sign == "+" || sign == "-")
    && digits != "" && (forall i :: 0 <= i < |digits| ==> digits[i] in "0123456789")
    && (rest != "" ==> rest[0] !in "0123456789")
  }

  lemma TenDigits(c: char)
    ensures c in "0123456789" <==> IsDigit(c)
  {
    if IsDigit(c) {
      assert "0123456789"[c as int - '0' as int] == c;
    }
  }

  lemma SpaceCodes()
    ensures forall c: char :: c as int in {9, 10, 11, 12, 13, 32} <==> IsSpace(c)
  {
  }

  lemma {:induction false} SpacesSkipped(space: string, s: string)
    requires forall i :: 0 <= i < |space| ==> IsSpace(space[i])
    requires s != "" && !IsSpace(s[0])
    ensures SkipSpaces(space + s) == s
  {
    if space == "" {
      assert space + s == s;
    } else {
      assert (space + s)[1..] == space[1..] + s;
      SpacesSkipped(space[1..], s);
    }
  }

  lemma {:induction false} SpacesFound(s: string) returns (space: string)
    ensures s == space + SkipSpaces(s) && forall i :: 0 <= i < |space| ==> IsSpace(space[i])
    ensures SkipSpaces(s) != "" ==> !IsSpace(SkipSpaces(s)[0])
  {
    if s != "" && IsSpace(s[0]) {
      var rest := SpacesFound(s[1..]);
      space := [s[0]] + rest;
      assert s == [s[0]] + s[1..];
    } else {
      space := "";
      assert s == "" + s;
    }
  }

  /** The library's conversion gives exactly the number that the text begins with. */
  lemma StollReads(s: string, n: int)
    ensures Stoll(s) == Some(n) <==> ReadsAs(s, n)
  {
    hide SkipSpaces, LeadingNumber, NaturalValue, IsDigit, IsSpace;
    forall c: char ensures c in "0123456789" <==> IsDigit(c) {
      TenDigits(c);
    }
    SpaceCodes();
    if Stoll(s) == Some(n) {
      var space := SpacesFound(s);
      var sign, digits, rest := NumberFound(SkipSpaces(s));
      NumberLeads(sign, digits, rest);
      assert NumberAt(space, sign, digits, rest);
    }
    if ReadsAs(s, n) {
      var space, sign, digits, rest :|
        && s == space + (sign + (digits + rest)) && NumberAt(space, sign, digits, rest)
        && n == (if sign == "-" then -NaturalValue(digits) else NaturalValue(digits))
        && -0x8000_0000_0000_0000 <= n < 0x8000_0000_0000_0000;
      NumberLeads(sign, digits, rest);
      FirstNoSpace(sign, digits, rest);
      SpacesSkipped(space, sign + (digits + rest));
    }
  }

  lemma FirstNoSpace(sign: string, digits: string, rest: string)
    requires (sign == "" || sign == "+" || sign == "-") && digits != "" && IsDigit(digits[0])
    ensures var s := sign + (digits + rest); s != "" && !IsSpace(s[0])
  {
    var s := sign + (digits + rest);
    assert s[0] == if sign == "" then digits[0] else sign[0];
  }

  lemma ShapedSplits(challenge: string, name: string, time: string, third: string)
    ensures Shaped(challenge, name, time, third) <==>
              && Split3(challenge) == Some(Token(name, time, third)) && name != "" && time != "" && third != ""
  {
    Split3Exact(challenge, Token(name, time, third));
    hide Split3;
  }

  /** Everything but the ledger speaks for a submission: its challenge is signed, has not expired, and is worked for. */
  ghost predicate Deserves(secret: seq<Byte>, e: Submission) {
    exists name, time, exp ::
      Authentic(secret, e.challenge, name, time) && ReadsAs(time, exp) && exp > e.now
      && Proves(e.challenge, e.nonce, e.bits)
  }

  /** The answer to a submission before the ledger is asked, in each case exactly under its condition. */
  lemma CheckMeans(secret: seq<Byte>, e: Submission)
    ensures var r := Check(secret, e.challenge, e.nonce, e.bits, e.now);
            && (r == Accepted <==> Deserves(secret, e))
            && (r == BadHmac <==> exists name, time, third ::
                  Shaped(e.challenge, name, time, third) && !Signs(secret, name, time, third))
            && (r == Malformed <==>
                  || (forall name, time, third :: !Shaped(e.challenge, name, time, third))
                  || (exists name, time :: Authentic(secret, e.challenge, name, time) && forall n :: !ReadsAs(time, n)))
            && (r == Expired <==> exists name, time, exp ::
                  Authentic(secret, e.challenge, name, time) && ReadsAs(time, exp) && exp <= e.now)
            && (r == BadProof <==> exists name, time, exp ::
                  Authentic(secret, e.challenge, name, time) && ReadsAs(time, exp) && exp > e.now
                  && !Proves(e.challenge, e.nonce, e.bits))
  {
    hide Split3, Stoll, Proves, HexOf, Hmac, Shaped, Signs, ReadsAs;
    forall name, time, third
      ensures Shaped(e.challenge, name, time, third) <==>
                && Split3(e.challenge) == Some(Token(name, time, third)) && name != "" && time != "" && third != ""
    {
      ShapedSplits(e.challenge, name, time, third);
    }
    if Split3(e.challenge).Some? {
      var t := Split3(e.challenge).value;
      SignsMeans(secret, t.nonceHex, t.exp, t.mac);
      forall n ensures Stoll(t.exp) == Some(n) <==> ReadsAs(t.exp, n) {
        StollReads(t.exp, n);
      }
      if t.nonceHex != "" && t.exp != "" && t.mac != "" {
        assert Shaped(e.challenge, t.nonceHex, t.exp, t.mac);
        assert Signs(secret, t.nonceHex, t.exp, t.mac) <==> Authentic(secret, e.challenge, t.nonceHex, t.exp);
        if Stoll(t.exp).Some? {
          assert ReadsAs(t.exp, Stoll(t.exp).value);
        }
      }
    }
  }

  lemma SignsMeans(secret: seq<Byte>, name: string, time: string, third: string)
    ensures Signs(secret, name, time, third) <==> HexOf(Hmac(secret, BytesOf(name + ":" + time))) == third
  {
    hide HexOf, Hmac, WritesBytes;
    WritesBytesOnce(third, Hmac(secret, BytesOf(name + ":" + time)));
  }

  // ---------- every run ----------

  /** Submissions in the order in which the ledger sees them, with clock readings that never decrease. */
  predicate Ordered(es: seq<Submission>) {
    forall i, j :: 0 <= i < j < |es| ==> es[i].now <= es[j].now
  }

  function LedgerBefore(secret: seq<Byte>, seen: Ledger, es: seq<Submission>, n: nat): Ledger
    requires n <= |es|
  {
    if n == 0 then seen else Verify(secret, LedgerBefore(secret, seen, es, n - 1), es[n - 1]).1
  }

  function Answer(secret: seq<Byte>, seen: Ledger, es: seq<Submission>, n: nat): VerifyResult
    requires n < |es|
  {
    Verify(secret, LedgerBefore(secret, seen, es, n), es[n]).0
  }

  /** The token of a submission that was accepted, and its time of expiry. */
  function TokenOf(e: Submission): (r: (string, int))
    requires HasToken(e)
  {
    (Split3(e.challenge).value.nonceHex, Stoll(Split3(e.challenge).value.exp).value)
  }

  predicate HasToken(e: Submission) {
    Split3(e.challenge).Some? && Stoll(Split3(e.challenge).value.exp).Some?
  }

  /** Everything but the ledger speaks for a submission. */
  predicate Passes(secret: seq<Byte>, e: Submission) {
    Check(secret, e.challenge, e.nonce, e.bits, e.now) == Accepted
  }

  lemma VerifyCases(secret: seq<Byte>, seen: Ledger, e: Submission)
    ensures var (r, after) := Verify(secret, seen, e);
            if Check(secret, e.challenge, e.nonce, e.bits, e.now) != Accepted then r != Accepted && r != Reused
                && after == seen
            else
              && HasToken(e) && TokenOf(e).1 > e.now
              && (r, after) == Record(seen, TokenOf(e).0, TokenOf(e).1, e.now)
  {
    hide Hmac, HexOf, Stoll, Split3, Proves, Record;
    if Check(secret, e.challenge, e.nonce, e.bits, e.now) == Accepted {
      CheckedToken(secret, e);
    }
  }

  /** After the ledger is updated, all of its entries are unexpired. */
  lemma LedgerUnexpired(secret: seq<Byte>, seen: Ledger, e: Submission)
    ensures var (r, after) := Verify(secret, seen, e);
            r == Accepted || r == Reused ==> forall k :: k in after ==> after[k] > e.now
  {
    hide Verify, Check;
    VerifyCases(secret, seen, e);
  }

  lemma AcceptedRecords(secret: seq<Byte>, seen: Ledger, e: Submission)
    requires Verify(secret, seen, e).0 == Accepted
    ensures HasToken(e)
    ensures var after, (nonceHex, exp) := Verify(secret, seen, e).1, TokenOf(e);
            nonceHex in after && after[nonceHex] == exp
  {
    hide Verify, Check, Split3, Stoll;
    VerifyCases(secret, seen, e);
  }

  lemma EntryStays(secret: seq<Byte>, seen: Ledger, e: Submission, nonceHex: string)
    requires nonceHex in seen && seen[nonceHex] > e.now
    ensures var after := Verify(secret, seen, e).1; nonceHex in after && after[nonceHex] == seen[nonceHex]
  {
    hide Verify, Check, Split3, Stoll;
    VerifyCases(secret, seen, e);
  }

  /** An accepted token stays in the ledger until it has expired. */
  lemma {:induction false} StaysRecorded(secret: seq<Byte>, seen: Ledger, es: seq<Submission>, i: nat, k: nat)
    requires Ordered(es) && i < k <= |es| && Answer(secret, seen, es, i) == Accepted
    ensures HasToken(es[i])
    ensures var (nonceHex, exp), ledger := TokenOf(es[i]), LedgerBefore(secret, seen, es, k);
            exp <= es[k - 1].now || (nonceHex in ledger && ledger[nonceHex] == exp)
    decreases k
  {
    hide Verify, Split3, Stoll;
    AcceptedRecords(secret, LedgerBefore(secret, seen, es, i), es[i]);
    if k > i + 1 {
      StaysRecorded(secret, seen, es, i, k - 1);
      var (nonceHex, exp) := TokenOf(es[i]);
      if exp > es[k - 1].now {
        EntryStays(secret, LedgerBefore(secret, seen, es, k - 1), es[k - 1], nonceHex);
      }
    }
  }

  lemma RecordedIsReused(secret: seq<Byte>, seen: Ledger, e: Submission)
    requires HasToken(e)
    requires var (nonceHex, exp) := TokenOf(e); exp <= e.now || (nonceHex in seen && seen[nonceHex] == exp)
    ensures Verify(secret, seen, e).0 != Accepted
  {
    hide Verify, Check, Split3, Stoll;
    VerifyCases(secret, seen, e);
  }

  /** In any run whose clock readings never decrease, from any ledger, a challenge token is accepted at most once. */
  lemma AcceptedAtMostOnce(secret: seq<Byte>, seen: Ledger, es: seq<Submission>, i: nat, j: nat)
    requires Ordered(es) && i < j < |es| && es[i].challenge == es[j].challenge
    ensures !(Answer(secret, seen, es, i) == Accepted && Answer(secret, seen, es, j) == Accepted)
  {
    hide Verify, Split3, Stoll, LedgerBefore;
    if Answer(secret, seen, es, i) == Accepted {
      StaysRecorded(secret, seen, es, i, j);
      RecordedIsReused(secret, LedgerBefore(secret, seen, es, j), es[j]);
    }
  }

  /** In any run, a submission gets as far as the ledger exactly if it deserves it: nothing that the secret has not
      signed is ever accepted. */
  lemma AcceptedDeserves(secret: seq<Byte>, seen: Ledger, es: seq<Submission>, n: nat)
    requires n < |es|
    ensures Answer(secret, seen, es, n) == Accepted || Answer(secret, seen, es, n) == Reused
            <==> Deserves(secret, es[n])
    ensures Answer(secret, seen, es, n) == BadHmac <==>
              exists name, time, third ::
                Shaped(es[n].challenge, name, time, third) && !Signs(secret, name, time, third)
  {
    hide Verify, Check, Split3, Stoll, Deserves, LedgerBefore, Shaped, Signs;
    VerifyCases(secret, LedgerBefore(secret, seen, es, n), es[n]);
    VerifySays(secret, LedgerBefore(secret, seen, es, n), es[n]);
    CheckMeans(secret, es[n]);
  }

  lemma VerifySays(secret: seq<Byte>, seen: Ledger, e: Submission)
    ensures var r, checked := Verify(secret, seen, e).0, Check(secret, e.challenge, e.nonce, e.bits, e.now);
            if checked == Accepted then r == Accepted || r == Reused else r == checked
  {
    hide Check, Split3, Stoll;
  }

  // ---------- clocks that step back ----------

  /** The entry of an accepted token is there as long as no submission has cleaned it away. */
  ghost predicate Cleaned(secret: seq<Byte>, es: seq<Submission>, i: nat, k: nat, exp: int)
    requires k <= |es|
  {
    exists m :: i < m < k && Passes(secret, es[m]) && es[m].now >= exp
  }

  /** No submission between two others is accepted for a given nonce. */
  ghost predicate NoneBetween(secret: seq<Byte>, seen: Ledger, es: seq<Submission>, i: nat, k: nat, nonceHex: string)
    requires k <= |es|
  {
    forall m :: i < m < k && HasToken(es[m]) && TokenOf(es[m]).0 == nonceHex ==> Answer(secret, seen, es, m) != Accepted
  }

  /** One submission and one entry: the entry goes if the submission passes its checks at a time when the entry has
      expired; an entry comes only with an acceptance. */
  lemma EntryAfter(secret: seq<Byte>, seen: Ledger, e: Submission, nonceHex: string)
    requires HasToken(e) && TokenOf(e).0 == nonceHex ==> Verify(secret, seen, e).0 != Accepted
    ensures var after := Verify(secret, seen, e).1;
            && (nonceHex in after <==> nonceHex in seen && !(Passes(secret, e) && e.now >= seen[nonceHex]))
            && (nonceHex in after ==> after[nonceHex] == seen[nonceHex])
  {
    hide Verify, Check, Split3, Stoll;
    VerifyCases(secret, seen, e);
  }

  lemma {:induction false} RecordedUnlessCleaned(secret: seq<Byte>, seen: Ledger, es: seq<Submission>, i: nat, k: nat)
    requires i < k <= |es| && Answer(secret, seen, es, i) == Accepted
    requires HasToken(es[i]) && NoneBetween(secret, seen, es, i, k, TokenOf(es[i]).0)
    ensures var (nonceHex, exp), ledger := TokenOf(es[i]), LedgerBefore(secret, seen, es, k);
            && (nonceHex in ledger <==> !Cleaned(secret, es, i, k, exp))
            && (nonceHex in ledger ==> ledger[nonceHex] == exp)
    decreases k
  {
    hide Verify, Split3, Stoll, Check;
    if k == i + 1 {
      AcceptedRecords(secret, LedgerBefore(secret, seen, es, i), es[i]);
    } else {
      RecordedUnlessCleaned(secret, seen, es, i, k - 1);
      EntryAfter(secret, LedgerBefore(secret, seen, es, k - 1), es[k - 1], TokenOf(es[i]).0);
    }
  }

  lemma PassesReused(secret: seq<Byte>, seen: Ledger, e: Submission)
    requires Passes(secret, e)
    ensures HasToken(e)
    ensures Verify(secret, seen, e).0 == Accepted <==> !(TokenOf(e).0 in seen && seen[TokenOf(e).0] > e.now)
  {
    hide Verify, Check, Split3, Stoll;
    VerifyCases(secret, seen, e);
  }

  /** Whatever the clock does, exactly when an accepted token is accepted again: if and only if in between some
      submission passed its checks at a time when the token had expired, and so cleaned its entry away. */
  lemma AcceptedAgain(secret: seq<Byte>, seen: Ledger, es: seq<Submission>, i: nat, j: nat)
    requires i < j < |es| && es[i].challenge == es[j].challenge && Passes(secret, es[j]) && HasToken(es[i])
    requires Answer(secret, seen, es, i) == Accepted && NoneBetween(secret, seen, es, i, j, TokenOf(es[i]).0)
    ensures Answer(secret, seen, es, j) == Accepted
       <==> exists k :: i < k < j && Passes(secret, es[k]) && es[k].now >= TokenOf(es[i]).1
  {
    hide Verify, Split3, Stoll, LedgerBefore, Check;
    RecordedUnlessCleaned(secret, seen, es, i, j);
    PassesReused(secret, LedgerBefore(secret, seen, es, j), es[j]);
    assert TokenOf(es[i]) == TokenOf(es[j]);
    VerifyCases(secret, LedgerBefore(secret, seen, es, j), es[j]);
  }

  // ---------- issuing ----------

  function Payload(nonce: seq<Byte>, exp: int): string {
    HexOf(nonce) + ":" + Decimal(exp)
  }

  /** A token for a random nonce. */
  function IssueChallenge(secret: seq<Byte>, nonce: seq<Byte>, exp: int): string {
    Payload(nonce, exp) + ":" + HexOf(Hmac(secret, BytesOf(Payload(nonce, exp))))
  }

  lemma DecimalHasNoColon(n: int)
    ensures NoColon(Decimal(n)) && Decimal(n) != ""
  {
    NaturalDigits(if n < 0 then -n else n);
    hide Natural;
  }

  /** A challenge that the server issued splits into its parts. */
  lemma IssuedSplits(secret: seq<Byte>, random: seq<Byte>, exp: int)
    requires -0x8000_0000_0000_0000 <= exp < 0x8000_0000_0000_0000
    ensures var mac := Hmac(secret, BytesOf(Payload(random, exp)));
            Split3(IssueChallenge(secret, random, exp)) == Some(Token(HexOf(random), Decimal(exp), HexOf(mac)))
    ensures Stoll(Decimal(exp)) == Some(exp) && Decimal(exp) != ""
  {
    var mac := Hmac(secret, BytesOf(Payload(random, exp)));
    var t := Token(HexOf(random), Decimal(exp), HexOf(mac));
    HexIsBytes(random);
    HexIsBytes(mac);
    DecimalHasNoColon(exp);
    StollDecimal(exp);
    SplitsJoined(t);
    hide Hmac, HexOf, Sha256, Stoll, Split3, Proves, Decimal;
    assert IssueChallenge(secret, random, exp) == Join3(t);
  }

  /** What the server issued it recognises: until it expires, exactly the nonces that prove the work pass. */
  lemma IssuedIsChecked(secret: seq<Byte>, random: seq<Byte>, exp: int, nonce: string, bits: Bits, now: int)
    requires random != [] && -0x8000_0000_0000_0000 <= exp < 0x8000_0000_0000_0000
    ensures var challenge := IssueChallenge(secret, random, exp);
            Check(secret, challenge, nonce, bits, now)
            == if exp <= now then Expired else if Proves(challenge, nonce, bits) then Accepted else BadProof
  {
    IssuedSplits(secret, random, exp);
    hide Hmac, HexOf, Sha256, Stoll, Split3, Proves, Decimal, IssueChallenge;
  }

  lemma NibblesDiffer(a: Byte, b: Byte)
    ensures Nibble(a >> 4) == Nibble(b >> 4) && Nibble(a & 0x0F) == Nibble(b & 0x0F) ==> a == b
  {
  }

  lemma {:induction false} HexInjective(a: seq<Byte>, b: seq<Byte>)
    requires HexOf(a) == HexOf(b)
    ensures a == b
    decreases |a|
  {
    assert |HexOf(a)| == |HexOf(b)|;
    if a != [] {
      var n := |HexOf(a)|;
      assert HexOf(a)[..n - 2] == HexOf(a[..|a| - 1]) && HexOf(b)[..n - 2] == HexOf(b[..|b| - 1]);
      HexInjective(a[..|a| - 1], b[..|b| - 1]);
      NibblesDiffer(a[|a| - 1], b[|b| - 1]);
    }
  }

  /** A challenge that the server issued, with a nonce that proves the work, before it expires. */
  ghost predicate Issued(secret: seq<Byte>, random: seq<Byte>, exp: int, e: Submission) {
    && random != [] && -0x8000_0000_0000_0000 <= exp < 0x8000_0000_0000_0000
    && e.challenge == IssueChallenge(secret, random, exp) && e.now < exp && Proves(e.challenge, e.nonce, e.bits)
  }

  lemma IssuedPasses(secret: seq<Byte>, random: seq<Byte>, exp: int, e: Submission)
    requires Issued(secret, random, exp, e)
    ensures Passes(secret, e) && HasToken(e) && TokenOf(e) == (HexOf(random), exp)
  {
    hide Stoll, Split3, IssueChallenge, HexOf, Proves, Check;
    IssuedIsChecked(secret, random, exp, e.nonce, e.bits, e.now);
    IssuedSplits(secret, random, exp);
  }

  /** A run in which the clock steps back: the server issues two challenges with different random values, the first
      is used in time, the second after the first has expired, and the first again at its earlier time. It is
      accepted twice. */
  lemma ClockMustNotStepBack(secret: seq<Byte>, random: seq<Byte>, other: seq<Byte>, exp: int, otherExp: int,
      es: seq<Submission>)
    requires |es| == 3 && es[2] == es[0] && random != other && exp <= es[1].now
    requires Issued(secret, random, exp, es[0]) && Issued(secret, other, otherExp, es[1])
    ensures Answer(secret, map[], es, 0) == Answer(secret, map[], es, 2) == Accepted
  {
    IssuedPasses(secret, random, exp, es[0]);
    IssuedPasses(secret, other, otherExp, es[1]);
    if HexOf(random) == HexOf(other) {
      HexInjective(random, other);
    }
    hide *;
    AcceptedTwice(secret, es);
  }

  lemma AcceptedTwice(secret: seq<Byte>, es: seq<Submission>)
    requires |es| == 3 && es[2] == es[0] && Passes(secret, es[0]) && Passes(secret, es[1]) && HasToken(es[0])
             && HasToken(es[1])
    requires TokenOf(es[0]).0 != TokenOf(es[1]).0 && TokenOf(es[0]).1 <= es[1].now
    ensures Answer(secret, map[], es, 0) == Answer(secret, map[], es, 2) == Accepted
  {
    hide Verify, Check, Split3, Stoll;
    PassesReused(secret, map[], es[0]);
    assert LedgerBefore(secret, map[], es, 0) == map[];
    AcceptedAgain(secret, map[], es, 0, 2);
  }

  function Unworked(secret: seq<Byte>, random: seq<Byte>, exp: int, now: int): Submission {
    Submission(IssueChallenge(secret, random, exp), "0", 0, now)
  }

  lemma UnworkedIssued(secret: seq<Byte>, random: seq<Byte>, exp: int, now: int)
    requires random != [] && 0 <= now < exp < 100
    ensures Issued(secret, random, exp, Unworked(secret, random, exp, now))
  {
    hide IssueChallenge, Proves;
    AnyNonceProves(IssueChallenge(secret, random, exp), "0");
  }

  /** Such a run exists for every secret: at difficulty 0 every nonce proves its work. */
  lemma StepBackExists(secret: seq<Byte>)
    ensures exists es: seq<Submission> ::
              && |es| == 3 && es[0].challenge == es[2].challenge
              && Answer(secret, map[], es, 0) == Answer(secret, map[], es, 2) == Accepted
  {
    hide IssueChallenge, Issued, Answer;
    var e, u := Unworked(secret, [1], 10, 5), Unworked(secret, [2], 20, 15);
    UnworkedIssued(secret, [1], 10, 5);
    UnworkedIssued(secret, [2], 20, 15);
    assert [1 as Byte][0] != [2 as Byte][0];
    ClockMustNotStepBack(secret, [1], [2], 10, 20, [e, u, e]);
  }

  lemma AnyNonceProves(challenge: string, nonce: string)
    ensures Proves(challenge, nonce, 0)
  {
    NothingAsked(Sha256(BytesOf(challenge) + BytesOf(nonce)), 0);
  }
}
