/** The two base64 codecs, and the encoding of section 4 of RFC 4648 that both of them implement. Shifts and masks of
    bytes are written as quotients and remainders. */
module Base64 {
  import opened Basics

  type Octet = n: nat | n < 256
  type Sextet = n: nat | n < 64

  const PAD: char := '='

  // ---------- the alphabet ----------

  /** The alphabet, as it stands in the standard. */
  const UPPER := "ABCDEFGHIJKLMNOPQRSTUVWXYZ"
  const LOWER := "abcdefghijklmnopqrstuvwxyz"
  const ALPHABET := UPPER + LOWER + "0123456789+/"

  function CharOf(v: Sextet): char {
    if v < 26 then ('A' as int + v) as char
    else if v < 52 then ('a' as int + v - 26) as char
    else if v < 62 then ('0' as int + v - 52) as char
    else if v == 62 then '+' else '/'
  }

  /** The decoding table of the strict codec. */
  function ValueOf(c: char): Option<Sextet> {
    if 'A' <= c <= 'Z' then Some(c as int - 'A' as int)
    else if 'a' <= c <= 'z' then Some(c as int - 'a' as int + 26)
    else if '0' <= c <= '9' then Some(c as int - '0' as int + 52)
    else if c == '+' then Some(62)
    else if c == '/' then Some(63)
    else None
  }

  lemma AlphabetIs(v: Sextet)
    ensures |ALPHABET| == 64 && CharOf(v) == ALPHABET[v]
  {
    if v < 26 {
      UpperIs(v);
    } else if v < 52 {
      LowerIs(v - 26);
      assert ALPHABET[v] == LOWER[v - 26];
    } else {
      LastIs(v - 52);
      assert ALPHABET[v] == "0123456789+/"[v - 52];
    }
  }

  lemma UpperIs(k: nat)
    requires k < 26
    ensures |UPPER| == 26 && UPPER[k] == ('A' as int + k) as char
  {
  }

  lemma LowerIs(k: nat)
    requires k < 26
    ensures |LOWER| == 26 && LOWER[k] == ('a' as int + k) as char
  {
  }

  lemma LastIs(k: nat)
    requires k < 12
    ensures "0123456789+/"[k] == if k < 10 then ('0' as int + k) as char else if k == 10 then '+' else '/'
  {
  }

  lemma CharRoundTrip(v: Sextet)
    ensures ValueOf(CharOf(v)) == Some(v) && CharOf(v) != PAD && !IsSpace(CharOf(v))
  {
  }

  predicate IsSpace(c: char) {
    c == '\n' || c == '\r' || c == ' ' || c == '\t'
  }

  // ---------- the standard ----------

  /** Three bytes as four sextets: the 24 bits in order. */
  function Sextets(a: Octet, b: Octet, c: Octet): seq<Sextet> {
    var v := a * 0x1_0000 + b * 0x100 + c;
    [v / 0x4_0000 % 64, v / 0x1000 % 64, v / 0x40 % 64, v % 64]
  }

  function Text(s: seq<Sextet>): string {
    if s == [] then "" else [CharOf(s[0])] + Text(s[1..])
  }

  /** The encoding: groups of three bytes, the last of which may be short and is padded. */
  function Encoded(d: seq<Octet>): string {
    if d == [] then ""
    else if |d| == 1 then Text(Sextets(d[0], 0, 0)[..2]) + [PAD, PAD]
    else if |d| == 2 then Text(Sextets(d[0], d[1], 0)[..3]) + [PAD]
    else Text(Sextets(d[0], d[1], d[2])) + Encoded(d[3..])
  }

  // ---------- util.cpp: the encoder ----------

  lemma ShortText(s: seq<Sextet>)
    ensures |s| == 2 ==> Text(s) == [CharOf(s[0]), CharOf(s[1])]
    ensures |s| == 3 ==> Text(s) == [CharOf(s[0]), CharOf(s[1]), CharOf(s[2])]
    ensures |s| == 4 ==> Text(s) == [CharOf(s[0]), CharOf(s[1]), CharOf(s[2]), CharOf(s[3])]
  {
    if 2 <= |s| <= 4 {
      assert Text(s[1..]) == [CharOf(s[1])] + Text(s[1..][1..]);
      if |s| >= 3 {
        assert Text(s[1..][1..]) == [CharOf(s[2])] + Text(s[1..][1..][1..]);
        if |s| == 4 {
          assert Text(s[1..][1..][1..]) == [CharOf(s[3])] + Text([]);
        }
      }
    }
  }

  lemma EncodedNext(d: seq<Octet>, i: nat)
    requires i <= |d|
    ensures |d| - i >= 3 ==> var s := Sextets(d[i], d[i + 1], d[i + 2]);
                             Encoded(d[i..]) == [CharOf(s[0]), CharOf(s[1]), CharOf(s[2]), CharOf(s[3])]
                                 + Encoded(d[i + 3..])
    ensures |d| - i == 2 ==> var s := Sextets(d[i], d[i + 1], 0);
            Encoded(d[i..]) == [CharOf(s[0]), CharOf(s[1]), CharOf(s[2]), PAD]
    ensures |d| - i == 1 ==> var s := Sextets(d[i], 0, 0); Encoded(d[i..]) == [CharOf(s[0]), CharOf(s[1]), PAD, PAD]
    ensures |d| == i ==> Encoded(d[i..]) == ""
  {
    var rest := d[i..];
    if |rest| >= 3 {
      ShortText(Sextets(rest[0], rest[1], rest[2]));
      assert rest[3..] == d[i + 3..];
    } else if |rest| == 2 {
      ShortText(Sextets(rest[0], rest[1], 0)[..3]);
    } else if |rest| == 1 {
      ShortText(Sextets(rest[0], 0, 0)[..2]);
    }
    hide Sextets, Text, CharOf;
  }

  lemma SextetsAre(a: Octet, b: Octet, c: Octet, v: nat)
    requires v == a * 0x1_0000 + b * 0x100 + c
    ensures Sextets(a, b, c) == [v / 0x4_0000 % 64, v / 0x1000 % 64, v / 0x40 % 64, v % 64]
  {
  }

  method Base64Encode(bytes: seq<Octet>) returns (out: string)
    ensures out == Encoded(bytes)
  {
    hide Encoded, CharOf;
    out := "";
    var i: nat := 0;
    assert bytes[0..] == bytes;
    while i + 3 <= |bytes|
      invariant i <= |bytes| && out + Encoded(bytes[i..]) == Encoded(bytes)
    {
      EncodedNext(bytes, i);
      var a: nat, b: nat, c: nat := bytes[i], bytes[i + 1], bytes[i + 2];
      var v := a * 0x1_0000 + b * 0x100 + c;
      SextetsAre(a, b, c, v);
      hide Sextets;
      out := out + [CharOf(v / 0x4_0000 % 64)] + [CharOf(v / 0x1000 % 64)] + [CharOf(v / 0x40 % 64)] + [CharOf(v % 64)];
      i := i + 3;
    }
    EncodedNext(bytes, i);
    if i < |bytes| {
      var a: nat := bytes[i];
      var v: nat := a * 0x1_0000;
      var two := i + 1 < |bytes|;
      if two {
        var b: nat := bytes[i + 1];
        v := v + b * 0x100;
      }
      SextetsAre(a, if two then bytes[i + 1] else 0, 0, v);
      hide Sextets;
      out := out + [CharOf(v / 0x4_0000 % 64)] + [CharOf(v / 0x1000 % 64)]
          + [if two then CharOf(v / 0x40 % 64) else PAD] + [PAD];
    }
  }

  // ---------- utility.h: the encoder ----------

  /** The four sextets, taken from the bytes one at a time. */
  lemma BytewiseSextets(a: Octet, b: Octet, c: Octet)
    ensures Sextets(a, b, c) == [a / 4, a % 4 * 16 + b / 16, b % 16 * 4 + c / 64, c % 64]
  {
    assert a * 0x1_0000 + b * 0x100 + c == (a * 0x400 + b * 4 + c / 64) * 64 + c % 64;
    FirstSextet(a, b * 0x100 + c);
    SecondSextet(a, b, c);
    ThirdSextet(a, b, c);
    FourthSextet(a * 0x400 + b * 4 + c / 64, c % 64);
  }

  lemma FirstSextet(a: nat, rest: nat)
    requires a < 256 && rest < 0x1_0000
    ensures (a * 0x1_0000 + rest) / 0x4_0000 % 64 == a / 4
  {
  }

  lemma SecondSextet(a: nat, b: nat, c: nat)
    requires a < 256 && b < 256 && c < 256
    ensures (a * 0x1_0000 + b * 0x100 + c) / 0x1000 % 64 == a % 4 * 16 + b / 16
  {
    assert (a * 0x1_0000 + b * 0x100 + c) / 0x1000 == a * 16 + b / 16;
  }

  lemma ThirdSextet(a: nat, b: nat, c: nat)
    requires a < 256 && b < 256 && c < 256
    ensures (a * 0x1_0000 + b * 0x100 + c) / 0x40 % 64 == b % 16 * 4 + c / 64
  {
    assert (a * 0x1_0000 + b * 0x100 + c) / 0x40 == a * 0x400 + b * 4 + c / 64;
    assert a * 0x400 + b * 4 + c / 64 == (a * 16 + b / 16) * 64 + (b % 16 * 4 + c / 64);
    FourthSextet(a * 16 + b / 16, b % 16 * 4 + c / 64);
  }

  lemma FourthSextet(high: nat, low: nat)
    requires low < 64
    ensures (high * 64 + low) % 64 == low
  {
  }

  method CrowEncode(data: seq<Octet>) returns (ret: string)
    ensures ret == Encoded(data)
  {
    hide Encoded, CharOf, Sextets;
    ret := "";
    var i: nat, size: nat := 0, |data|;
    assert data[0..] == data;
    while size >= 3
      invariant i + size == |data| && ret + Encoded(data[i..]) == Encoded(data)
    {
      EncodedNext(data, i);
      BytewiseSextets(data[i], data[i + 1], data[i + 2]);
      ret := ret + [CharOf(data[i] / 4)];
      var h := data[i] % 4 * 16;
      ret := ret + [CharOf(h + data[i + 1] / 16)];
      h := data[i + 1] % 16 * 4;
      ret := ret + [CharOf(h + data[i + 2] / 64)];
      ret := ret + [CharOf(data[i + 2] % 64)];
      i := i + 3;
      size := size - 3;
    }
    EncodedNext(data, i);
    if size == 1 {
      BytewiseSextets(data[i], 0, 0);
      ret := ret + [CharOf(data[i] / 4)] + [CharOf(data[i] % 4 * 16)] + [PAD] + [PAD];
    } else if size == 2 {
      BytewiseSextets(data[i], data[i + 1], 0);
      ret := ret + [CharOf(data[i] / 4)] + [CharOf(data[i] % 4 * 16 + data[i + 1] / 16)]
          + [CharOf(data[i + 1] % 16 * 4)] + [PAD];
    }
  }

  // ---------- util.cpp: the decoder ----------

  predicate Pending(rest: nat, bits: nat) {
    (bits == 0 || bits == 2 || bits == 4 || bits == 6) && rest < Pow2(bits)
  }

  /** Decoding with `bits` bits pending, whose value is `rest`. Every eight bits are a byte; what is left over at the
      end, or at the padding, is dropped. */
  function Decode(s: string, rest: nat, bits: nat): (r: Option<seq<Octet>>)
    requires Pending(rest, bits)
  {
    if s == "" || s[0] == PAD then Some([])
    else if IsSpace(s[0]) then Decode(s[1..], rest, bits)
    else
      match ValueOf(s[0])
      case None => None
      case Some(v) =>
        BitsStep(rest, bits, v);
        if bits == 0 then Decode(s[1..], v, 6)
        else Prefixed([(rest * 64 + v) / Pow2(bits - 2)], Decode(s[1..], (rest * 64 + v) % Pow2(bits - 2), bits - 2))
  }

  function Prefixed(d: seq<Octet>, r: Option<seq<Octet>>): Option<seq<Octet>> {
    if r.None? then None else Some(d + r.value)
  }

  lemma Powers()
    ensures Pow2(0) == 1 && Pow2(2) == 4 && Pow2(4) == 16 && Pow2(6) == 64
  {
  }

  lemma BitsStep(rest: nat, bits: nat, v: Sextet)
    requires Pending(rest, bits)
    ensures bits == 0 ==> rest == 0 && Pending(v, 6)
    ensures bits > 0 ==> (rest * 64 + v) / Pow2(bits - 2) < 256 && Pending((rest * 64 + v) % Pow2(bits - 2), bits - 2)
  {
    Powers();
  }

  const WORD: nat := 0x1_0000_0000

  lemma ModAdd(q: int, m: nat, x: int)
    requires m > 0
    ensures (q * m + x) % m == x % m
  {
    var d, r := x / m, x % m;
    assert x == d * m + r;
    assert q * m + x == (q + d) * m + r;
    ModUnique(q * m + x, m, q + d, r);
  }

  lemma ModUnique(x: int, m: nat, q: int, r: nat)
    requires x == q * m + r && r < m
    ensures x % m == r && x / m == q
  {
    var q', r' := x / m, x % m;
    assert q * m + r == q' * m + r';
    MulLess(q, q', m);
    MulLess(q', q, m);
  }

  lemma MulLess(a: int, b: int, m: nat)
    ensures a < b ==> (a + 1) * m <= b * m
  {
    if a < b {
      MulMonotone(a + 1, b, m);
    }
  }

  lemma MulMonotone(a: int, b: int, m: nat)
    requires a <= b
    ensures a * m <= b * m
  {
    assert (b - a) * m >= 0;
  }

  /** Cutting the accumulator to 32 bits does not change it modulo a small power of two. */
  lemma Wraps(buf: nat, v: Sextet, m: nat, k: nat)
    requires m > 0 && WORD == k * m
    ensures (buf * 64 % WORD + v) % m == (buf * 64 + v) % m
  {
    var high, low := buf * 64 / WORD, buf * 64 % WORD;
    assert high * WORD == (high * k) * m;
    ModAdd(high * k, m, low + v);
  }

  /** The value modulo the bits that matter. */
  lemma Matters(buf: nat, v: Sextet, b: nat)
    requires b > 0
    ensures (buf * 64 + v) % (64 * b) == buf % b * 64 + v
  {
    var q, rest := buf / b, buf % b;
    assert buf * 64 + v == q * (64 * b) + (rest * 64 + v);
    ModUnique(buf * 64 + v, 64 * b, q, rest * 64 + v);
  }

  lemma TopByte(x: nat, b: nat)
    requires b > 0
    ensures x / b % 256 == x % (256 * b) / b && x % b == x % (256 * b) % b
  {
    var t, y := x / (256 * b), x % (256 * b);
    assert x == t * (256 * b) + y;
    var d, r := y / b, y % b;
    assert x == (t * 256 + d) * b + r;
    ModUnique(x, b, t * 256 + d, r);
    MulLess(255, d, b);
    assert d < 256;
    ModUnique(t * 256 + d, 256, t, d);
  }

  /** The accumulator drops its high bits, which are never needed again. */
  lemma AccumulatorStep(buf: nat, bits: nat, v: Sextet)
    requires Pending(buf % Pow2(bits), bits)
    ensures var rest, buf' := buf % Pow2(bits), buf * 64 % WORD + v;
            && buf' < WORD
            && (bits == 0 ==> buf' % Pow2(6) == v)
            && (bits > 0 ==> buf' / Pow2(bits - 2) % 256 == (rest * 64 + v) / Pow2(bits - 2)
                             && buf' % Pow2(bits - 2) == (rest * 64 + v) % Pow2(bits - 2))
  {
    Powers();
    LowZeros(buf);
    hide Pow2;
    var buf' := buf * 64 % WORD + v;
    if bits == 0 {
      Wraps(buf, v, 64, 0x400_0000);
      ModAdd(buf, 64, v);
    } else if bits == 2 {
      Wraps(buf, v, 256, 0x100_0000);
      Matters(buf, v, 4);
      TopByte(buf', 1);
    } else if bits == 4 {
      Wraps(buf, v, 1024, 0x40_0000);
      Matters(buf, v, 16);
      TopByte(buf', 4);
    } else {
      Wraps(buf, v, 4096, 0x10_0000);
      Matters(buf, v, 64);
      TopByte(buf', 16);
    }
  }

  lemma LowZeros(buf: nat)
    ensures buf * 64 % WORD + 63 < WORD
  {
    Wraps(buf, 0, 64, 0x400_0000);
    ModAdd(buf, 64, 0);
  }

  lemma DecodeStep(s: string, i: nat, rest: nat, bits: nat)
    requires i < |s| && Pending(rest, bits)
    ensures s[i] == PAD ==> Decode(s[i..], rest, bits) == Some([])
    ensures s[i] != PAD && IsSpace(s[i]) ==> Decode(s[i..], rest, bits) == Decode(s[i + 1..], rest, bits)
    ensures s[i] != PAD && !IsSpace(s[i]) && ValueOf(s[i]).None? ==> Decode(s[i..], rest, bits) == None
    ensures s[i] != PAD && !IsSpace(s[i]) && ValueOf(s[i]).Some? ==>
              var v := ValueOf(s[i]).value;
              (BitsStep(rest, bits, v);
               Decode(s[i..], rest, bits)
               == if bits == 0 then Decode(s[i + 1..], v, 6)
                  else Prefixed([(rest * 64 + v) / Pow2(bits - 2)],
                      Decode(s[i + 1..], (rest * 64 + v) % Pow2(bits - 2), bits - 2)))
  {
    assert s[i..][1..] == s[i + 1..];
    hide Pow2;
  }

  lemma PrefixedTwice(a: seq<Octet>, b: seq<Octet>, r: Option<seq<Octet>>)
    ensures Prefixed(a, Prefixed(b, r)) == Prefixed(a + b, r)
    ensures Prefixed([], r) == r && Prefixed(a, Some([])) == Some(a)
  {
    assert r.Some? ==> a + (b + r.value) == (a + b) + r.value;
    assert a + [] == a;
    assert r.Some? ==> [] + r.value == r.value;
  }

  /** What is done and what is still to come, together. */
  function Whole(out: seq<Octet>, s: string, i: nat, buf: nat, bits: nat): Option<seq<Octet>>
    requires i <= |s| && Pending(buf % Pow2(bits), bits)
  {
    Prefixed(out, Decode(s[i..], buf % Pow2(bits), bits))
  }

  /** The loop over one sextet, on the wrapping accumulator. */
  lemma WholeNext(out: seq<Octet>, s: string, i: nat, buf: nat, bits: nat, v: Sextet)
    requires i < |s| && Pending(buf % Pow2(bits), bits) && s[i] != PAD && !IsSpace(s[i]) && ValueOf(s[i]) == Some(v)
    ensures var buf' := buf * 64 % WORD + v;
            if bits == 0 then Pending(buf' % Pow2(6), 6) && Whole(out, s, i + 1, buf', 6) == Whole(out, s, i, buf, bits)
            else
              && Pending(buf' % Pow2(bits - 2), bits - 2)
              && Whole(out + [buf' / Pow2(bits - 2) % 256], s, i + 1, buf', bits - 2) == Whole(out, s, i, buf, bits)
  {
    var rest, buf' := buf % Pow2(bits), buf * 64 % WORD + v;
    DecodeStep(s, i, rest, bits);
    AccumulatorStep(buf, bits, v);
    BitsStep(rest, bits, v);
    hide Decode, Pow2, Prefixed, ValueOf;
    if bits > 0 {
      PrefixedTwice(out, [buf' / Pow2(bits - 2) % 256], Decode(s[i + 1..], buf' % Pow2(bits - 2), bits - 2));
    }
  }

  lemma WholeEnds(out: seq<Octet>, s: string, i: nat, buf: nat, bits: nat)
    requires i <= |s| && Pending(buf % Pow2(bits), bits)
    ensures i == |s| || s[i] == PAD ==> Whole(out, s, i, buf, bits) == Some(out)
    ensures i < |s| && s[i] != PAD && IsSpace(s[i]) ==> Whole(out, s, i, buf, bits) == Whole(out, s, i + 1, buf, bits)
    ensures i < |s| && s[i] != PAD && !IsSpace(s[i]) && ValueOf(s[i]).None? ==> Whole(out, s, i, buf, bits) == None
  {
    PrefixedTwice(out, [], None);
    if i < |s| {
      DecodeStep(s, i, buf % Pow2(bits), bits);
      hide Decode, Pow2;
    }
  }

  lemma WholeStarts(s: string)
    ensures Pending(0 % Pow2(0), 0) && Whole([], s, 0, 0, 0) == Decode(s, 0, 0)
  {
    Powers();
    assert s[0..] == s;
    PrefixedTwice([], [], Decode(s, 0, 0));
  }

  method Base64Decode(s: string) returns (r: Option<seq<Octet>>)
    ensures r == Decode(s, 0, 0)
  {
    var out: seq<Octet> := [];
    var buf: nat, bits: nat := 0, 0;
    WholeStarts(s);
    hide Decode, Pow2, ValueOf, IsSpace;
    var i: nat := 0;
    while i < |s|
      invariant i <= |s| && Pending(buf % Pow2(bits), bits)
      invariant Whole(out, s, i, buf, bits) == Decode(s, 0, 0)
    {
      hide Whole;
      var c := s[i];
      WholeEnds(out, s, i, buf, bits);
      if c == PAD {
        return Some(out);
      }
      if !IsSpace(c) {
        var v := ValueOf(c);
        if v.None? {
          return None;
        }
        WholeNext(out, s, i, buf, bits, v.value);
        buf := buf * 64 % WORD + v.value;
        bits := bits + 6;
        if bits >= 8 {
          bits := bits - 8;
          out := out + [buf / Pow2(bits) % 256];
        }
      }
      i := i + 1;
    }
    WholeEnds(out, s, i, buf, bits);
    return Some(out);
  }

  // ---------- decoding what was encoded ----------

  function Strip(s: string): string {
    if s == "" then "" else (if IsSpace(s[0]) then "" else [s[0]]) + Strip(s[1..])
  }

  /** White space may stand anywhere. */
  lemma {:induction false} DecodeStripped(s: string, rest: nat, bits: nat)
    requires Pending(rest, bits)
    ensures Decode(Strip(s), rest, bits) == Decode(s, rest, bits)
  {
    hide Pow2;
    if s != "" {
      if IsSpace(s[0]) {
        assert Strip(s) == Strip(s[1..]);
        DecodeStripped(s[1..], rest, bits);
      } else {
        assert Strip(s)[0] == s[0] && Strip(s)[1..] == Strip(s[1..]);
        if s[0] != PAD && ValueOf(s[0]).Some? {
          var v := ValueOf(s[0]).value;
          BitsStep(rest, bits, v);
          if bits == 0 {
            DecodeStripped(s[1..], v, 6);
          } else {
            DecodeStripped(s[1..], (rest * 64 + v) % Pow2(bits - 2), bits - 2);
          }
        }
      }
    }
  }

  /** The sextets of three bytes give the bytes back. */
  lemma SextetsBack(a: Octet, b: Octet, c: Octet)
    ensures var s := Sextets(a, b, c);
            var v0: nat, v1: nat, v2: nat, v3: nat, b': nat, c': nat := s[0], s[1], s[2], s[3], b / 16, c / 64;
            && (v0 * 64 + v1) / 16 == a && (v0 * 64 + v1) % 16 == b'
            && (b' * 64 + v2) / 4 == b && (b' * 64 + v2) % 4 == c' && c' * 64 + v3 == c
  {
    BytewiseSextets(a, b, c);
    hide Sextets;
    var a': nat, b': nat, c': nat := a, b, c;
    assert a' / 4 * 64 + (a' % 4 * 16 + b' / 16) == a' * 16 + b' / 16;
    assert b' / 16 * 64 + (b' % 16 * 4 + c' / 64) == b' * 4 + c' / 64;
  }

  lemma SextetStep(v: Sextet, t: string, rest: nat, bits: nat)
    requires Pending(rest, bits)
    ensures (BitsStep(rest, bits, v);
             Decode([CharOf(v)] + t, rest, bits)
             == if bits == 0 then Decode(t, v, 6)
                else Prefixed([(rest * 64 + v) / Pow2(bits - 2)],
                    Decode(t, (rest * 64 + v) % Pow2(bits - 2), bits - 2)))
  {
    CharRoundTrip(v);
    var s := [CharOf(v)] + t;
    assert s[0..] == s && s[1..] == t;
    DecodeStep(s, 0, rest, bits);
    hide Decode, CharOf, Pow2;
  }

  lemma TwoSextets(a: Octet, b: Octet, c: Octet, t: string)
    ensures var s := Sextets(a, b, c);
            Pending(b / 16, 4) && Decode([CharOf(s[0]), CharOf(s[1])] + t, 0, 0) == Prefixed([a], Decode(t, b / 16, 4))
  {
    var s := Sextets(a, b, c);
    Powers();
    SextetsBack(a, b, c);
    SextetStep(s[0], [CharOf(s[1])] + t, 0, 0);
    SextetStep(s[1], t, s[0], 6);
    hide Sextets, Decode, CharOf, Pow2, Prefixed;
    assert [CharOf(s[0]), CharOf(s[1])] + t == [CharOf(s[0])] + ([CharOf(s[1])] + t);
  }

  lemma ThreeSextets(a: Octet, b: Octet, c: Octet, t: string)
    ensures var s := Sextets(a, b, c);
            Pending(c / 64, 2) && Decode([CharOf(s[0]), CharOf(s[1]), CharOf(s[2])] + t, 0, 0)
                == Prefixed([a, b], Decode(t, c / 64, 2))
  {
    var s := Sextets(a, b, c);
    Powers();
    SextetsBack(a, b, c);
    TwoSextets(a, b, c, [CharOf(s[2])] + t);
    SextetStep(s[2], t, b / 16, 4);
    hide Sextets, Decode, CharOf, Pow2;
    PrefixedTwice([a], [b], Decode(t, c / 64, 2));
    assert [CharOf(s[0]), CharOf(s[1]), CharOf(s[2])] + t == [CharOf(s[0]), CharOf(s[1])] + ([CharOf(s[2])] + t);
    assert [a] + [b] == [a, b];
  }

  lemma FourSextets(a: Octet, b: Octet, c: Octet, t: string)
    ensures var s := Sextets(a, b, c);
            Decode([CharOf(s[0]), CharOf(s[1]), CharOf(s[2]), CharOf(s[3])] + t, 0, 0)
                == Prefixed([a, b, c], Decode(t, 0, 0))
  {
    var s := Sextets(a, b, c);
    Powers();
    SextetsBack(a, b, c);
    ThreeSextets(a, b, c, [CharOf(s[3])] + t);
    SextetStep(s[3], t, c / 64, 2);
    hide Sextets, Decode, CharOf, Pow2;
    PrefixedTwice([a, b], [c], Decode(t, 0, 0));
    assert [CharOf(s[0]), CharOf(s[1]), CharOf(s[2]), CharOf(s[3])] + t
           == [CharOf(s[0]), CharOf(s[1]), CharOf(s[2])] + ([CharOf(s[3])] + t);
    assert [a, b] + [c] == [a, b, c];
  }

  lemma StopsAtPad(t: string, rest: nat, bits: nat)
    requires Pending(rest, bits) && (t == "" || t[0] == PAD)
    ensures Decode(t, rest, bits) == Some([])
  {
  }

  lemma TailOne(a: Octet)
    ensures var s := Sextets(a, 0, 0); Encoded([a]) == [CharOf(s[0]), CharOf(s[1])] + [PAD, PAD]
  {
    hide Encoded, CharOf, Sextets;
    EncodedNext([a], 0);
    assert [a][0..] == [a];
  }

  lemma TailTwo(a: Octet, b: Octet)
    ensures var s := Sextets(a, b, 0); Encoded([a, b]) == [CharOf(s[0]), CharOf(s[1]), CharOf(s[2])] + [PAD]
  {
    hide Encoded, CharOf, Sextets;
    EncodedNext([a, b], 0);
    assert [a, b][0..] == [a, b];
  }

  lemma DecodeOne(a: Octet)
    ensures Decode(Encoded([a]), 0, 0) == Some([a])
  {
    Powers();
    StopsAtPad([PAD, PAD], 0, 4);
    hide Encoded, CharOf, Decode, Pow2, Sextets;
    TailOne(a);
    TwoSextets(a, 0, 0, [PAD, PAD]);
    assert [a] + [] == [a];
  }

  lemma DecodeTwo(a: Octet, b: Octet)
    ensures Decode(Encoded([a, b]), 0, 0) == Some([a, b])
  {
    Powers();
    StopsAtPad([PAD], 0, 2);
    hide Encoded, CharOf, Decode, Pow2, Sextets;
    TailTwo(a, b);
    ThreeSextets(a, b, 0, [PAD]);
    assert [a, b] + [] == [a, b];
  }

  lemma PrefixedSome(d: seq<Octet>, e: seq<Octet>)
    ensures Prefixed(d, Some(e)) == Some(d + e)
  {
  }

  /** Decoding an encoding gives the bytes back. */
  lemma {:induction false} DecodeEncoded(d: seq<Octet>)
    ensures Decode(Encoded(d), 0, 0) == Some(d)
    decreases |d|
  {
    hide Encoded, CharOf, Decode, Pow2, Sextets, Prefixed;
    Powers();
    EncodedNext(d, 0);
    assert d[0..] == d;
    if d == [] {
      StopsAtPad("", 0, 0);
    } else if |d| == 1 {
      assert d == [d[0]];
      DecodeOne(d[0]);
    } else if |d| == 2 {
      assert d == [d[0], d[1]];
      DecodeTwo(d[0], d[1]);
    } else {
      DecodeEncoded(d[3..]);
      FourSextets(d[0], d[1], d[2], Encoded(d[3..]));
      PrefixedSome([d[0], d[1], d[2]], d[3..]);
      assert d == [d[0], d[1], d[2]] + d[3..];
    }
  }

  /** The strict codec: decoding an encoding, with white space put in anywhere, gives the bytes back. */
  lemma StrictRoundTrip(d: seq<Octet>, t: string)
    requires Strip(t) == Encoded(d)
    ensures Decode(t, 0, 0) == Some(d)
  {
    Powers();
    DecodeStripped(t, 0, 0);
    DecodeEncoded(d);
  }

  // ---------- what the strict codec decodes ----------

  /** The sextets that a text stands for: its letters up to a padding character, white space aside. */
  predicate Spells(t: string, vs: seq<Sextet>)
    decreases |t|
  {
    if t == "" || t[0] == '=' then vs == []
    else if t[0] in "\n\r \t" then Spells(t[1..], vs)
    else vs != [] && t[0] == ALPHABET[vs[0]] && Spells(t[1..], vs[1..])
  }

  /** The number that is written by some digits of `k` bits each, behind the digits of another number. */
  function Number(front: nat, digits: seq<nat>, k: nat): nat
    decreases |digits|
  {
    if digits == [] then front else Number(front * Pow2(k) + digits[0], digits[1..], k)
  }

  /** The bytes hold the bits in order, as far as they fill whole bytes. */
  predicate HoldsBits(d: seq<Octet>, front: nat, bits: nat, vs: seq<Sextet>) {
    var all := bits + 6 * |vs|;
    |d| == all / 8 && Number(0, d, 8) == Number(front, vs, 6) / Pow2(all % 8)
  }

  lemma {:induction false} NumberSplits(front: nat, digits: seq<nat>, k: nat)
    ensures Number(front, digits, k) == front * Pow2(k * |digits|) + Number(0, digits, k)
    decreases |digits|
  {
    if digits == [] {
      assert k * 0 == 0 && Pow2(0) == 1;
    } else {
      var n := |digits| - 1;
      NumberSplits(front * Pow2(k) + digits[0], digits[1..], k);
      NumberSplits(digits[0], digits[1..], k);
      assert 0 * Pow2(k) + digits[0] == digits[0];
      assert k * |digits| == k + k * n;
      Pow2Adds(k, k * n);
      hide Number, Pow2;
      Distributes(front, Pow2(k), digits[0], Pow2(k * n));
    }
  }

  lemma Distributes(a: nat, p: nat, d: nat, q: nat)
    ensures (a * p + d) * q == a * (p * q) + d * q
  {
  }

  lemma Quotient(a: nat, m: nat, x: nat)
    requires m > 0
    ensures (a * m + x) / m == a + x / m
  {
    ModUnique(a * m + x, m, a + x / m, x % m);
  }

  /** One byte comes off the bits. */
  lemma ByteOff(y: Octet, rest: nat, low: nat, vs: seq<Sextet>, d: seq<Octet>)
    requires 8 * |d| <= low + 6 * |vs| < 8 * |d| + 8
    ensures Number(0, [y] + d, 8) == y * Pow2(8 * |d|) + Number(0, d, 8)
    ensures Number(y * Pow2(low) + rest, vs, 6)
         == y * Pow2(8 * |d|) * Pow2((low + 6 * |vs|) % 8) + Number(rest, vs, 6)
  {
    hide Number, Pow2;
    var r := (low + 6 * |vs|) % 8;
    assert low + 6 * |vs| == 8 * |d| + r;
    NumberFront(y, d);
    NumberSplits(y, d, 8);
    NumberSplits(y * Pow2(low) + rest, vs, 6);
    NumberSplits(rest, vs, 6);
    Pow2Adds(low, 6 * |vs|);
    Pow2Adds(8 * |d|, r);
    Distributes(y, Pow2(low), rest, Pow2(6 * |vs|));
    Associates(y, Pow2(8 * |d|), Pow2(r));
  }

  lemma NumberFront(y: Octet, d: seq<Octet>)
    ensures Number(0, [y] + d, 8) == Number(y, d, 8)
  {
    assert ([y] + d)[1..] == d && 0 * Pow2(8) + y == y;
  }

  lemma Associates(a: nat, b: nat, c: nat)
    ensures a * (b * c) == a * b * c
  {
  }

  /** One byte, and the bytes behind it. */
  lemma HoldsByte(y: Octet, rest: nat, low: nat, vs: seq<Sextet>, d: seq<Octet>)
    ensures HoldsBits([y] + d, y * Pow2(low) + rest, low + 8, vs) <==> HoldsBits(d, rest, low, vs)
  {
    hide *;
    var all := low + 6 * |vs|;
    HoldsIs([y] + d, y * Pow2(low) + rest, low + 8, vs);
    HoldsIs(d, rest, low, vs);
    EightMore(all);
    if |d| == all / 8 {
      ByteOff(y, rest, low, vs, d);
      Quotient(y * Pow2(8 * |d|), Pow2(all % 8), Number(rest, vs, 6));
    }
  }

  lemma HoldsIs(d: seq<Octet>, front: nat, bits: nat, vs: seq<Sextet>)
    ensures var all := bits + 6 * |vs|;
            && Pow2(all % 8) > 0
            && (HoldsBits(d, front, bits, vs) <==>
                  |d| == all / 8 && Number(0, d, 8) == Number(front, vs, 6) / Pow2(all % 8))
  {
    hide Number, Pow2;
  }

  lemma EightMore(all: nat)
    ensures (all + 8) / 8 == all / 8 + 1 && (all + 8) % 8 == all % 8
    ensures 8 * (all / 8) <= all < 8 * (all / 8) + 8 && all == 8 * (all / 8) + all % 8
  {
  }

  lemma SpaceChars(c: char)
    ensures c in "\n\r \t" <==> IsSpace(c)
  {
    assert "\n\r \t"[0] == '\n' && "\n\r \t"[1] == '\r' && "\n\r \t"[2] == ' ' && "\n\r \t"[3] == '\t';
  }

  lemma LetterValue(c: char, v: Sextet)
    ensures ValueOf(c) == Some(v) <==> c == ALPHABET[v]
    ensures IsSpace(ALPHABET[v]) == false && ALPHABET[v] != '='
  {
    AlphabetIs(v);
    CharRoundTrip(v);
    if ValueOf(c) == Some(v) {
      assert CharOf(v) == c;
    }
    hide CharOf;
  }

  /** One sextet in front. */
  lemma SpellsStep(t: string, vs: seq<Sextet>, v: Sextet)
    requires t != "" && ValueOf(t[0]) == Some(v)
    ensures Spells(t, vs) <==> vs != [] && vs[0] == v && Spells(t[1..], vs[1..])
  {
    LetterValue(t[0], v);
    SpaceChars(t[0]);
    if vs != [] && t[0] == ALPHABET[vs[0]] {
      LetterValue(t[0], vs[0]);
    }
    hide ValueOf;
  }

  lemma NumberStep(front: nat, vs: seq<Sextet>)
    requires vs != []
    ensures Number(front, vs, 6) == Number(front * 64 + vs[0], vs[1..], 6)
  {
    Powers();
    hide Pow2;
  }

  /** One more sextet, before any byte is complete. */
  lemma HoldsSextet(d: seq<Octet>, front: nat, bits: nat, vs: seq<Sextet>)
    requires vs != []
    ensures HoldsBits(d, front, bits, vs) <==> HoldsBits(d, front * 64 + vs[0], bits + 6, vs[1..])
  {
    NumberStep(front, vs);
    hide Number, Pow2;
  }

  lemma HoldsNothing(d: seq<Octet>, rest: nat, bits: nat)
    requires Pending(rest, bits)
    ensures HoldsBits(d, rest, bits, []) <==> d == []
  {
    if d == [] {
      assert bits + 6 * 0 == bits && bits % 8 == bits;
      assert Number(0, d, 8) == 0;
      assert rest / Pow2(bits) == 0;
    }
  }

  /** Decoding succeeds exactly on the texts that spell some sextets, and gives the whole bytes that their bits fill. */
  lemma {:induction false} DecodeMeans(t: string, rest: nat, bits: nat, d: seq<Octet>)
    requires Pending(rest, bits)
    ensures Decode(t, rest, bits) == Some(d) <==> exists vs :: Spells(t, vs) && HoldsBits(d, rest, bits, vs)
    decreases |t|
  {
    hide HoldsBits, ValueOf, Pow2, IsSpace;
    if t == "" || t[0] == PAD {
      HoldsNothing(d, rest, bits);
      assert Spells(t, []);
      assert forall vs :: Spells(t, vs) ==> vs == [];
    } else {
      SpaceChars(t[0]);
      if IsSpace(t[0]) {
        DecodeMeans(t[1..], rest, bits, d);
        assert forall vs :: Spells(t, vs) <==> Spells(t[1..], vs);
      } else if ValueOf(t[0]).None? {
        NoLetter(t);
      } else {
        DecodeLetter(t, rest, bits, d);
      }
    }
  }

  lemma NoLetter(t: string)
    requires t != "" && t[0] != PAD && !IsSpace(t[0]) && ValueOf(t[0]).None?
    ensures forall vs :: !Spells(t, vs)
  {
    SpaceChars(t[0]);
    forall vs ensures !Spells(t, vs) {
      if vs != [] {
        LetterValue(t[0], vs[0]);
      }
    }
  }

  /** What stands behind the first sextet: the byte that comes off, if any, and what the others have to hold. */
  predicate TailHolds(d: seq<Octet>, rest: nat, bits: nat, v: Sextet, vs: seq<Sextet>)
    requires Pending(rest, bits)
  {
    if bits == 0 then HoldsBits(d, v, 6, vs)
    else
      && d != [] && d[0] == (rest * 64 + v) / Pow2(bits - 2)
      && HoldsBits(d[1..], (rest * 64 + v) % Pow2(bits - 2), bits - 2, vs)
  }

  lemma TailMeans(t: string, rest: nat, bits: nat, d: seq<Octet>, v: Sextet)
    requires Pending(rest, bits) && t != "" && t[0] != PAD && !IsSpace(t[0]) && ValueOf(t[0]) == Some(v)
    requires (BitsStep(rest, bits, v); true)
    requires bits == 0 ==>
               (Decode(t[1..], v, 6) == Some(d) <==> exists vs :: Spells(t[1..], vs) && HoldsBits(d, v, 6, vs))
    requires bits != 0 && d != [] ==>
               (Decode(t[1..], (rest * 64 + v) % Pow2(bits - 2), bits - 2) == Some(d[1..]) <==>
                  exists vs :: Spells(t[1..], vs) && HoldsBits(d[1..], (rest * 64 + v) % Pow2(bits - 2), bits - 2, vs))
    ensures Decode(t, rest, bits) == Some(d) <==> exists vs :: Spells(t[1..], vs) && TailHolds(d, rest, bits, v, vs)
  {
    hide HoldsBits, ValueOf, Pow2, IsSpace, Decode, Spells, Prefixed;
    assert t[0..] == t;
    BitsStep(rest, bits, v);
    DecodeStep(t, 0, rest, bits);
    if bits != 0 {
      var y := (rest * 64 + v) / Pow2(bits - 2);
      PrefixedIs(y, Decode(t[1..], (rest * 64 + v) % Pow2(bits - 2), bits - 2), d);
    }
  }

  lemma PrefixedIs(y: Octet, r: Option<seq<Octet>>, d: seq<Octet>)
    ensures Prefixed([y], r) == Some(d) <==> d != [] && d[0] == y && r == Some(d[1..])
  {
    if d != [] {
      assert d == [d[0]] + d[1..];
    }
    if r.Some? {
      assert ([y] + r.value)[1..] == r.value;
    }
  }

  lemma {:induction false} DecodeLetter(t: string, rest: nat, bits: nat, d: seq<Octet>)
    requires Pending(rest, bits) && t != "" && t[0] != PAD && !IsSpace(t[0]) && ValueOf(t[0]).Some?
    ensures Decode(t, rest, bits) == Some(d) <==> exists vs :: Spells(t, vs) && HoldsBits(d, rest, bits, vs)
    decreases |t|, 0
  {
    var v := ValueOf(t[0]).value;
    hide HoldsBits, ValueOf, Pow2, IsSpace, Decode, Spells, TailHolds;
    BitsStep(rest, bits, v);
    if bits == 0 {
      DecodeMeans(t[1..], v, 6, d);
    } else if d != [] {
      DecodeMeans(t[1..], (rest * 64 + v) % Pow2(bits - 2), bits - 2, d[1..]);
    }
    TailMeans(t, rest, bits, d, v);
    forall vs ensures Spells(t, vs) <==> vs != [] && vs[0] == v && Spells(t[1..], vs[1..]) {
      SpellsStep(t, vs, v);
    }
    forall ws ensures HoldsBits(d, rest, bits, [v] + ws) <==> TailHolds(d, rest, bits, v, ws) {
      LetterHolds(d, rest, bits, v, ws);
    }
    if exists ws :: Spells(t[1..], ws) && TailHolds(d, rest, bits, v, ws) {
      var ws :| Spells(t[1..], ws) && TailHolds(d, rest, bits, v, ws);
      assert ([v] + ws)[1..] == ws;
      assert Spells(t, [v] + ws);
    }
    if exists vs :: Spells(t, vs) && HoldsBits(d, rest, bits, vs) {
      var vs :| Spells(t, vs) && HoldsBits(d, rest, bits, vs);
      assert vs == [v] + vs[1..];
    }
  }

  lemma {:induction false} NumberBound(digits: seq<nat>, k: nat)
    requires forall i :: 0 <= i < |digits| ==> digits[i] < Pow2(k)
    ensures Number(0, digits, k) < Pow2(k * |digits|)
    decreases |digits|
  {
    hide Number, Pow2;
    if digits == [] {
      EmptyNumber(k);
    } else {
      var n := |digits| - 1;
      NumberBound(digits[1..], k);
      NumberSplits(digits[0], digits[1..], k);
      FirstOfNumber(digits, k);
      OneMoreDigit(k, n);
      Pow2Adds(k, k * n);
      DigitBound(digits[0], Pow2(k), Number(0, digits[1..], k), Pow2(k * n));
    }
  }

  lemma EmptyNumber(k: nat)
    ensures k * 0 == 0 && Number(0, [], k) == 0 && Pow2(k * 0) == 1
  {
  }

  lemma FirstOfNumber(digits: seq<nat>, k: nat)
    requires digits != []
    ensures Number(0, digits, k) == Number(digits[0], digits[1..], k)
  {
    assert 0 * Pow2(k) + digits[0] == digits[0];
  }

  lemma OneMoreDigit(k: nat, n: nat)
    ensures k * (n + 1) == k + k * n
  {
  }

  lemma DigitBound(d: nat, p: nat, x: nat, q: nat)
    requires d < p && x < q
    ensures d * q + x < p * q
  {
    assert d * q + q == (d + 1) * q <= p * q;
  }

  /** The first byte is determined by the bits. */
  lemma FirstByte(y: Octet, rest: nat, low: nat, vs: seq<Sextet>, d: seq<Octet>)
    requires d != [] && rest < Pow2(low) && HoldsBits(d, y * Pow2(low) + rest, low + 8, vs)
    ensures d[0] == y
  {
    hide *;
    var all, tail := low + 6 * |vs|, d[1..];
    HoldsIs(d, y * Pow2(low) + rest, low + 8, vs);
    EightMore(all);
    assert d == [d[0]] + tail;
    var m, r, x := Pow2(8 * |tail|), Pow2(all % 8), Number(rest, vs, 6);
    ByteOff(y, rest, low, vs, tail);
    ByteOff(d[0], rest, low, vs, tail);
    BytesBound(tail);
    RestBound(rest, low, vs);
    Pow2Adds(8 * |tail|, all % 8);
    FirstDigit(d[0], y, m, r, Number(0, tail, 8), x);
  }

  lemma FirstDigit(d: nat, y: nat, m: nat, r: nat, low: nat, x: nat)
    requires r > 0 && low < m && x < m * r && d * m + low == (y * m * r + x) / r
    ensures d == y
  {
    var a := y * m;
    assert d * m + low == a + x / r && x / r < m by {
      Quotient(a, r, x);
      QuotientBound(x, m, r);
    }
    SameDigit(d, low, y, x / r, m);
  }

  lemma BytesBound(d: seq<Octet>)
    ensures Number(0, d, 8) < Pow2(8 * |d|)
  {
    assert Pow2(8) == 256 by {
      Powers();
      Pow2Adds(4, 4);
    }
    NumberBound(d, 8);
  }

  lemma RestBound(rest: nat, low: nat, vs: seq<Sextet>)
    requires rest < Pow2(low)
    ensures Number(rest, vs, 6) < Pow2(low + 6 * |vs|)
  {
    Powers();
    NumberBound(vs, 6);
    NumberSplits(rest, vs, 6);
    Pow2Adds(low, 6 * |vs|);
    hide Number, Pow2;
    DigitBound(rest, Pow2(low), Number(0, vs, 6), Pow2(6 * |vs|));
  }

  lemma QuotientBound(x: nat, m: nat, r: nat)
    requires r > 0 && x < m * r
    ensures x / r < m
  {
    var q := x / r;
    assert q * r <= x;
    LessFactor(q, m, r);
  }

  lemma LessFactor(q: nat, m: nat, r: nat)
    requires q * r < m * r
    ensures q < m
  {
    if m <= q {
      MulAtLeast(m, q, r);
    }
  }

  lemma MulAtLeast(a: nat, b: nat, c: nat)
    requires a <= b
    ensures a * c <= b * c
  {
  }

  lemma SameDigit(a: nat, s: nat, b: nat, t: nat, m: nat)
    requires s < m && t < m && a * m + s == b * m + t
    ensures a == b
  {
    if a < b {
      MulAtLeast(a + 1, b, m);
    } else if b < a {
      MulAtLeast(b + 1, a, m);
    }
  }

  /** What one sextet adds. */
  lemma LetterHolds(d: seq<Octet>, rest: nat, bits: nat, v: Sextet, vs: seq<Sextet>)
    requires Pending(rest, bits)
    ensures HoldsBits(d, rest, bits, [v] + vs) <==> TailHolds(d, rest, bits, v, vs)
  {
    hide *;
    Prepends(v, vs);
    HoldsSextet(d, rest, bits, [v] + vs);
    BitsStep(rest, bits, v);
    if bits == 0 {
      FirstTail(d, rest, v, vs);
    } else {
      LowBits(rest, bits);
      Recombined(rest * 64 + v, Pow2(bits - 2));
      LaterTail(d, rest, bits, v, vs);
    }
  }

  lemma Prepends(v: Sextet, vs: seq<Sextet>)
    ensures [v] + vs != [] && ([v] + vs)[0] == v && ([v] + vs)[1..] == vs
  {
  }

  lemma LowBits(rest: nat, bits: nat)
    requires Pending(rest, bits) && bits != 0
    ensures bits >= 2 && Pow2(bits - 2) > 0
  {
  }

  lemma Recombined(x: nat, m: nat)
    requires m > 0
    ensures x == x / m * m + x % m && x % m < m
  {
  }

  lemma FirstTail(d: seq<Octet>, rest: nat, v: Sextet, vs: seq<Sextet>)
    requires Pending(rest, 0) && rest == 0
    ensures TailHolds(d, rest, 0, v, vs) <==> HoldsBits(d, rest * 64 + v, 0 + 6, vs)
  {
    hide HoldsBits, Pow2;
  }

  lemma LaterTail(d: seq<Octet>, rest: nat, bits: nat, v: Sextet, vs: seq<Sextet>)
    requires Pending(rest, bits) && bits >= 2
    requires var m, x := Pow2(bits - 2), rest * 64 + v; x == x / m * m + x % m && x % m < m && x / m < 256
    ensures TailHolds(d, rest, bits, v, vs) <==> HoldsBits(d, rest * 64 + v, bits + 6, vs)
  {
    hide HoldsBits, Pow2;
    var low, x := bits - 2, rest * 64 + v;
    var y, next := x / Pow2(low), x % Pow2(low);
    if d != [] {
      assert d == [d[0]] + d[1..];
      HoldsByte(y, next, low, vs, d[1..]);
      if HoldsBits(d, y * Pow2(low) + next, low + 8, vs) {
        FirstByte(y, next, low, vs, d);
      }
    } else {
      NoByte(x, low, vs);
    }
  }

  lemma NoByte(front: nat, low: nat, vs: seq<Sextet>)
    ensures !HoldsBits([], front, low + 8, vs)
  {
    hide Number, Pow2;
  }

  // ---------- utility.h: the decoder ----------

  /** Its key: either alphabet, and zero for anything else. */
  function Key(c: char): Sextet {
    if 'A' <= c <= 'Z' then c as int - 'A' as int
    else if 'a' <= c <= 'z' then c as int - 'a' as int + 26
    else if '0' <= c <= '9' then c as int - '0' as int + 52
    else if c == '+' || c == '-' then 62
    else if c == '/' || c == '_' then 63
    else 0
  }

  /** A character of the URL-safe alphabet as the standard one has it. */
  function StandardChar(c: char): char {
    if c == '-' then '+' else if c == '_' then '/' else c
  }

  function Standard(t: string): (s: string)
    ensures |s| == |t|
  {
    seq(|t|, i requires 0 <= i < |t| => StandardChar(t[i]))
  }

  function Padding(n: nat): string {
    if n % 3 == 1 then [PAD, PAD] else if n % 3 == 2 then [PAD] else ""
  }

  /** A text that encodes the bytes, in either alphabet, with or without its padding. */
  predicate Encodes(t: string, d: seq<Octet>) {
    Standard(t) == Encoded(d) || Standard(t) + Padding(|d|) == Encoded(d)
  }

  lemma KeyOfStandard(c: char, v: Sextet)
    requires StandardChar(c) == CharOf(v)
    ensures Key(c) == v && c != PAD
  {
  }

  /** The length of an encoding: four characters for each group. */
  function TextSize(n: nat): nat {
    if n == 0 then 0 else if n <= 3 then 4 else 4 + TextSize(n - 3)
  }

  lemma {:induction false} TextSizeIs(n: nat)
    ensures TextSize(n) == (n + 2) / 3 * 4
  {
    if n > 3 {
      TextSizeIs(n - 3);
    }
  }

  lemma {:induction false} EncodedLength(d: seq<Octet>)
    ensures |Encoded(d)| == TextSize(|d|)
    decreases |d|
  {
    EncodedNext(d, 0);
    assert d[0..] == d;
    hide Encoded, CharOf, Sextets;
    if |d| >= 3 {
      EncodedLength(d[3..]);
    }
  }

  lemma {:induction false} EncodedDrop(d: seq<Octet>, k: nat)
    requires 3 * k <= |d|
    ensures 4 * k <= |Encoded(d)| && Encoded(d)[4 * k..] == Encoded(d[3 * k..])
    decreases k
  {
    hide Encoded, CharOf, Sextets;
    if k == 0 {
      assert d[0..] == d;
    } else {
      EncodedDrop(d, k - 1);
      EncodedNext(d, 3 * (k - 1));
      var e := Encoded(d[3 * (k - 1)..]);
      assert Encoded(d)[4 * k..] == e[4..];
    }
  }

  /** The sextets of the group at `k`, which may be short. */
  function Group(d: seq<Octet>, k: nat): seq<Sextet>
    requires 3 * k < |d|
  {
    Sextets(d[3 * k], if 3 * k + 1 < |d| then d[3 * k + 1] else 0, if 3 * k + 2 < |d| then d[3 * k + 2] else 0)
  }

  /** How many characters of a group are not padding. */
  function GroupLength(d: seq<Octet>, k: nat): nat
    requires 3 * k < |d|
  {
    if |d| == 3 * k + 1 then 2 else if |d| == 3 * k + 2 then 3 else 4
  }

  lemma GroupChars(d: seq<Octet>, k: nat, j: nat)
    requires 3 * k < |d| && j < GroupLength(d, k)
    ensures |Group(d, k)| == 4 && 4 * k + j < |Encoded(d)| && Encoded(d)[4 * k + j] == CharOf(Group(d, k)[j])
  {
    EncodedDrop(d, k);
    EncodedNext(d, 3 * k);
    FourOf(d[3 * k], if 3 * k + 1 < |d| then d[3 * k + 1] else 0, if 3 * k + 2 < |d| then d[3 * k + 2] else 0);
    hide Encoded, CharOf, Sextets;
    assert Encoded(d)[4 * k + j] == Encoded(d)[4 * k..][j];
  }

  lemma FourOf(a: Octet, b: Octet, c: Octet)
    ensures |Sextets(a, b, c)| == 4
  {
  }

  lemma CharsAgree(t: string, d: seq<Octet>, i: nat)
    requires Encodes(t, d) && i < |t|
    ensures i < |Encoded(d)| && StandardChar(t[i]) == Encoded(d)[i]
  {
    hide Encoded;
    assert Standard(t)[i] == StandardChar(t[i]);
  }

  /** The length of an encoding without its padding. */
  function BareSize(n: nat): nat {
    n / 3 * 4 + if n % 3 == 0 then 0 else n % 3 + 1
  }

  lemma PaddingSize(n: nat)
    ensures BareSize(n) + |Padding(n)| == TextSize(n)
  {
    TextSizeIs(n);
    hide TextSize;
  }

  /** Without its padding, the text has the characters of all the groups. */
  lemma TextLength(t: string, d: seq<Octet>)
    requires Encodes(t, d)
    ensures |t| == TextSize(|d|) || |t| == BareSize(|d|)
  {
    EncodedLength(d);
    PaddingSize(|d|);
    hide Encoded, TextSize, BareSize, Padding;
  }

  lemma GroupKeys(t: string, d: seq<Octet>, k: nat, j: nat)
    requires Encodes(t, d) && 3 * k < |d| && j < GroupLength(d, k)
    ensures |Group(d, k)| == 4 && 4 * k + j < |t| && Key(t[4 * k + j]) == Group(d, k)[j]
  {
    hide Encodes, Key, StandardChar, Group, TextSize, BareSize;
    TextLength(t, d);
    GroupChars(d, k, j);
    GroupInText(|d|, k, j, |t|, GroupLength(d, k));
    CharsAgree(t, d, 4 * k + j);
    KeyOfStandard(t[4 * k + j], Group(d, k)[j]);
  }

  lemma GroupInText(n: nat, k: nat, j: nat, length: nat, group: nat)
    requires 3 * k < n && j < group && group == if n == 3 * k + 1 then 2 else if n == 3 * k + 2 then 3 else 4
    requires length == TextSize(n) || length == BareSize(n)
    ensures 4 * k + j < length
  {
    TextSizeIs(n);
    hide TextSize;
  }

  /** The number of bytes that a text stands for, from its length and its padding. None if the count drops below
      zero, which only a lone padding character brings about. */
  function DecodedSize(t: string): Option<nat> {
    var n := |t|;
    if n % 4 == 2 then Some(n / 4 * 3 + 1)
    else if n % 4 == 3 then Some(n / 4 * 3 + 2)
    else if n >= 2 && t[n - 2] == PAD then Some(n / 4 * 3 - 2)
    else if n == 1 && t[0] == PAD then None
    else if n >= 1 && t[n - 1] == PAD then Some(n / 4 * 3 - 1)
    else Some(n / 4 * 3)
  }

  /** So many characters are read for so many bytes. */
  function CharsFor(size: nat): nat {
    4 * (size / 3) + if size % 3 == 0 then 0 else size % 3 + 1
  }

  lemma SizeFits(t: string)
    ensures DecodedSize(t).None? <==> t == [PAD]
    ensures DecodedSize(t).Some? ==> CharsFor(DecodedSize(t).value) <= |t|
  {
  }

  /** The size is right for every text that encodes something. */
  lemma SizeFromText(t: string, d: seq<Octet>)
    requires Encodes(t, d)
    ensures DecodedSize(t) == Some(|d|)
  {
    hide Encodes, TextSize, BareSize;
    TextLength(t, d);
    var n := |t|;
    if n % 4 == 0 && n > 0 {
      LastChars(t, d);
      FromPadding(n, |d|);
    } else {
      FromLength(n, |d|);
    }
  }

  lemma FromPadding(n: nat, size: nat)
    requires n % 4 == 0 && n > 0
    requires n == TextSize(size) || n == BareSize(size)
    ensures size == if size % 3 == 1 then n / 4 * 3 - 2 else if size % 3 == 2 then n / 4 * 3 - 1 else n / 4 * 3
    ensures n == TextSize(size) && size > 0
  {
    TextSizeIs(size);
    hide TextSize;
  }

  lemma FromLength(n: nat, size: nat)
    requires n % 4 != 0 || n == 0
    requires n == TextSize(size) || n == BareSize(size)
    ensures n != 1 && n % 4 != 1
    ensures size == if n % 4 == 2 then n / 4 * 3 + 1 else if n % 4 == 3 then n / 4 * 3 + 2 else 0
  {
    TextSizeIs(size);
    hide TextSize;
  }

  /** The last two characters of a padded text tell how long its last group is. */
  lemma LastChars(t: string, d: seq<Octet>)
    requires Encodes(t, d) && |t| % 4 == 0 && |t| > 0
    ensures d != [] && (t[|t| - 2] == PAD <==> |d| % 3 == 1) && (t[|t| - 1] == PAD <==> |d| % 3 != 0)
  {
    hide Encodes, Encoded, StandardChar, TextSize, BareSize;
    TextLength(t, d);
    var n, k := |t|, (|d| - 1) / 3;
    FromPadding(n, |d|);
    CharsAgree(t, d, n - 1);
    CharsAgree(t, d, n - 2);
    PadIsPad(t[n - 1]);
    PadIsPad(t[n - 2]);
    EncodedLength(d);
    EncodedEnd(d, k);
  }

  lemma EncodedEnd(d: seq<Octet>, k: nat)
    requires 3 * k < |d| <= 3 * k + 3
    ensures var e := Encoded(d);
            |e| == 4 * k + 4 && (e[4 * k + 2] == PAD <==> |d| == 3 * k + 1)
                && (e[4 * k + 3] == PAD <==> |d| != 3 * k + 3)
  {
    EncodedDrop(d, k);
    EncodedNext(d, 3 * k);
    NoPads();
    NothingEncoded(d, 3 * k + 3);
    hide Encoded, Sextets, CharOf;
    var e := Encoded(d);
    assert e[4 * k + 3] == e[4 * k..][3] && e[4 * k + 2] == e[4 * k..][2];
  }

  lemma NothingEncoded(d: seq<Octet>, i: nat)
    ensures i == |d| ==> Encoded(d[i..]) == ""
  {
  }

  lemma PadIsPad(c: char)
    ensures StandardChar(c) == PAD <==> c == PAD
  {
  }

  lemma NoPads()
    ensures forall v: Sextet :: CharOf(v) != PAD
  {
  }

  /** Some bytes stand at a position of whatever a text encodes. */
  ghost predicate BytesAt(t: string, at: nat, bytes: seq<Octet>) {
    forall d :: Encodes(t, d) && at + |bytes| <= |d| ==> bytes == d[at..at + |bytes|]
  }

  ghost predicate SizeIs(t: string, size: nat) {
    forall d :: Encodes(t, d) ==> |d| == size
  }

  lemma SizesAgree(t: string)
    ensures DecodedSize(t).Some? ==> SizeIs(t, DecodedSize(t).value)
    ensures DecodedSize(t).None? ==> forall d :: !Encodes(t, d)
  {
    forall d | Encodes(t, d) ensures DecodedSize(t) == Some(|d|) {
      SizeFromText(t, d);
    }
    hide Encodes, DecodedSize;
  }

  lemma BytesGrow(t: string, size: nat, a: seq<Octet>, b: seq<Octet>)
    requires SizeIs(t, size) && |a| + |b| <= size && BytesAt(t, 0, a) && BytesAt(t, |a|, b)
    ensures BytesAt(t, 0, a + b)
  {
    hide Encodes;
    forall d | Encodes(t, d) && |a + b| <= |d| ensures a + b == d[0..|a + b|] {
      assert a == d[0..|a|] && b == d[|a|..|a| + |b|];
    }
  }

  lemma BytesWhole(t: string, bytes: seq<Octet>)
    requires SizeIs(t, |bytes|) && BytesAt(t, 0, bytes)
    ensures forall d :: Encodes(t, d) ==> bytes == d
  {
    hide Encodes;
    forall d | Encodes(t, d) ensures bytes == d {
      assert d[0..|d|] == d;
    }
  }

  /** The first `count` bytes of the group whose characters begin at `4 * k`. */
  method ReadGroup(data: string, k: nat, count: nat) returns (bytes: seq<Octet>)
    requires 0 < count <= 3 && 4 * k + count < |data|
    ensures |bytes| == count && BytesAt(data, 3 * k, bytes)
  {
    hide Encodes, Key;
    var odd: nat, even: nat := Key(data[4 * k]), Key(data[4 * k + 1]);
    bytes := [(odd * 4 + even / 16) % 256];
    if count >= 2 {
      odd := Key(data[4 * k + 2]);
      bytes := bytes + [(even % 16 * 16 + odd / 4) % 256];
    }
    if count == 3 {
      even := Key(data[4 * k + 3]);
      bytes := bytes + [(odd % 4 * 64 + even) % 256];
    }
    forall d | Encodes(data, d) && 3 * k + count <= |d| ensures bytes == d[3 * k..3 * k + count] {
      GroupDecodes(data, d, k);
    }
  }

  /** Decodes a text. For every text that encodes some bytes, in either alphabet and padded or not, these are the
      bytes. None stands for the exception that a lone padding character causes. */
  method CrowDecode(data: string) returns (r: Option<seq<Octet>>)
    ensures r.None? <==> data == [PAD]
    ensures forall d :: Encodes(data, d) ==> r == Some(d)
  {
    SizeFits(data);
    SizesAgree(data);
    hide Encodes, DecodedSize, SizeIs, BytesAt;
    var whole := DecodedSize(data);
    if whole.None? {
      return None;
    }
    var size: nat, k: nat, ret: seq<Octet> := whole.value, 0, [];
    NoBytes(data);
    while size >= 3
      invariant 3 * k + size == whole.value && |ret| == 3 * k && BytesAt(data, 0, ret)
    {
      MoreChars(whole.value, k, size);
      var bytes := ReadGroup(data, k, 3);
      BytesGrow(data, whole.value, ret, bytes);
      ret, size, k := ret + bytes, size - 3, k + 1;
    }
    if size > 0 {
      MoreChars(whole.value, k, size);
      var bytes := ReadGroup(data, k, size);
      BytesGrow(data, whole.value, ret, bytes);
      ret := ret + bytes;
    }
    BytesWhole(data, ret);
    return Some(ret);
  }

  lemma NoBytes(t: string)
    ensures BytesAt(t, 0, [])
  {
  }

  lemma MoreChars(whole: nat, k: nat, size: nat)
    requires 3 * k + size == whole && size > 0
    ensures 4 * k + (if size < 3 then size else 3) < CharsFor(whole)
  {
  }

  /** The bytes of a group, put together from its sextets. */
  lemma BytesBack(a: Octet, b: Octet, c: Octet)
    ensures var s := Sextets(a, b, c);
            var v0: nat, v1: nat, v2: nat, v3: nat := s[0], s[1], s[2], s[3];
            (v0 * 4 + v1 / 16) % 256 == a && (v1 % 16 * 16 + v2 / 4) % 256 == b && (v2 % 4 * 64 + v3) % 256 == c
  {
    hide Sextets;
    BytewiseSextets(a, b, c);
    FirstBack(a, b);
    SecondBack(b, c);
  }

  lemma FirstBack(a: nat, b: nat)
    requires a < 256 && b < 256
    ensures (a / 4 * 4 + (a % 4 * 16 + b / 16) / 16) % 256 == a
  {
    assert (a % 4 * 16 + b / 16) / 16 == a % 4;
  }

  lemma SecondBack(b: nat, c: nat)
    requires b < 256 && c < 256
    ensures b / 16 < 16 ==> (b / 16 * 16 + (b % 16 * 4 + c / 64) / 4) % 256 == b
  {
    assert (b % 16 * 4 + c / 64) / 4 == b % 16;
  }

  lemma GroupDecodes(t: string, d: seq<Octet>, k: nat)
    requires Encodes(t, d) && 3 * k < |d|
    ensures 4 * k + 1 < |t| && (Key(t[4 * k]) as nat * 4 + Key(t[4 * k + 1]) / 16) % 256 == d[3 * k]
    ensures 3 * k + 1 < |d| ==>
              4 * k + 2 < |t| && (Key(t[4 * k + 1]) as nat % 16 * 16 + Key(t[4 * k + 2]) / 4) % 256 == d[3 * k + 1]
    ensures 3 * k + 2 < |d| ==>
              4 * k + 3 < |t| && (Key(t[4 * k + 2]) as nat % 4 * 64 + Key(t[4 * k + 3])) % 256 == d[3 * k + 2]
  {
    BytesBack(d[3 * k], if 3 * k + 1 < |d| then d[3 * k + 1] else 0, if 3 * k + 2 < |d| then d[3 * k + 2] else 0);
    GroupKeys(t, d, k, 0);
    GroupKeys(t, d, k, 1);
    if 3 * k + 1 < |d| {
      GroupKeys(t, d, k, 2);
    }
    if 3 * k + 2 < |d| {
      GroupKeys(t, d, k, 3);
    }
    hide Encodes, Key, Sextets;
  }
}
