/** The contents of JSON strings, as a grammar that does not mention the parser, and the bytes they mean. */
module JsonStrings {
  import opened Basics
  import opened Hexadecimals
  import opened JsonText

  // ---------- UTF-8 ----------

  /** The six bits of a continuation byte 10xxxxxx (section 3 of RFC 3629). */
  predicate IsTail(c: char) {
    0x80 <= c as int < 0xC0
  }

  /** The code point that a text begins with, and its number of bytes: 0xxxxxxx, or 110xxxxx and 1110xxxx with one and
      two continuation bytes, in their shortest form. */
  function FirstPoint(s: string): (r: Option<(nat, nat)>)
    requires s != ""
    ensures r.Some? ==> 1 <= r.value.1 <= |s|
  {
    var a := s[0] as int;
    if a < 0x80 then Some((a, 1))
    else if 0xC0 <= a < 0xE0 && |s| >= 2 && IsTail(s[1]) then
      var code := (a - 0xC0) * 0x40 + (s[1] as int - 0x80);
      if code >= 0x80 then Some((code, 2)) else None
    else if 0xE0 <= a < 0xF0 && |s| >= 3 && IsTail(s[1]) && IsTail(s[2]) then
      var code := (a - 0xE0) * 0x1000 + (s[1] as int - 0x80) * 0x40 + (s[2] as int - 0x80);
      if code >= 0x800 then Some((code, 3)) else None
    else None
  }

  function CodePoints(s: string): Option<seq<nat>> {
    if s == "" then Some([])
    else
      match FirstPoint(s)
      case None => None
      case Some((code, n)) =>
        match CodePoints(s[n..])
        case None => None
        case Some(rest) => Some([code] + rest)
  }

  lemma NoPoints(s: string)
    ensures CodePoints(s) == Some([]) <==> s == ""
  {
    if s != "" && CodePoints(s).Some? {
      assert |CodePoints(s).value| > 0;
    }
  }

  lemma OnePoint(s: string, code: nat)
    ensures CodePoints(s) == Some([code]) <==> s != "" && FirstPoint(s) == Some((code, |s|))
  {
    hide FirstPoint;
    if s != "" && FirstPoint(s).Some? {
      var (c, n) := FirstPoint(s).value;
      NoPoints(s[n..]);
      if CodePoints(s) == Some([code]) {
        var rest := CodePoints(s[n..]).value;
        assert [c] + rest == [code];
        assert c == ([c] + rest)[0] && |[c] + rest| == 1 + |rest|;
      }
      if n == |s| {
        assert s[n..] == "" && [c] + [] == [c];
      }
    }
  }

  lemma SixBits(code: nat)
    ensures code == code / 64 * 64 + code % 64
    ensures code / 64 == code / 4096 * 64 + code / 64 % 64
  {
    assert code / 64 / 64 == code / 4096;
  }

  /** There is one way to write a code point. */
  lemma WritesOnePoint(code: nat, s: string)
    requires code < 0x1_0000
    ensures CodePoints(s) == Some([code]) <==> s == Utf8(code)
  {
    OnePoint(s, code);
    SixBits(code);
    hide CodePoints;
  }

  lemma {:induction false} PointsAppend(s: string, code: nat, rest: string)
    requires CodePoints(s) == Some([code])
    ensures CodePoints(s + rest)
         == match CodePoints(rest) case None => None case Some(codes) => Some([code] + codes)
  {
    OnePoint(s, code);
    assert FirstPoint(s + rest) == Some((code, |s|));
    assert (s + rest)[|s|..] == rest;
    hide FirstPoint;
  }

  // ---------- strings ----------

  /** A piece of a string as it is written: a character, one of the short escapes, or a code in four digits together
      with the bytes that stand for it. */
  datatype Unit = Plain(c: char) | Short(k: nat) | Coded(digits: string, code: nat, bytes: string)

  /** The short escapes, and the characters they stand for (section 7 of RFC 8259). */
  const SHORT := "\"\\/bfnrt"
  const SHORT_MEANS: seq<int> := [0x22, 0x5C, 0x2F, 0x08, 0x0C, 0x0A, 0x0D, 0x09]

  predicate GoodUnit(u: Unit) {
    match u
    case Plain(c) => c != '"' && c != '\\' && c != NUL
    case Short(k) => k < 8
    case Coded(digits, code, bytes) => |digits| == 4 && Writes(digits, code) && CodePoints(bytes) == Some([code])
  }

  predicate GoodUnits(us: seq<Unit>) {
    forall i :: 0 <= i < |us| ==> GoodUnit(us[i])
  }

  function UnitText(u: Unit): (s: string)
    requires GoodUnit(u)
    ensures s != ""
  {
    match u
    case Plain(c) => [c]
    case Short(k) => ['\\', SHORT[k]]
    case Coded(digits, _, _) => "\\u" + digits
  }

  function UnitBytes(u: Unit): string
    requires GoodUnit(u)
  {
    match u
    case Plain(c) => [c]
    case Short(k) => [SHORT_MEANS[k] as char]
    case Coded(_, _, bytes) => bytes
  }

  function UnitsText(us: seq<Unit>): string
    requires GoodUnits(us)
  {
    if us == [] then "" else UnitText(us[0]) + UnitsText(us[1..])
  }

  function UnitsBytes(us: seq<Unit>): string
    requires GoodUnits(us)
  {
    if us == [] then "" else UnitBytes(us[0]) + UnitsBytes(us[1..])
  }

  lemma OneDigit(s: string, n: nat)
    requires s != ""
    ensures |s| == 1 ==> (Writes(s, n) <==> n < 16 && IsDigitOf(s[0], n))
    ensures |s| > 1 ==> (Writes(s, n) <==> IsDigitOf(s[|s| - 1], n % 16) && Writes(s[..|s| - 1], n / 16))
  {
    hide IsDigitOf;
  }

  lemma FourDigits(s: string, n: nat)
    requires |s| == 4
    ensures Writes(s, n) <==>
              && n < 0x1_0000 && IsDigitOf(s[0], n / 4096) && IsDigitOf(s[1], n / 256 % 16)
              && IsDigitOf(s[2], n / 16 % 16) && IsDigitOf(s[3], n % 16)
  {
    assert s[..3][..2] == s[..2] && s[..2][..1] == s[..1];
    hide IsDigitOf, Writes;
    OneDigit(s, n);
    OneDigit(s[..3], n / 16);
    OneDigit(s[..2], n / 256);
    OneDigit(s[..1], n / 4096);
    assert n / 16 / 16 == n / 256 && n / 256 / 16 == n / 4096;
  }

  lemma DigitMeans(c: char, d: nat)
    requires IsDigitOf(c, d)
    ensures IsHex(c) && FromHex(c) == d
  {
    DigitCodes(d);
  }

  lemma DigitIs(c: char)
    requires IsHex(c)
    ensures IsDigitOf(c, FromHex(c))
  {
    var d := HexIsDigit(c);
    DigitMeans(c, d);
  }

  lemma CodeMeans(t: string, p: nat, digits: string, code: nat)
    requires |digits| == 4 && p + 6 <= |t| && t[p + 2..p + 6] == digits
    ensures Writes(digits, code) <==>
              IsHex(t[p + 2]) && IsHex(t[p + 3]) && IsHex(t[p + 4]) && IsHex(t[p + 5]) && Code(t, p) == code
  {
    assert digits[0] == t[p + 2] && digits[1] == t[p + 3] && digits[2] == t[p + 4] && digits[3] == t[p + 5];
    hide Writes, IsDigitOf, IsHex, FromHex;
    FourDigits(digits, code);
    if Writes(digits, code) {
      DigitMeans(digits[0], code / 4096);
      DigitMeans(digits[1], code / 256 % 16);
      DigitMeans(digits[2], code / 16 % 16);
      DigitMeans(digits[3], code % 16);
      Sixteens(code);
    }
    if IsHex(t[p + 2]) && IsHex(t[p + 3]) && IsHex(t[p + 4]) && IsHex(t[p + 5]) && Code(t, p) == code {
      DigitIs(digits[0]);
      DigitIs(digits[1]);
      DigitIs(digits[2]);
      DigitIs(digits[3]);
      SixteensOf(FromHex(digits[0]), FromHex(digits[1]), FromHex(digits[2]), FromHex(digits[3]));
    }
  }

  lemma Sixteens(n: nat)
    ensures n == n / 4096 * 4096 + n / 256 % 16 * 256 + n / 16 % 16 * 16 + n % 16
  {
    assert n / 16 / 16 == n / 256 && n / 256 / 16 == n / 4096;
  }

  lemma SixteensOf(a: nat, b: nat, c: nat, d: nat)
    requires a < 16 && b < 16 && c < 16 && d < 16
    ensures var n := a * 4096 + b * 256 + c * 16 + d;
            n < 0x1_0000 && n / 4096 == a && n / 256 % 16 == b && n / 16 % 16 == c && n % 16 == d
  {
    var n := a * 4096 + b * 256 + c * 16 + d;
    assert n / 16 == a * 256 + b * 16 + c;
    assert n / 16 / 16 == a * 16 + b && n / 16 / 16 == n / 256;
  }

  lemma ShortMeans(k: nat)
    requires k < 8
    ensures IsSimpleEscape(SHORT[k]) && SimpleEscape(SHORT[k]) as int == SHORT_MEANS[k]
  {
  }

  lemma ShortFound(c: char) returns (k: nat)
    requires IsSimpleEscape(c)
    ensures k < 8 && SHORT[k] == c
  {
    k := if c == '"' then 0 else if c == '\\' then 1 else if c == '/' then 2 else if c == 'b' then 3
         else if c == 'f' then 4 else if c == 'n' then 5 else if c == 'r' then 6 else 7;
  }

  /** A unit in a text, as the scan sees it. */
  lemma UnitScans(t: string, p: nat, u: Unit)
    requires GoodUnit(u) && At(t, p, UnitText(u))
    ensures p < |t| && t[p] != '"' && t[p] != NUL
    ensures t[p] == '\\' <==> !u.Plain?
    ensures t[p] == '\\' ==> EscapeLength(t, p) == |UnitText(u)|
    ensures u.Plain? ==> |UnitText(u)| == 1
    ensures u.Short? ==> EscapeLength(t, p) == 2 && SimpleEscape(t[p + 1]) as int == SHORT_MEANS[u.k]
    ensures u.Coded? ==> EscapeLength(t, p) == 6 && Code(t, p) == u.code
  {
    AtChar(t, p, UnitText(u), 0);
    match u
    case Plain(c) =>
    case Short(k) =>
      AtChar(t, p, UnitText(u), 1);
      ShortMeans(k);
    case Coded(digits, code, _) =>
      AtChar(t, p, UnitText(u), 1);
      AtSplits(t, p, "\\u", digits);
      CodeMeans(t, p, digits, code);
      hide IsHex, Code, Writes, IsSimpleEscape, CodePoints;
      assert !IsSimpleEscape('u') by { NotSimple(); }
  }

  lemma NotSimple()
    ensures !IsSimpleEscape('u')
  {
  }

  lemma UnitUnescapes(u: Unit, rest: string)
    requires GoodUnit(u) && Raw(rest)
    ensures Raw(UnitText(u) + rest)
    ensures Unescaped(UnitText(u) + rest) == UnitBytes(u) + Unescaped(rest)
  {
    var s := UnitText(u) + rest;
    assert s[..|UnitText(u)|] == UnitText(u) && At(s, 0, UnitText(u));
    assert s[|UnitText(u)|..] == rest;
    UnitScans(s, 0, u);
    if u.Coded? {
      WritesOnePoint(u.code, u.bytes);
    }
    if u.Plain? {
      assert s[0] == UnitText(u)[0];
    }
    hide EscapeLength, Code, Utf8, IsHex, CodePoints, Writes;
  }

  /** What a string means is what its units mean, one after the other. */
  lemma {:induction false} UnitsUnescape(us: seq<Unit>)
    requires GoodUnits(us)
    ensures Raw(UnitsText(us)) && Unescaped(UnitsText(us)) == UnitsBytes(us)
  {
    hide GoodUnit, UnitText, UnitBytes;
    if us != [] {
      UnitsUnescape(us[1..]);
      UnitUnescapes(us[0], UnitsText(us[1..]));
    }
  }

  lemma UnitsStep(us: seq<Unit>, close: string)
    requires GoodUnits(us) && us != []
    ensures GoodUnit(us[0]) && GoodUnits(us[1..])
    ensures UnitsText(us) + close == UnitText(us[0]) + (UnitsText(us[1..]) + close)
    ensures |UnitsText(us)| == |UnitText(us[0])| + |UnitsText(us[1..])|
  {
    hide GoodUnit, UnitText;
    Regroup(UnitText(us[0]), UnitsText(us[1..]), close);
  }

  lemma UnitStep(t: string, p: nat, u: Unit, rest: string)
    requires Terminated(t) && GoodUnit(u) && At(t, p, UnitText(u) + rest) && rest != ""
    ensures p + |UnitText(u)| < |t| && StringEnd(t, p) == StringEnd(t, p + |UnitText(u)|)
    ensures At(t, p + |UnitText(u)|, rest)
  {
    AtSplits(t, p, UnitText(u), rest);
    UnitScans(t, p, u);
    AtInside(t, p + |UnitText(u)|, rest);
    hide At, UnitText, GoodUnit, EscapeLength;
  }

  lemma QuoteEnds(t: string, p: nat)
    requires Terminated(t) && At(t, p, "\"")
    ensures p < |t| && StringEnd(t, p) == Some(p)
  {
    AtChar(t, p, "\"", 0);
  }

  lemma {:induction false} UnitsRead(t: string, p: nat, us: seq<Unit>)
    requires Terminated(t) && GoodUnits(us) && At(t, p, UnitsText(us) + "\"") && p < |t|
    ensures StringEnd(t, p) == Some(p + |UnitsText(us)|)
    decreases |us|
  {
    hide Terminated, At, UnitText, StringEnd, GoodUnit;
    if us == [] {
      assert UnitsText(us) + "\"" == "\"";
      QuoteEnds(t, p);
    } else {
      UnitsStep(us, "\"");
      UnitStep(t, p, us[0], UnitsText(us[1..]) + "\"");
      UnitsRead(t, p + |UnitText(us[0])|, us[1..]);
    }
  }

  /** The unit at a position in a string that is not at its end. */
  lemma UnitWritten(t: string, p: nat) returns (u: Unit)
    requires Terminated(t) && p < |t| && t[p] != '"' && StringEnd(t, p).Some?
    ensures GoodUnit(u) && p + |UnitText(u)| < |t| && t[p..p + |UnitText(u)|] == UnitText(u)
    ensures StringEnd(t, p) == StringEnd(t, p + |UnitText(u)|)
  {
    if t[p] != '\\' {
      u := Plain(t[p]);
    } else if EscapeLength(t, p) == 2 {
      var k := ShortFound(t[p + 1]);
      u := Short(k);
    } else {
      var digits, code := t[p + 2..p + 6], Code(t, p);
      CodeMeans(t, p, digits, code);
      WritesOnePoint(code, Utf8(code));
      u := Coded(digits, code, Utf8(code));
    }
  }

  lemma EndsHere(t: string, p: nat)
    requires Terminated(t) && p < |t| && t[p] == '"'
    ensures StringEnd(t, p) == Some(p)
  {
  }

  lemma {:induction false} UnitsWritten(t: string, p: nat) returns (us: seq<Unit>)
    requires Terminated(t) && p < |t| && StringEnd(t, p).Some?
    ensures GoodUnits(us) && t[p..StringEnd(t, p).value] == UnitsText(us)
    decreases |t| - p
  {
    hide UnitText, GoodUnit, StringEnd;
    if t[p] == '"' {
      EndsHere(t, p);
      us := [];
    } else {
      var u := UnitWritten(t, p);
      var e := StringEnd(t, p).value;
      var rest := UnitsWritten(t, p + |UnitText(u)|);
      us := [u] + rest;
      assert us[1..] == rest;
      assert t[p..e] == t[p..p + |UnitText(u)|] + t[p + |UnitText(u)|..e];
    }
  }

  /** A string of escapes, written with four digits each, means the UTF-8 form of their codes. */
  lemma {:induction false} EscapesDecode(us: seq<Unit>)
    requires GoodUnits(us) && forall i :: 0 <= i < |us| ==> us[i].Coded?
    ensures Raw(UnitsText(us)) && CodePoints(Unescaped(UnitsText(us))) == Some(CodesOf(us))
  {
    UnitsUnescape(us);
    hide CodePoints, Unescaped, UnitsText, Raw, Writes;
    if us == [] {
      NoPoints("");
    } else {
      EscapesDecode(us[1..]);
      UnitsUnescape(us[1..]);
      PointsAppend(us[0].bytes, us[0].code, UnitsBytes(us[1..]));
    }
  }

  function CodesOf(us: seq<Unit>): seq<nat>
    requires forall i :: 0 <= i < |us| ==> us[i].Coded?
  {
    if us == [] then [] else [us[0].code] + CodesOf(us[1..])
  }

  /** In particular one escape, with digits of either case, means its code. */
  lemma EscapeDecodes(digits: string, code: nat)
    requires |digits| == 4 && Writes(digits, code)
    ensures Raw("\\u" + digits) && CodePoints(Unescaped("\\u" + digits)) == Some([code])
  {
    hide *;
    FourDigits(digits, code);
    var u := Coded(digits, code, Utf8(code));
    WritesOnePoint(code, Utf8(code));
    OneCode(u);
    EscapesDecode([u]);
  }

  lemma OneCode(u: Unit)
    requires u.Coded? && |u.digits| == 4 && Writes(u.digits, u.code) && CodePoints(u.bytes) == Some([u.code])
    ensures GoodUnits([u]) && UnitsText([u]) == "\\u" + u.digits && CodesOf([u]) == [u.code]
  {
    hide CodePoints, Writes;
    assert [u][1..] == [];
    assert UnitsText([u][1..]) == "" && CodesOf([u][1..]) == [];
  }

  /** The code points that may be written in UTF-8 (section 3 of RFC 3629): no halves of surrogate pairs. */
  predicate IsScalar(code: nat) {
    !(0xD800 <= code < 0xE000)
  }

  predicate IsUtf8(s: string) {
    CodePoints(s).Some? && forall code :: code in CodePoints(s).value ==> IsScalar(code)
  }

  /** The two halves of a surrogate pair are not joined: a string of escapes is read as UTF-8 exactly if it has none. */
  lemma SurrogatesStay(us: seq<Unit>)
    requires GoodUnits(us) && forall i :: 0 <= i < |us| ==> us[i].Coded?
    ensures IsUtf8(UnitsBytes(us)) <==> forall i :: 0 <= i < |us| ==> IsScalar(us[i].code)
  {
    hide CodePoints, Unescaped, UnitsText, Raw, Writes, CodesOf, UnitsBytes, IsScalar, GoodUnit;
    UnitsUnescape(us);
    EscapesDecode(us);
    CodesAt(us);
    forall i | 0 <= i < |us| ensures us[i].code in CodesOf(us) {
      assert CodesOf(us)[i] == us[i].code;
    }
  }

  lemma {:induction false} CodesAt(us: seq<Unit>)
    requires forall i :: 0 <= i < |us| ==> us[i].Coded?
    ensures |CodesOf(us)| == |us| && forall i :: 0 <= i < |us| ==> CodesOf(us)[i] == us[i].code
  {
    if us != [] {
      CodesAt(us[1..]);
    }
  }
}
