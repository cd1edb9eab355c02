/** Query strings: parsed and decoded in place, in the buffer that holds the URL. A character stands for one byte,
    and a NUL ends every string. */
module QueryString {
  import opened Basics
  import opened Hexadecimals

  /** How many pairs are kept. */
  const MAX_PAIRS: nat := 256

  // ---------- percent-encoding ----------

  /** The characters that neither end a key nor a value. */
  predicate IsQsChar(c: char) {
    c != '=' && c != '#' && c != '&' && c != NUL
  }

  function HexToDec(c: char): (n: nat)
    ensures n < 16
  {
    if '0' <= c <= '9' then c as int - 48
    else if 'A' <= c <= 'F' then c as int - 55
    else if 'a' <= c <= 'f' then c as int - 87
    else 0
  }

  /** What a text stands for. It ends before a percent sign that is not followed by two hexadecimal digits. */
  function Decoded(e: string): (d: string)
    ensures |d| <= |e|
  {
    if e == "" then ""
    else if e[0] == '+' then " " + Decoded(e[1..])
    else if e[0] == '%' then
      if |e| < 3 || !IsHex(e[1]) || !IsHex(e[2]) then ""
      else [(HexToDec(e[1]) * 16 + HexToDec(e[2])) as char] + Decoded(e[3..])
    else [e[0]] + Decoded(e[1..])
  }

  /** A percent-encoding of a value in the sense of section 2.1 of RFC 3986: each character stands for itself if it
      may, or as two hexadecimal digits of either case; a space may also be a plus sign. */
  predicate IsEncoding(e: string, v: string) {
    if v == "" then e == ""
    else
      e != "" &&
      (if e[0] == '%' then
         |e| >= 3 && Writes(e[1..3], v[0] as nat) && IsEncoding(e[3..], v[1..])
       else if e[0] == '+' then v[0] == ' ' && IsEncoding(e[1..], v[1..])
       else IsQsChar(e[0]) && e[0] == v[0] && IsEncoding(e[1..], v[1..]))
  }

  /** The first character that a text stands for, and how much of the text says so. None for a percent sign that is
      not followed by two digits. */
  function Unit(e: string): (r: Option<(char, nat)>)
    requires e != ""
    ensures r.Some? ==> 1 <= r.value.1 <= |e|
  {
    if e[0] == '+' then Some((' ', 1))
    else if e[0] == '%' then
      if |e| < 3 || !IsHex(e[1]) || !IsHex(e[2]) then None
          else Some(((HexToDec(e[1]) * 16 + HexToDec(e[2])) as char, 3))
    else Some((e[0], 1))
  }

  lemma DecodedByUnit(e: string)
    requires e != ""
    ensures Decoded(e) == if Unit(e).None? then "" else [Unit(e).value.0] + Decoded(e[Unit(e).value.1..])
  {
  }

  predicate AllQsChars(e: string) {
    forall i :: 0 <= i < |e| ==> IsQsChar(e[i])
  }

  lemma DigitReads(c: char, d: nat)
    requires IsDigitOf(c, d)
    ensures IsHex(c) && HexToDec(c) == d && IsQsChar(c)
  {
    DigitCodes(d);
  }

  /** Two digits are read as the number they write. */
  lemma TwoDigitsRead(s: string, n: nat)
    requires |s| == 2 && Writes(s, n)
    ensures IsHex(s[0]) && IsHex(s[1]) && HexToDec(s[0]) * 16 + HexToDec(s[1]) == n
    ensures IsQsChar(s[0]) && IsQsChar(s[1])
  {
    assert s[..1][0] == s[0] && |s[..1]| == 1;
    assert IsDigitOf(s[1], n % 16) && Writes(s[..1], n / 16);
    assert IsDigitOf(s[0], n / 16 % 16) && n / 16 < 16;
    hide Writes, IsDigitOf;
    DigitReads(s[1], n % 16);
    DigitReads(s[0], n / 16);
  }

  /** The code of the first character of a value. */
  lemma EncodingStep(e: string, v: string)
    requires v != "" && IsEncoding(e, v)
    ensures e != "" && Unit(e).Some? && Unit(e).value.0 == v[0] && IsEncoding(e[Unit(e).value.1..], v[1..])
    ensures forall i :: 0 <= i < Unit(e).value.1 ==> IsQsChar(e[i])
  {
    hide Writes, HexToDec, IsHex;
    if e[0] == '%' {
      assert e[1..3][0] == e[1] && e[1..3][1] == e[2];
      TwoDigitsRead(e[1..3], v[0] as nat);
    }
  }

  lemma {:induction false} EncodingDecodes(e: string, v: string)
    requires IsEncoding(e, v)
    ensures Decoded(e) == v && AllQsChars(e)
  {
    if v != "" {
      EncodingStep(e, v);
      DecodedByUnit(e);
      hide IsEncoding, Decoded, Unit, IsQsChar;
      var n := Unit(e).value.1;
      EncodingDecodes(e[n..], v[1..]);
      assert forall i :: n <= i < |e| ==> e[i] == e[n..][i - n];
      assert v == [v[0]] + v[1..];
    }
  }

  // ---------- strings in a buffer ----------

  /** From `p` on there is a NUL, or one of some characters. */
  predicate Stops(b: string, p: nat, stops: set<char>) {
    exists k :: p <= k < |b| && (b[k] == NUL || b[k] in stops)
  }

  /** It is `n` characters to the first of some characters, or to the end of the string. */
  predicate Spans(b: string, p: nat, n: nat, stops: set<char>) {
    && p + n < |b| && (b[p + n] == NUL || b[p + n] in stops)
    && forall i :: p <= i < p + n ==> b[i] != NUL && b[i] !in stops
  }

  method StrCspn(b: array<char>, p: nat, stops: set<char>) returns (n: nat)
    requires Stops(b[..], p, stops)
    ensures Spans(b[..], p, n, stops)
  {
    ghost var k :| p <= k < b.Length && (b[..][k] == NUL || b[..][k] in stops);
    n := 0;
    while b[p + n] != NUL && b[p + n] !in stops
      invariant p + n <= k
      invariant forall i :: p <= i < p + n ==> b[i] != NUL && b[i] !in stops
      decreases k - (p + n)
    {
      n := n + 1;
    }
  }

  /** The text `e` stands at `p`, and the character behind it ends it. */
  predicate StandsAt(b: string, p: nat, e: string) {
    p + |e| < |b| && b[p..p + |e|] == e && !IsQsChar(b[p + |e|])
  }

  /** Reads one unit. The character behind the text is no digit, so that looking at it does no harm. */
  method ReadUnit(b: array<char>, p: nat, ghost e: string) returns (u: Option<(char, nat)>)
    requires StandsAt(b[..], p, e) && e != ""
    ensures u == Unit(e)
  {
    assert forall k :: 0 <= k < |e| ==> e[k] == b[..][p + k];
    assert !IsHex(b[p + |e|]);
    if b[p] == '+' {
      return Some((' ', 1));
    }
    if b[p] != '%' {
      return Some((b[p], 1));
    }
    assert |e| >= 2 ==> e[1] == b[p + 1];
    if !IsHex(b[p + 1]) {
      return None;
    }
    assert |e| >= 3 ==> e[2] == b[p + 2];
    if !IsHex(b[p + 2]) {
      return None;
    }
    return Some(((HexToDec(b[p + 1]) * 16 + HexToDec(b[p + 2])) as char, 3));
  }

  /** Halfway through decoding: what has been written, and what the rest stands for, together are the value. */
  ghost predicate Halfway(a: string, b: string, p: nat, e: string, i: nat, j: nat) {
    && |a| == |b| && i <= j <= |e| && StandsAt(a, p, e)
    && b[p..p + i] + Decoded(e[j..]) == Decoded(e)
    && forall k :: 0 <= k < p || p + i <= k < |a| ==> b[k] == a[k]
  }

  lemma HalfwayRest(a: string, b: string, p: nat, e: string, i: nat, j: nat)
    requires Halfway(a, b, p, e, i, j)
    ensures p + |e| < |b| && StandsAt(b, p + j, e[j..])
  {
    assert b[p + j..p + |e|] == a[p + j..p + |e|] == e[j..] by {
      assert a[p..p + |e|][j..] == a[p + j..p + |e|];
    }
  }

  lemma OneMore(b: string, p: nat, i: nat, c: char, rest: string)
    requires p + i < |b|
    ensures b[p + i := c][p..p + i + 1] == b[p..p + i] + [c]
    ensures (b[p..p + i] + [c]) + rest == b[p..p + i] + ([c] + rest)
  {
  }

  lemma HalfwayNext(a: string, b: string, p: nat, e: string, i: nat, j: nat, c: char, n: nat)
    requires Halfway(a, b, p, e, i, j) && j < |e| && Unit(e[j..]) == Some((c, n))
    ensures p + i < |b| && Halfway(a, b[p + i := c], p, e, i + 1, j + n)
  {
    DecodedByUnit(e[j..]);
    assert e[j..][n..] == e[j + n..];
    OneMore(b, p, i, c, Decoded(e[j + n..]));
    hide Decoded, Unit, StandsAt;
  }

  lemma HalfwayStops(a: string, b: string, p: nat, e: string, i: nat, j: nat)
    requires Halfway(a, b, p, e, i, j) && j < |e| && Unit(e[j..]) == None
    ensures p + i < |b| && b[p..p + i] == Decoded(e)
  {
    DecodedByUnit(e[j..]);
    hide Decoded, Unit;
  }

  lemma HalfwayEnd(a: string, b: string, p: nat, e: string, i: nat)
    requires Halfway(a, b, p, e, i, |e|)
    ensures b[p..p + i] == Decoded(e)
  {
    assert e[|e|..] == "";
  }

  /** A decoded value stands at `p`, and nothing else has changed. */
  ghost predicate DecodedAt(a: string, b: string, p: nat, e: string) {
    var n := |Decoded(e)|;
    && |a| == |b| && p + n < |b| && b[p..p + n] == Decoded(e) && b[p + n] == NUL
    && forall k :: 0 <= k < p || p + n < k < |a| ==> b[k] == a[k]
  }

  lemma HalfwayClosed(a: string, b: string, p: nat, e: string, i: nat, j: nat)
    requires Halfway(a, b, p, e, i, j) && b[p..p + i] == Decoded(e)
    ensures p + i < |b| && DecodedAt(a, b[p + i := NUL], p, e)
  {
    hide Decoded;
    assert b[p + i := NUL][p..p + i] == b[p..p + i];
  }

  lemma HalfwayStart(a: string, p: nat, e: string)
    requires StandsAt(a, p, e)
    ensures Halfway(a, a, p, e, 0, 0)
  {
    assert e[0..] == e && a[p..p] == "";
  }

  /** Where the reading position is, and whether the text goes on. */
  lemma HalfwayReads(a: string, b: string, p: nat, e: string, i: nat, j: nat)
    requires Halfway(a, b, p, e, i, j) && AllQsChars(e)
    ensures |a| == |b| && i <= j <= |e| && p + j < |b| && StandsAt(b, p + j, e[j..])
    ensures IsQsChar(b[p + j]) <==> j < |e|
  {
    hide StandsAt, AllQsChars, IsQsChar, Decoded;
    HalfwayRest(a, b, p, e, i, j);
    AtEnd(b, p, e, j);
  }

  /** Decodes a value where it stands. The writing position never passes the reading position; nothing behind the
      NUL that ends the result is touched. */
  method QsDecode(b: array<char>, p: nat, ghost e: string)
    requires StandsAt(b[..], p, e) && AllQsChars(e)
    modifies b
    ensures DecodedAt(old(b[..]), b[..], p, e)
  {
    hide Halfway, Unit, Decoded, StandsAt, DecodedAt, AllQsChars, IsQsChar;
    ghost var a := b[..];
    var i: nat, j: nat := 0, 0;
    HalfwayStart(a, p, e);
    HalfwayReads(a, b[..], p, e, 0, 0);
    while IsQsChar(b[p + j])
      invariant Halfway(a, b[..], p, e, i, j) && p + j < b.Length && i <= j <= |e|
      decreases |e| - j
    {
      HalfwayReads(a, b[..], p, e, i, j);
      var u := ReadUnit(b, p + j, e[j..]);
      if u.None? {
        HalfwayStops(a, b[..], p, e, i, j);
        HalfwayClosed(a, b[..], p, e, i, j);
        b[p + i] := NUL;
        return;
      }
      HalfwayNext(a, b[..], p, e, i, j, u.value.0, u.value.1);
      b[p + i] := u.value.0;
      i, j := i + 1, j + u.value.1;
      HalfwayReads(a, b[..], p, e, i, j);
    }
    HalfwayReads(a, b[..], p, e, i, j);
    HalfwayEnd(a, b[..], p, e, i);
    HalfwayClosed(a, b[..], p, e, i, j);
    b[p + i] := NUL;
  }

  /** A text goes on exactly as long as its characters do. */
  lemma AtEnd(b: string, p: nat, e: string, j: nat)
    requires j <= |e| && AllQsChars(e) && StandsAt(b, p + j, e[j..])
    ensures p + j < |b| && (IsQsChar(b[p + j]) <==> j < |e|)
  {
    if j < |e| {
      assert b[p + j..p + j + |e[j..]|][0] == b[p + j];
      assert e[j..][0] == e[j];
    }
  }

  // ---------- pairs ----------

  /** A key, and the text of its value if there is an equals sign. */
  datatype Pair = Pair(key: string, value: Option<string>)

  /** A pair as it stands between ampersands: neither its key nor its value holds a character that ends one. */
  predicate GoodPair(p: Pair) {
    AllQsChars(p.key) && (p.value.Some? ==> AllQsChars(p.value.value))
  }

  function PairText(p: Pair): string {
    p.key + if p.value.None? then "" else "=" + p.value.value
  }

  /** The query with its pairs, and the NUL behind it. */
  function QueryText(pairs: seq<Pair>): string {
    if pairs == [] then [NUL] else PairText(pairs[0]) + (if |pairs| == 1 then [NUL] else ['&'] + QueryText(pairs[1..]))
  }

  /** Where a pair begins, if the first one begins at `q`. */
  function Start(pairs: seq<Pair>, q: nat, i: nat): nat
    requires i <= |pairs|
  {
    if i == 0 then q else Start(pairs, q, i - 1) + |PairText(pairs[i - 1])| + 1
  }

  lemma {:induction false} StartsGrow(pairs: seq<Pair>, q: nat, i: nat, j: nat)
    requires i < j <= |pairs|
    ensures Start(pairs, q, i) + |PairText(pairs[i])| < Start(pairs, q, j)
    decreases j
  {
    hide PairText;
    if i < j - 1 {
      StartsGrow(pairs, q, i, j - 1);
    }
  }

  lemma {:induction false} StartShifts(pairs: seq<Pair>, q: nat, i: nat)
    requires 0 < i <= |pairs|
    ensures Start(pairs, q, i) == Start(pairs[1..], q + |PairText(pairs[0])| + 1, i - 1)
  {
    hide PairText;
    if i > 1 {
      StartShifts(pairs, q, i - 1);
    }
  }

  /** A pair as it was sent. */
  predicate RawAt(b: string, s: nat, p: Pair, stop: char) {
    s + |PairText(p)| < |b| && b[s..s + |PairText(p)|] == PairText(p) && b[s + |PairText(p)|] == stop
  }

  /** A pair after parsing: its value is decoded and ends with a NUL. */
  predicate ParsedAt(b: string, s: nat, p: Pair) {
    && s + |p.key| < |b| && b[s..s + |p.key|] == p.key
    && match p.value
       case None => b[s + |p.key|] == NUL
       case Some(e) =>
         var v := s + |p.key| + 1;
         b[v - 1] == '=' && v + |Decoded(e)| < |b| && b[v..v + |Decoded(e)|] == Decoded(e) && b[v + |Decoded(e)|] == NUL
  }

  predicate Laid(b: string, q: nat, pairs: seq<Pair>) {
    forall i :: 0 <= i < |pairs| ==> RawAt(b, Start(pairs, q, i), pairs[i], if i + 1 < |pairs| then '&' else NUL)
  }

  lemma SliceSplits(b: string, q: nat, x: string, y: string)
    requires q + |x + y| <= |b| && b[q..q + |x + y|] == x + y
    ensures b[q..q + |x|] == x && b[q + |x|..q + |x| + |y|] == y
    ensures y != "" ==> b[q + |x|] == y[0]
  {
    assert b[q..q + |x + y|][..|x|] == b[q..q + |x|] && (x + y)[..|x|] == x;
    assert b[q..q + |x + y|][|x|..] == b[q + |x|..q + |x| + |y|] && (x + y)[|x|..] == y;
  }

  lemma QueryOfOne(pairs: seq<Pair>)
    requires |pairs| == 1
    ensures QueryText(pairs) == PairText(pairs[0]) + [NUL]
  {
    hide PairText;
  }

  lemma QueryOfMore(pairs: seq<Pair>)
    requires |pairs| > 1
    ensures QueryText(pairs) == PairText(pairs[0]) + (['&'] + QueryText(pairs[1..]))
  {
    hide PairText;
  }

  lemma RawFirst(b: string, q: nat, p: Pair, tail: string)
    requires tail != "" && q + |PairText(p) + tail| <= |b| && b[q..q + |PairText(p) + tail|] == PairText(p) + tail
    ensures RawAt(b, q, p, tail[0])
    ensures var q' := q + |PairText(p)|; q' + |tail| <= |b| && b[q'..q' + |tail|] == tail
  {
    SliceSplits(b, q, PairText(p), tail);
    hide PairText;
  }

  lemma QueryParts(b: string, q: nat, pairs: seq<Pair>)
    requires pairs != [] && q + |QueryText(pairs)| <= |b| && b[q..q + |QueryText(pairs)|] == QueryText(pairs)
    ensures RawAt(b, q, pairs[0], if |pairs| > 1 then '&' else NUL)
    ensures |pairs| > 1 ==>
              var rest, q' := QueryText(pairs[1..]), q + |PairText(pairs[0])| + 1;
              q' + |rest| <= |b| && b[q'..q' + |rest|] == rest
  {
    hide PairText, QueryText, RawAt;
    if |pairs| == 1 {
      QueryOfOne(pairs);
      RawFirst(b, q, pairs[0], [NUL]);
    } else {
      QueryOfMore(pairs);
      RawFirst(b, q, pairs[0], ['&'] + QueryText(pairs[1..]));
      SliceSplits(b, q + |PairText(pairs[0])|, ['&'], QueryText(pairs[1..]));
    }
  }

  /** A query stands in the buffer exactly as its pairs do. */
  lemma {:induction false} QueryIsLaid(b: string, q: nat, pairs: seq<Pair>)
    requires pairs != [] && q + |QueryText(pairs)| <= |b| && b[q..q + |QueryText(pairs)|] == QueryText(pairs)
    ensures Laid(b, q, pairs)
    decreases |pairs|
  {
    hide PairText, QueryText, RawAt;
    QueryParts(b, q, pairs);
    if |pairs| > 1 {
      var q' := q + |PairText(pairs[0])| + 1;
      QueryIsLaid(b, q', pairs[1..]);
      forall i | 0 <= i < |pairs| ensures RawAt(b, Start(pairs, q, i), pairs[i], if i + 1 < |pairs| then '&' else NUL) {
        if i > 0 {
          StartShifts(pairs, q, i);
          LaidAt(b, q', pairs[1..], i - 1);
          assert pairs[1..][i - 1] == pairs[i];
        } else {
          assert Start(pairs, q, 0) == q;
        }
      }
    }
  }

  /** The buffer has changed only from one position to another. */
  ghost predicate OnlyWithin(a: string, b: string, lo: nat, hi: nat) {
    |a| == |b| && forall k :: 0 <= k < |a| && (k < lo || hi < k) ==> a[k] == b[k]
  }

  lemma RawKept(a: string, b: string, s: nat, p: Pair, stop: char, lo: nat, hi: nat)
    requires RawAt(a, s, p, stop) && OnlyWithin(a, b, lo, hi) && hi < s
    ensures RawAt(b, s, p, stop)
  {
    hide PairText;
  }

  lemma ParsedKept(a: string, b: string, s: nat, p: Pair, lo: nat, hi: nat)
    requires ParsedAt(a, s, p) && OnlyWithin(a, b, lo, hi) && s + |PairText(p)| < lo
    ensures ParsedAt(b, s, p)
  {
    hide Decoded;
  }

  /** Where the key of a pair ends, and what stands there. */
  lemma KeyEnds(b: string, s: nat, p: Pair, stop: char)
    requires RawAt(b, s, p, stop) && GoodPair(p) && (stop == '&' || stop == NUL)
    ensures s + |p.key| < |b| && b[s..s + |p.key|] == p.key
    ensures forall k :: s <= k < s + |p.key| ==> IsQsChar(b[k])
    ensures b[s + |p.key|] == if p.value.Some? then '=' else stop
    ensures p.value.Some? ==>
              StandsAt(b, s + |p.key| + 1, p.value.value) && |PairText(p)| == |p.key| + 1 + |p.value.value|
    ensures p.value.None? ==> |PairText(p)| == |p.key|
    ensures forall k :: s <= k < s + |PairText(p)| ==> b[k] != NUL && b[k] != '&'
  {
    var t := PairText(p);
    assert forall k :: 0 <= k < |t| ==> t[k] == b[s + k];
    assert b[s..s + |p.key|] == t[..|p.key|] == p.key;
    if p.value.Some? {
      var e := p.value.value;
      assert t == p.key + ["="[0]] + e;
      assert b[s + |p.key| + 1..s + |t|] == t[|p.key| + 1..] == e;
      assert forall k :: |p.key| < k < |t| ==> t[k] == e[k - |p.key| - 1];
    }
  }

  lemma DecodedPair(a: string, b: string, s: nat, p: Pair, stop: char)
    requires RawAt(a, s, p, stop) && GoodPair(p) && (stop == '&' || stop == NUL) && p.value.Some?
    requires DecodedAt(a, b, s + |p.key| + 1, p.value.value)
    ensures ParsedAt(b, s, p) && OnlyWithin(a, b, s + |p.key|, s + |PairText(p)|)
  {
    KeyEnds(a, s, p, stop);
    hide Decoded, PairText;
    assert b[s..s + |p.key|] == a[s..s + |p.key|];
  }

  /** The first `done` pairs are parsed, the others are as they were sent. */
  ghost predicate Partly(b: string, q: nat, pairs: seq<Pair>, done: nat, count: nat) {
    && (forall i :: 0 <= i < done ==> i < |pairs| && ParsedAt(b, Start(pairs, q, i), pairs[i]))
    && (forall i :: done <= i < count ==>
        i < |pairs| && RawAt(b, Start(pairs, q, i), pairs[i], if i + 1 < |pairs| then '&' else NUL))
  }

  lemma PartlyNext(a: string, b: string, q: nat, pairs: seq<Pair>, done: nat, count: nat)
    requires Partly(a, q, pairs, done, count) && done < count <= |pairs|
    requires var s := Start(pairs, q, done);
             ParsedAt(b, s, pairs[done]) && OnlyWithin(a, b, s + |pairs[done].key|, s + |PairText(pairs[done])|)
    ensures Partly(b, q, pairs, done + 1, count)
  {
    hide ParsedAt, RawAt, OnlyWithin, Start, PairText;
    var s := Start(pairs, q, done);
    forall i | 0 <= i < done ensures ParsedAt(b, Start(pairs, q, i), pairs[i]) {
      StartsGrow(pairs, q, i, done);
      ParsedKept(a, b, Start(pairs, q, i), pairs[i], s + |pairs[done].key|, s + |PairText(pairs[done])|);
    }
    forall i | done < i < count ensures RawAt(b, Start(pairs, q, i), pairs[i], if i + 1 < |pairs| then '&' else NUL) {
      StartsGrow(pairs, q, done, i);
      RawKept(a, b, Start(pairs, q, i), pairs[i], if i + 1 < |pairs| then '&' else NUL, s + |pairs[done].key|,
          s + |PairText(pairs[done])|);
    }
  }

  /** Decodes the value of one pair, or ends the pair if it has none. */
  method ParsePair(b: array<char>, s: nat, ghost p: Pair, ghost stop: char)
    requires RawAt(b[..], s, p, stop) && GoodPair(p) && (stop == '&' || stop == NUL)
    modifies b
    ensures ParsedAt(b[..], s, p) && OnlyWithin(old(b[..]), b[..], s + |p.key|, s + |PairText(p)|)
  {
    ghost var a := b[..];
    KeyEnds(a, s, p, stop);
    assert b[..][s + |PairText(p)|] == stop;
    var n := StrCspn(b, s, {'=', '&', '#'});
    assert n == |p.key|;
    if b[s + n] == '&' || b[s + n] == NUL {
      b[s + n] := NUL;
      assert b[..][s..s + |p.key|] == a[s..s + |p.key|];
    } else {
      QsDecode(b, s + n + 1, p.value.value);
      DecodedPair(a, b[..], s, p, stop);
    }
  }

  /** The length of the pair at `at`, up to the ampersand or the NUL behind it. */
  method PairLength(b: array<char>, at: nat, ghost p: Pair, ghost stop: char) returns (n: nat)
    requires RawAt(b[..], at, p, stop) && GoodPair(p) && (stop == '&' || stop == NUL)
    ensures n == |PairText(p)| && at + n < b.Length && b[at + n] == stop
  {
    KeyEnds(b[..], at, p, stop);
    assert b[..][at + |PairText(p)|] == stop;
    n := StrCspn(b, at, {'&'});
    assert forall k :: at <= k < at + |PairText(p)| ==> b[k] == b[..][k];
    hide PairText;
    assert n == |PairText(p)|;
  }

  lemma LaidAt(b: string, q: nat, pairs: seq<Pair>, i: nat)
    requires Laid(b, q, pairs) && i < |pairs|
    ensures RawAt(b, Start(pairs, q, i), pairs[i], if i + 1 < |pairs| then '&' else NUL)
  {
  }

  ghost predicate AreStarts(kv: seq<nat>, pairs: seq<Pair>, q: nat) {
    |kv| <= |pairs| && forall i :: 0 <= i < |kv| ==> kv[i] == Start(pairs, q, i)
  }

  lemma StartsNext(kv: seq<nat>, pairs: seq<Pair>, q: nat, at: nat)
    requires AreStarts(kv, pairs, q) && |kv| < |pairs| && at == Start(pairs, q, |kv|)
    ensures AreStarts(kv + [at], pairs, q)
    ensures Start(pairs, q, |kv| + 1) == at + |PairText(pairs[|kv|])| + 1
  {
    hide PairText;
  }

  /** Finds where the pairs begin, as many of them as are kept. */
  method FindPairs(b: array<char>, q: nat, ghost pairs: seq<Pair>) returns (kv: seq<nat>)
    requires pairs != [] && Laid(b[..], q, pairs) && forall i :: 0 <= i < |pairs| ==> GoodPair(pairs[i])
    ensures |kv| == (if |pairs| < MAX_PAIRS then |pairs| else MAX_PAIRS) && AreStarts(kv, pairs, q)
  {
    kv := [];
    var at: nat := q;
    hide Laid, PairText, GoodPair, RawAt;
    while |kv| < MAX_PAIRS
      invariant |kv| <= MAX_PAIRS && |kv| < |pairs| && at == Start(pairs, q, |kv|) && AreStarts(kv, pairs, q)
      decreases MAX_PAIRS - |kv|
    {
      hide AreStarts, Start;
      ghost var i := |kv|;
      LaidAt(b[..], q, pairs, i);
      StartsNext(kv, pairs, q, at);
      var n := PairLength(b, at, pairs[i], if i + 1 < |pairs| then '&' else NUL);
      kv := kv + [at];
      if b[at + n] == NUL {
        return;
      }
      at := at + n + 1;
    }
  }

  /** The URL begins with a path, and its query is behind a question mark or a fragment mark. */
  predicate QueryAt(b: string, q: nat) {
    0 < q < |b| && (b[q - 1] == '?' || b[q - 1] == '#')
        && forall k :: 0 <= k < q - 1 ==> b[k] != NUL && b[k] != '?' && b[k] != '#'
  }

  /** Parses the query of a URL in place. Returns where its pairs begin. */
  method QsParse(b: array<char>, parseUrl: bool, ghost q: nat, ghost pairs: seq<Pair>) returns (kv: seq<nat>)
    requires if parseUrl then QueryAt(b[..], q) else q == 0
    requires pairs != [] && Laid(b[..], q, pairs) && forall i :: 0 <= i < |pairs| ==> GoodPair(pairs[i])
    modifies b
    ensures |kv| == (if |pairs| < MAX_PAIRS then |pairs| else MAX_PAIRS) && AreStarts(kv, pairs, q)
    ensures Partly(b[..], q, pairs, |kv|, |kv|)
  {
    var at := FindQuery(b, parseUrl, q);
    hide *;
    kv := FindPairs(b, at, pairs);
    StartsBounded(kv, pairs, q);
    LaidPartly(b[..], q, pairs, |kv|);
    DecodePairs(b, kv, q, pairs);
  }

  lemma StartsBounded(kv: seq<nat>, pairs: seq<Pair>, q: nat)
    requires AreStarts(kv, pairs, q)
    ensures |kv| <= |pairs|
  {
  }

  method FindQuery(b: array<char>, parseUrl: bool, ghost q: nat) returns (at: nat)
    requires if parseUrl then QueryAt(b[..], q) else q == 0
    ensures at == q
  {
    if !parseUrl {
      return 0;
    }
    assert b[..][q - 1] in {'?', '#'};
    var n := StrCspn(b, 0, {'?', '#'});
    assert forall k :: 0 <= k < q - 1 ==> b[..][k] == b[k];
    return n + 1;
  }

  lemma PartlyRaw(b: string, kv: seq<nat>, q: nat, pairs: seq<Pair>, j: nat)
    requires AreStarts(kv, pairs, q) && Partly(b, q, pairs, j, |kv|) && j < |kv|
    ensures kv[j] == Start(pairs, q, j) && RawAt(b, kv[j], pairs[j], if j + 1 < |pairs| then '&' else NUL)
  {
    hide RawAt, ParsedAt;
  }

  method DecodePairs(b: array<char>, kv: seq<nat>, ghost q: nat, ghost pairs: seq<Pair>)
    requires AreStarts(kv, pairs, q) && |kv| <= |pairs| && Partly(b[..], q, pairs, 0, |kv|)
    requires forall i :: 0 <= i < |pairs| ==> GoodPair(pairs[i])
    modifies b
    ensures Partly(b[..], q, pairs, |kv|, |kv|)
  {
    hide *;
    for j := 0 to |kv|
      invariant Partly(b[..], q, pairs, j, |kv|)
    {
      ghost var a := b[..];
      PartlyRaw(a, kv, q, pairs, j);
      ParsePair(b, kv[j], pairs[j], if j + 1 < |pairs| then '&' else NUL);
      PartlyNext(a, b[..], q, pairs, j, |kv|);
    }
  }

  lemma LaidPartly(b: string, q: nat, pairs: seq<Pair>, count: nat)
    requires Laid(b, q, pairs) && count <= |pairs|
    ensures Partly(b, q, pairs, 0, count)
  {
  }

  // ---------- looking a value up ----------

  /** The first character of a key, and how much of the key stands for it. A key ends with a NUL: at its end, at a
      character that no key holds, and at a percent sign that is not followed by two hexadecimal digits. */
  function NextChar(e: string): (r: (char, nat))
    ensures r.0 != NUL ==> 1 <= r.1 <= |e|
  {
    if e == "" || !IsQsChar(e[0]) || Unit(e).None? then (NUL, 0) else Unit(e).value
  }

  /** What a key stands for, up to the NUL that ends it. */
  function Stem(e: string): string {
    var (c, n) := NextChar(e);
    if c == NUL then "" else [c] + Stem(e[n..])
  }

  /** A key that is read to its end. */
  predicate WellEncoded(e: string) {
    e == "" || (NextChar(e).0 != NUL && WellEncoded(e[NextChar(e).1..]))
  }

  /** A key in which every character stands for one. */
  predicate AllPlain(e: string) {
    AllQsChars(e) && forall i :: 0 <= i < |e| ==> e[i] != '%'
  }

  /** Reading the key, one comes to a percent sign with nothing behind it. */
  predicate EndsInPercent(e: string) {
    e != "" && (e == "%" || (NextChar(e).0 != NUL && EndsInPercent(e[NextChar(e).1..])))
  }

  /** What the comparison of two keys takes for the same: they stand for the same text up to the NUL that ends them;
      but a key of plain characters is not the beginning of one that is malformed behind it. */
  predicate KeysMatch(key: string, k: string) {
    Stem(key) == Stem(k) && (AllPlain(key) ==> WellEncoded(k))
  }

  lemma {:induction false} StemDecodes(e: string)
    requires WellEncoded(e)
    ensures Stem(e) == Decoded(e) && !EndsInPercent(e)
  {
    if e != "" {
      DecodedByUnit(e);
      StemDecodes(e[NextChar(e).1..]);
    }
  }

  /** Keys that are well encoded match exactly if they decode to the same. */
  lemma WellEncodedMatch(key: string, k: string)
    requires WellEncoded(key) && WellEncoded(k)
    ensures KeysMatch(key, k) <==> Decoded(key) == Decoded(k)
  {
    StemDecodes(key);
    StemDecodes(k);
    hide Decoded, Stem, WellEncoded;
  }

  lemma RestOf(e: string, i: nat, n: nat)
    requires i + n <= |e|
    ensures e[i..][n..] == e[i + n..]
  {
  }

  /** Two keys, each read up to some point, with nothing but the rest left to be compared, and `n` rounds to go. */
  predicate Midway(key: string, k: string, i: nat, j: nat, n: nat) {
    && i <= |key| && j <= |k| && n <= |key| <= i + n
    && (Stem(key[i..]) == Stem(k[j..]) <==> Stem(key) == Stem(k))
    && (WellEncoded(k[j..]) <==> WellEncoded(k))
    && (AllPlain(key) ==> i + n == |key|)
    && (i + n == |key| ==> AllPlain(key[..i]))
  }

  lemma StemNext(e: string)
    ensures var (c, n) := NextChar(e);
            if c == NUL then Stem(e) == "" && (WellEncoded(e) <==> e == "")
            else Stem(e) == [c] + Stem(e[n..]) && Stem(e)[0] == c && Stem(e)[1..] == Stem(e[n..])
                 && (WellEncoded(e) <==> WellEncoded(e[n..]))
  {
  }

  /** A character of a key is plain exactly if it takes one place. */
  lemma PlainNext(key: string, i: nat)
    requires i <= |key|
    ensures AllPlain(key) && i < |key| ==> NextChar(key[i..]).1 == 1 && NextChar(key[i..]).0 != NUL
    ensures NextChar(key[i..]).0 != NUL && NextChar(key[i..]).1 == 1 && AllPlain(key[..i]) ==> AllPlain(key[..i + 1])
  {
    if i < |key| {
      assert key[i..][0] == key[i];
      assert key[..i + 1] == key[..i] + [key[i]];
    }
  }

  lemma MidwayNext(key: string, k: string, i: nat, j: nat, n: nat)
    requires Midway(key, k, i, j, n) && n > 0
    ensures i <= |key| && j <= |k|
    ensures var (c, m), (d, l) := NextChar(key[i..]), NextChar(k[j..]);
            && (c != d ==> !KeysMatch(key, k))
            && (c == d == NUL ==> KeysMatch(key, k))
            && (c == d != NUL ==> i + m <= |key| && j + l <= |k| && Midway(key, k, i + m, j + l, n - 1))
  {
    hide Stem, WellEncoded, NextChar, AllPlain;
    StemNext(key[i..]);
    StemNext(k[j..]);
    PlainNext(key, i);
    var m, l := NextChar(key[i..]).1, NextChar(k[j..]).1;
    if NextChar(key[i..]).0 == NextChar(k[j..]).0 != NUL {
      RestOf(key, i, m);
      RestOf(k, j, l);
      StemsOn(key[i..], k[j..]);
    }
  }

  lemma StemsOn(e: string, f: string)
    requires NextChar(e).0 == NextChar(f).0 != NUL
    ensures Stem(e) == Stem(f) <==> Stem(e[NextChar(e).1..]) == Stem(f[NextChar(f).1..])
  {
    StemNext(e);
    StemNext(f);
    hide Stem, NextChar;
  }

  lemma MidwayEnd(key: string, k: string, i: nat, j: nat)
    requires Midway(key, k, i, j, 0)
    ensures j <= |k| && (KeysMatch(key, k) <==> j == |k|)
  {
    assert key[i..] == "" && key[..i] == key;
    StemNext(key[i..]);
    StemNext(k[j..]);
    assert j == |k| ==> k[j..] == "";
    hide Stem, WellEncoded, AllPlain;
    EndNext(k[j..]);
    EndNext("");
  }

  lemma EndNext(e: string)
    ensures e == "" ==> NextChar(e) == (NUL, 0)
  {
  }

  lemma MidwayStart(key: string, k: string)
    ensures Midway(key, k, 0, 0, |key|)
  {
    assert key[0..] == key && k[0..] == k && key[..0] == "";
    hide Stem, WellEncoded;
  }

  /** The second key in a buffer, read up to some point, with room behind it if its end has to be read past. */
  ghost predicate KeyAt(b: string, p: nat, k: string, j: nat) {
    && j <= |k| && AllQsChars(k) && StandsAt(b, p + j, k[j..])
    && (EndsInPercent(k[j..]) ==> p + |k| + 1 < |b|)
  }

  lemma KeyAtStart(b: string, p: nat, k: string)
    requires StandsAt(b, p, k) && AllQsChars(k) && (EndsInPercent(k) ==> p + |k| + 1 < |b|)
    ensures KeyAt(b, p, k, 0)
  {
    assert k[0..] == k;
  }

  lemma KeyAtNext(b: string, p: nat, k: string, j: nat)
    requires KeyAt(b, p, k, j) && NextChar(k[j..]).0 != NUL
    ensures j + NextChar(k[j..]).1 <= |k| && KeyAt(b, p, k, j + NextChar(k[j..]).1)
  {
    var n := NextChar(k[j..]).1;
    StandsOn(b, p + j, k[j..], n);
    RestOf(k, j, n);
    hide StandsAt, NextChar, AllQsChars;
  }

  lemma KeyAtEnd(b: string, p: nat, k: string, j: nat)
    requires KeyAt(b, p, k, j)
    ensures p + j < |b| && (IsQsChar(b[p + j]) <==> j < |k|)
  {
    AtEnd(b, p, k, j);
  }

  /** The characters behind a percent sign, both of which are read, whatever the first one is. */
  lemma PercentReads(b: string, p: nat, k: string, j: nat)
    requires KeyAt(b, p, k, j) && j < |k| && k[j] == '%'
    ensures p + j + 2 < |b|
    ensures IsHex(b[p + j + 1]) && IsHex(b[p + j + 2]) <==> Unit(k[j..]).Some?
    ensures Unit(k[j..]).Some? ==>
              Unit(k[j..]).value == ((HexToDec(b[p + j + 1]) * 16 + HexToDec(b[p + j + 2])) as char, 3)
  {
    var e := k[j..];
    assert e[0] == '%';
    assert forall i :: 0 <= i < |e| ==> e[i] == b[p + j..p + j + |e|][i];
    assert forall i :: 0 <= i < |e| ==> e[i] == b[p + j + i];
    assert !IsHex(b[p + j + |e|]);
    if |e| == 1 {
      assert e == "%";
    }
  }

  /** Reads the next character of the key in the buffer. */
  method ReadNext(b: array<char>, p: nat, j: nat, ghost k: string) returns (c: char, n: nat)
    requires KeyAt(b[..], p, k, j)
    ensures (c, n) == NextChar(k[j..]) || (c == NUL && NextChar(k[j..]).0 == NUL)
  {
    KeyAtEnd(b[..], p, k, j);
    if !IsQsChar(b[p + j]) {
      return NUL, 0;
    }
    assert k[j..][0] == k[j] && k[j] == b[..][p + j..p + j + |k[j..]|][0];
    if b[p + j] == '%' {
      PercentReads(b[..], p, k, j);
      var unyb, lnyb := b[p + j + 1], b[p + j + 2];
      hide KeyAt;
      if IsHex(unyb) && IsHex(lnyb) {
        return (HexToDec(unyb) * 16 + HexToDec(lnyb)) as char, 3;
      }
      return NUL, 3;
    }
    return if b[p + j] == '+' then ' ' else b[p + j], 1;
  }

  /** Two keys, the second in a buffer, halfway through their comparison. */
  ghost predicate Comparing(b: string, p: nat, key: string, k: string, i: nat, j: nat, n: nat) {
    Midway(key, k, i, j, n) && KeyAt(b, p, k, j)
  }

  method CompareNext(key: string, b: array<char>, p: nat, i: nat, j: nat, ghost n: nat, ghost k: string)
      returns (u1: char, u2: char, i': nat, j': nat)
    requires Comparing(b[..], p, key, k, i, j, n) && n > 0
    ensures u1 != u2 ==> !KeysMatch(key, k)
    ensures u1 == u2 == NUL ==> KeysMatch(key, k)
    ensures u1 == u2 != NUL ==> Comparing(b[..], p, key, k, i', j', n - 1)
  {
    hide Midway, KeyAt, KeysMatch, NextChar;
    MidwayNext(key, k, i, j, n);
    var (c, step) := NextChar(key[i..]);
    var d, stride := ReadNext(b, p, j, k);
    if c == d != NUL {
      KeyAtNext(b[..], p, k, j);
    }
    return c, d, i + step, j + stride;
  }

  lemma ComparingStart(b: string, p: nat, key: string, k: string)
    requires StandsAt(b, p, k) && AllQsChars(k) && (EndsInPercent(k) ==> p + |k| + 1 < |b|)
    ensures Comparing(b, p, key, k, 0, 0, |key|)
  {
    hide Midway, KeyAt;
    MidwayStart(key, k);
    KeyAtStart(b, p, k);
  }

  lemma ComparingEnd(b: string, p: nat, key: string, k: string, i: nat, j: nat)
    requires Comparing(b, p, key, k, i, j, 0)
    ensures p + j < |b| && (IsQsChar(b[p + j]) <==> !KeysMatch(key, k))
  {
    hide Midway, KeyAt, KeysMatch;
    MidwayEnd(key, k, i, j);
    KeyAtEnd(b, p, k, j);
  }

  /** Compares a key with the key at `p`, character by character. Zero exactly if they match. A percent sign at the very
      end is read past, so that there must be something behind it. */
  method QsStrncmp(key: string, b: array<char>, p: nat, ghost k: string) returns (r: int)
    requires StandsAt(b[..], p, k) && AllQsChars(k)
    requires !EndsInPercent(key) && (EndsInPercent(k) ==> p + |k| + 1 < b.Length)
    ensures r == 0 <==> KeysMatch(key, k)
  {
    var n, i: nat, j: nat := |key|, 0, 0;
    ComparingStart(b[..], p, key, k);
    hide Comparing, KeysMatch, StandsAt, AllQsChars, EndsInPercent, IsQsChar;
    while n > 0
      invariant 0 <= n && Comparing(b[..], p, key, k, i, j, n)
    {
      var u1, u2;
      u1, u2, i, j := CompareNext(key, b, p, i, j, n, k);
      n := n - 1;
      if u1 != u2 {
        return u1 as int - u2 as int;
      }
      if u1 == NUL {
        return 0;
      }
    }
    ComparingEnd(b[..], p, key, k, i, j);
    return if IsQsChar(b[p + j]) then -1 else 0;
  }

  lemma StandsOn(b: string, p: nat, e: string, n: nat)
    requires StandsAt(b, p, e) && n <= |e|
    ensures StandsAt(b, p + n, e[n..])
  {
    assert b[p + n..p + n + |e[n..]|] == b[p..p + |e|][n..];
  }

  /** The first pair whose key matches, from a pair on. */
  function FirstWith(pairs: seq<Pair>, key: string, i: nat): (r: Option<nat>)
    requires i <= |pairs|
    ensures r.None? ==> forall j :: i <= j < |pairs| ==> !KeysMatch(key, pairs[j].key)
    ensures r.Some? ==> i <= r.value < |pairs| && KeysMatch(key, pairs[r.value].key)
                        && forall j :: i <= j < r.value ==> !KeysMatch(key, pairs[j].key)
    decreases |pairs| - i
  {
    if i == |pairs| then None else if KeysMatch(key, pairs[i].key) then Some(i) else FirstWith(pairs, key, i + 1)
  }

  /** The string at a position, up to its NUL, is the value of a pair. */
  predicate IsValueOf(b: string, at: nat, p: Pair) {
    var d := if p.value.None? then "" else Decoded(p.value.value);
    at + |d| < |b| && b[at..at + |d|] == d && b[at + |d|] == NUL
  }

  lemma ParsedKey(b: string, s: nat, p: Pair)
    requires ParsedAt(b, s, p) && GoodPair(p)
    ensures StandsAt(b, s, p.key) && Stops(b, s, {'='})
    ensures forall k :: s <= k < s + |p.key| ==> IsQsChar(b[k])
    ensures s + |p.key| < |b| && b[s + |p.key|] == if p.value.None? then NUL else '='
    ensures IsValueOf(b, s + |p.key| + if p.value.None? then 0 else 1, p)
  {
    hide Decoded;
    assert forall i :: 0 <= i < |p.key| ==> p.key[i] == b[s + i];
    assert b[s + |p.key|] in {'=', NUL};
  }

  /** Where the value of a pair begins: behind the equals sign, or at the NUL if there is none. */
  method ValueStart(b: array<char>, s: nat, ghost p: Pair) returns (at: nat)
    requires ParsedAt(b[..], s, p) && GoodPair(p)
    ensures IsValueOf(b[..], at, p)
  {
    ParsedKey(b[..], s, p);
    hide *;
    var skip := StrCspn(b, s, {'='});
    KeyLength(b[..], s, p, skip);
    if b[s + skip] == '=' {
      skip := skip + 1;
    }
    return s + skip;
  }

  lemma SpansUnique(b: string, s: nat, n: nat, m: nat, stops: set<char>)
    requires Spans(b, s, n, stops) && Spans(b, s, m, stops)
    ensures n == m
  {
  }

  lemma KeySpans(b: string, s: nat, p: Pair)
    requires ParsedAt(b, s, p) && GoodPair(p)
    ensures Spans(b, s, |p.key|, {'='})
  {
    ParsedKey(b, s, p);
    hide ParsedAt, GoodPair, IsValueOf, StandsAt, Stops;
  }

  lemma KeyLength(b: string, s: nat, p: Pair, n: nat)
    requires ParsedAt(b, s, p) && GoodPair(p) && Spans(b, s, n, {'='})
    ensures n == |p.key| && s + n < |b| && b[s + n] == if p.value.None? then NUL else '='
    ensures IsValueOf(b, s + n + if p.value.None? then 0 else 1, p)
  {
    hide *;
    ParsedKey(b, s, p);
    KeySpans(b, s, p);
    SpansUnique(b, s, n, |p.key|, {'='});
  }

  lemma PartlyParsed(b: string, kv: seq<nat>, q: nat, pairs: seq<Pair>, i: nat)
    requires AreStarts(kv, pairs, q) && Partly(b, q, pairs, |kv|, |kv|) && i < |kv|
    ensures ParsedAt(b, kv[i], pairs[i])
  {
    hide ParsedAt;
  }

  /** Looks a key up in a parsed query: the decoded value of the first pair with that key, or nothing. */
  method Get(b: array<char>, kv: seq<nat>, name: string, ghost q: nat, ghost pairs: seq<Pair>) returns (r: Option<nat>)
    requires AreStarts(kv, pairs, q) && |kv| <= |pairs| && Partly(b[..], q, pairs, |kv|, |kv|)
    requires forall i :: 0 <= i < |pairs| ==> GoodPair(pairs[i])
    requires !EndsInPercent(name)
    requires forall i :: 0 <= i < |kv| && EndsInPercent(pairs[i].key) ==> kv[i] + |pairs[i].key| + 1 < b.Length
    ensures var first := FirstWith(pairs[..|kv|], name, 0);
            if first.None? then r.None? else r.Some? && IsValueOf(b[..], r.value, pairs[first.value])
  {
    ghost var kept := pairs[..|kv|];
    hide *;
    StartsBounded(kv, pairs, q);
    for i := 0 to |kv|
      invariant FirstWith(kept, name, i) == FirstWith(kept, name, 0)
    {
      FirstStep(kept, name, i);
      assert GoodPair(pairs[i]) && kept[i] == pairs[i];
      KeyOfPair(pairs[i]);
      PartlyParsed(b[..], kv, q, pairs, i);
      ParsedKey(b[..], kv[i], pairs[i]);
      var c := QsStrncmp(name, b, kv[i], pairs[i].key);
      if c == 0 {
        var at := ValueStart(b, kv[i], pairs[i]);
        return Some(at);
      }
    }
    FirstStep(kept, name, |kv|);
    return None;
  }

  lemma KeyOfPair(p: Pair)
    requires GoodPair(p)
    ensures AllQsChars(p.key)
  {
  }

  lemma FirstStep(pairs: seq<Pair>, key: string, i: nat)
    requires i <= |pairs|
    ensures i == |pairs| ==> FirstWith(pairs, key, i) == None
    ensures i < |pairs| ==>
              FirstWith(pairs, key, i)
              == if KeysMatch(key, pairs[i].key) then Some(i) else FirstWith(pairs, key, i + 1)
  {
  }

  /** The text of a URL whose query has the given pairs. */
  function UrlText(path: string, pairs: seq<Pair>): string {
    path + ['?'] + QueryText(pairs)
  }

  predicate PlainPath(path: string) {
    forall i :: 0 <= i < |path| ==> path[i] != NUL && path[i] != '?' && path[i] != '#'
  }

  /** A pair is a name and a value, each in some percent-encoding. */
  predicate Sent(p: Pair, name: string, value: Option<string>) {
    && NUL !in name && IsEncoding(p.key, name)
    && if p.value.None? then value == None else value.Some? && IsEncoding(p.value.value, value.value)
  }

  lemma {:induction false} EncodingIsGood(e: string, v: string)
    requires IsEncoding(e, v) && NUL !in v
    ensures WellEncoded(e)
  {
    if v != "" {
      EncodingStep(e, v);
      hide IsEncoding, Unit, IsQsChar;
      EncodingIsGood(e[Unit(e).value.1..], v[1..]);
    }
  }

  lemma SentIsGood(p: Pair, name: string, value: Option<string>)
    requires Sent(p, name, value)
    ensures GoodPair(p) && WellEncoded(p.key) && Decoded(p.key) == name && !EndsInPercent(p.key)
  {
    EncodingIsGood(p.key, name);
    StemDecodes(p.key);
    EncodingDecodes(p.key, name);
    if p.value.Some? {
      EncodingDecodes(p.value.value, value.value);
    }
    hide Decoded, IsEncoding, WellEncoded;
  }

  /** Parsing a URL in place and looking a name up gives the value of the first pair with that name, whatever
      percent-encodings the names and values were sent in: up to 256 pairs, none of which disturbs another. */
  method ParseAndGet(b: array<char>, path: string, pairs: seq<Pair>, ghost names: seq<string>,
      ghost values: seq<Option<string>>, key: string, ghost name: string)
      returns (r: Option<nat>)
    requires PlainPath(path) && 0 < |pairs| <= MAX_PAIRS && |names| == |values| == |pairs|
    requires b[..] == UrlText(path, pairs)
    requires forall i :: 0 <= i < |pairs| ==> Sent(pairs[i], names[i], values[i])
    requires NUL !in name && IsEncoding(key, name)
    modifies b
    ensures (forall i :: 0 <= i < |pairs| ==> names[i] != name) ==> r.None?
    ensures forall i :: 0 <= i < |pairs| && names[i] == name && (forall j :: 0 <= j < i ==> names[j] != name) ==>
              r.Some? && HoldsString(b[..], r.value, if values[i].None? then "" else values[i].value)
  {
    ghost var q := |path| + 1;
    SentIsGood(Pair(key, None), name, None);
    forall i | 0 <= i < |pairs|
        ensures GoodPair(pairs[i]) && !EndsInPercent(pairs[i].key)
                && (KeysMatch(key, pairs[i].key) <==> names[i] == name) {
      SentIsGood(pairs[i], names[i], values[i]);
      WellEncodedMatch(key, pairs[i].key);
    }
    UrlIsLaid(b[..], path, pairs);
    hide UrlText, Laid, QueryAt, GoodPair, KeysMatch, Sent, IsEncoding, Decoded, Partly, AreStarts, FirstWith,
        IsValueOf,
        HoldsString, EndsInPercent, WellEncoded;
    var kv := QsParse(b, true, q, pairs);
    assert pairs[..|kv|] == pairs;
    r := Get(b, kv, key, q, pairs);
    FirstIsFirst(b[..], pairs, names, values, key, name, r);
  }

  /** What the lookup found, in terms of what was sent. */
  lemma FirstIsFirst(b: string, pairs: seq<Pair>, names: seq<string>, values: seq<Option<string>>, key: string,
      name: string,
      r: Option<nat>)
    requires |names| == |values| == |pairs|
    requires forall i :: 0 <= i < |pairs| ==> Sent(pairs[i], names[i], values[i])
    requires forall i :: 0 <= i < |pairs| ==> (KeysMatch(key, pairs[i].key) <==> names[i] == name)
    requires var first := FirstWith(pairs, key, 0);
             if first.None? then r.None? else r.Some? && IsValueOf(b, r.value, pairs[first.value])
    ensures (forall i :: 0 <= i < |pairs| ==> names[i] != name) ==> r.None?
    ensures forall i :: 0 <= i < |pairs| && names[i] == name && (forall j :: 0 <= j < i ==> names[j] != name) ==>
              r.Some? && HoldsString(b, r.value, if values[i].None? then "" else values[i].value)
  {
    var first := FirstWith(pairs, key, 0);
    hide Decoded, IsEncoding, IsValueOf, HoldsString, KeysMatch;
    if first.Some? {
      ValueIsString(b, r.value, pairs[first.value], values[first.value]);
      forall i | 0 <= i < |pairs| && names[i] == name && (forall j :: 0 <= j < i ==> names[j] != name)
          ensures i == first.value {
      }
      hide FirstWith;
    }
  }

  lemma ValueIsString(b: string, at: nat, p: Pair, value: Option<string>)
    requires if p.value.None? then value == None else value.Some? && IsEncoding(p.value.value, value.value)
    requires IsValueOf(b, at, p)
    ensures HoldsString(b, at, if value.None? then "" else value.value)
  {
    hide Decoded, IsEncoding;
    if p.value.Some? {
      EncodingDecodes(p.value.value, value.value);
      assert Decoded(p.value.value) == value.value;
    }
  }

  predicate HoldsString(b: string, at: nat, s: string) {
    at + |s| < |b| && b[at..at + |s|] == s && b[at + |s|] == NUL
  }

  lemma UrlIsLaid(b: string, path: string, pairs: seq<Pair>)
    requires PlainPath(path) && pairs != [] && b == UrlText(path, pairs)
    ensures Laid(b, |path| + 1, pairs) && QueryAt(b, |path| + 1)
  {
    var q, t := |path| + 1, QueryText(pairs);
    hide QueryText, Laid;
    assert t != "" by { QueryNotEmpty(pairs); }
    assert b[q..q + |t|] == t;
    QueryIsLaid(b, q, pairs);
    assert forall k :: 0 <= k < |path| ==> path[k] == b[k];
  }

  lemma QueryNotEmpty(pairs: seq<Pair>)
    ensures QueryText(pairs) != ""
  {
  }
}
