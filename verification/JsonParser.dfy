/** The parser as it runs: it reads one NUL-terminated buffer, and writes into the same buffer behind its
    reading position. A parsed value holds positions in that buffer, not copies. */
module JsonParser {
  import opened Basics
  import opened JsonText

  datatype RValue =
    | RNull
    | RTrue
    | RFalse
    | RNumber(start: nat, end: nat)
    | RString(start: nat, end: nat)
    | RList(items: seq<RValue>)
    | RObject(fields: seq<RField>)

  datatype RField = RField(keyStart: nat, keyEnd: nat, value: RValue)

  const ESCAPED_FLAG: char := 1 as char

  // ---------- what a parsed value stands for ----------

  /** Whether there is a string between two positions. A nonzero byte before it says that it still has to be
      unescaped. */
  predicate IsText(b: string, start: nat, end: nat) {
    1 <= start <= end <= |b| && (b[start - 1] == NUL || Raw(b[start..end]))
  }

  function TextAt(b: string, start: nat, end: nat): string
    requires IsText(b, start, end)
  {
    if b[start - 1] == NUL then b[start..end] else Unescaped(b[start..end])
  }

  /** Positions that divide a range of the buffer among the elements of a container. */
  predicate Cuts(cuts: seq<nat>, n: nat, lo: nat, hi: nat) {
    |cuts| == n + 1 && cuts[0] == lo && cuts[n] <= hi && forall i :: 0 <= i < n ==> cuts[i] <= cuts[i + 1]
  }

  /** The parsed value `r` uses the bytes from `lo` to `hi` of the buffer only, and stands for `v`. */
  ghost predicate Holds(b: string, r: RValue, v: Json, lo: nat, hi: nat)
    decreases r, 1
  {
    && lo <= hi <= |b|
    && match r
       case RNull => v.Null?
       case RTrue => v.True?
       case RFalse => v.False?
       case RNumber(start, end) => lo <= start <= end <= hi && v == Number(b[start..end])
       case RString(start, end) => lo < start <= end < hi && IsText(b, start, end) && v == Str(TextAt(b, start, end))
       case RList(items) => v.List? && HoldsItems(b, items, v.items, lo, hi)
       case RObject(fields) => v.Object? && HoldsFields(b, fields, v.fields, lo, hi)
  }

  ghost predicate HoldsItems(b: string, items: seq<RValue>, vs: seq<Json>, lo: nat, hi: nat)
    decreases items, 1
  {
    |items| == |vs| && exists cuts: seq<nat> :: Cuts(cuts, |items|, lo, hi) && ItemsWithin(b, items, vs, cuts)
  }

  ghost predicate ItemsWithin(b: string, items: seq<RValue>, vs: seq<Json>, cuts: seq<nat>)
    requires |vs| == |items| && |cuts| == |items| + 1
    decreases items, 0
  {
    forall i :: 0 <= i < |items| ==> Holds(b, items[i], vs[i], cuts[i], cuts[i + 1])
  }

  ghost predicate HoldsFields(b: string, fields: seq<RField>, vs: seq<Field>, lo: nat, hi: nat)
    decreases fields, 1
  {
    |fields| == |vs| && exists cuts: seq<nat> :: Cuts(cuts, |fields|, lo, hi) && FieldsWithin(b, fields, vs, cuts)
  }

  ghost predicate FieldsWithin(b: string, fields: seq<RField>, vs: seq<Field>, cuts: seq<nat>)
    requires |vs| == |fields| && |cuts| == |fields| + 1
    decreases fields, 0
  {
    forall i :: 0 <= i < |fields| ==> HoldsField(b, fields[i], vs[i], cuts[i], cuts[i + 1])
  }

  ghost predicate HoldsField(b: string, f: RField, v: Field, lo: nat, hi: nat)
    decreases f, 0
  {
    && lo <= f.keyStart <= f.keyEnd <= hi <= |b| && b[f.keyStart..f.keyEnd] == v.key
    && Holds(b, f.value, v.value, f.keyEnd, hi)
  }

  /** The two buffers agree from `lo` to `hi`. */
  predicate Agree(a: string, b: string, lo: nat, hi: nat) {
    |a| == |b| && hi <= |a| && forall i :: lo <= i < hi ==> a[i] == b[i]
  }

  /** Nothing outside a range has changed. */
  ghost predicate OnlyWithin(a: string, b: string, lo: nat, hi: nat) {
    |a| == |b| && forall i :: 0 <= i < |a| && (i < lo || hi <= i) ==> a[i] == b[i]
  }

  lemma Elsewhere(a: string, b: string, lo: nat, hi: nat)
    requires OnlyWithin(a, b, lo, hi) && lo <= hi <= |a|
    ensures Agree(a, b, 0, lo) && Agree(a, b, hi, |a|)
  {
  }

  lemma AgreeSlice(a: string, b: string, lo: nat, hi: nat, s: nat, e: nat)
    requires Agree(a, b, lo, hi) && lo <= s <= e <= hi
    ensures a[s..e] == b[s..e]
  {
  }

  /** What happens outside its range does not touch a parsed value. */
  lemma {:induction false} HoldsFrame(a: string, b: string, r: RValue, v: Json, lo: nat, hi: nat)
    requires Holds(a, r, v, lo, hi) && Agree(a, b, lo, hi)
    ensures Holds(b, r, v, lo, hi)
    decreases r, 1
  {
    match r
    case RNumber(start, end) => AgreeSlice(a, b, lo, hi, start, end);
    case RString(start, end) => AgreeSlice(a, b, lo, hi, start, end);
    case RList(items) => ItemsFrame(a, b, items, v.items, lo, hi);
    case RObject(fields) => FieldsFrame(a, b, fields, v.fields, lo, hi);
    case _ =>
  }

  lemma CutsOrdered(cuts: seq<nat>, n: nat, lo: nat, hi: nat, i: nat, j: nat)
    requires Cuts(cuts, n, lo, hi) && i <= j <= n
    ensures lo <= cuts[i] <= cuts[j] <= hi
  {
    CutsFrom(cuts, n, lo, hi, i, j);
    CutsFrom(cuts, n, lo, hi, j, n);
    CutsFrom(cuts, n, lo, hi, 0, i);
  }

  lemma {:induction false} CutsFrom(cuts: seq<nat>, n: nat, lo: nat, hi: nat, i: nat, j: nat)
    requires Cuts(cuts, n, lo, hi) && i <= j <= n
    ensures cuts[i] <= cuts[j]
    decreases j
  {
    if i < j {
      CutsFrom(cuts, n, lo, hi, i, j - 1);
    }
  }

  lemma {:induction false} ItemsFrame(a: string, b: string, items: seq<RValue>, vs: seq<Json>, lo: nat, hi: nat)
    requires HoldsItems(a, items, vs, lo, hi) && Agree(a, b, lo, hi)
    ensures HoldsItems(b, items, vs, lo, hi)
    decreases items, 0
  {
    var cuts: seq<nat> :| Cuts(cuts, |items|, lo, hi) && ItemsWithin(a, items, vs, cuts);
    forall i | 0 <= i < |items| ensures Holds(b, items[i], vs[i], cuts[i], cuts[i + 1]) {
      CutsOrdered(cuts, |items|, lo, hi, i, i + 1);
      HoldsFrame(a, b, items[i], vs[i], cuts[i], cuts[i + 1]);
    }
    assert ItemsWithin(b, items, vs, cuts);
  }

  lemma {:induction false} FieldsFrame(a: string, b: string, fields: seq<RField>, vs: seq<Field>, lo: nat, hi: nat)
    requires HoldsFields(a, fields, vs, lo, hi) && Agree(a, b, lo, hi)
    ensures HoldsFields(b, fields, vs, lo, hi)
    decreases fields, 0
  {
    var cuts: seq<nat> :| Cuts(cuts, |fields|, lo, hi) && FieldsWithin(a, fields, vs, cuts);
    forall i | 0 <= i < |fields| ensures HoldsField(b, fields[i], vs[i], cuts[i], cuts[i + 1]) {
      CutsOrdered(cuts, |fields|, lo, hi, i, i + 1);
      FieldFrame(a, b, fields[i], vs[i], cuts[i], cuts[i + 1]);
    }
    assert FieldsWithin(b, fields, vs, cuts);
  }

  lemma {:induction false} FieldFrame(a: string, b: string, f: RField, v: Field, lo: nat, hi: nat)
    requires HoldsField(a, f, v, lo, hi) && Agree(a, b, lo, hi)
    ensures HoldsField(b, f, v, lo, hi)
    decreases f, 0
  {
    AgreeSlice(a, b, lo, hi, f.keyStart, f.keyEnd);
    HoldsFrame(a, b, f.value, v.value, f.keyEnd, hi);
  }

  lemma CutsWiden(cuts: seq<nat>, n: nat, lo: nat, hi: nat, lo': nat, hi': nat)
    requires Cuts(cuts, n, lo, hi) && lo' <= lo && hi <= hi'
    ensures Cuts([lo'] + cuts[1..], n, lo', hi')
  {
  }

  /** The range of a parsed value may be widened at either end. */
  lemma {:induction false} HoldsWiden(b: string, r: RValue, v: Json, lo: nat, hi: nat, lo': nat, hi': nat)
    requires Holds(b, r, v, lo, hi) && lo' <= lo && hi <= hi' <= |b|
    ensures Holds(b, r, v, lo', hi')
  {
    match r
    case RList(items) =>
      var cuts: seq<nat> :| Cuts(cuts, |items|, lo, hi) && ItemsWithin(b, items, v.items, cuts);
      var wider := [lo'] + cuts[1..];
      CutsWiden(cuts, |items|, lo, hi, lo', hi');
      forall i | 0 <= i < |items| ensures Holds(b, items[i], v.items[i], wider[i], wider[i + 1]) {
        HoldsWiden(b, items[i], v.items[i], cuts[i], cuts[i + 1], wider[i], wider[i + 1]);
      }
      assert ItemsWithin(b, items, v.items, wider);
    case RObject(fields) =>
      var cuts: seq<nat> :| Cuts(cuts, |fields|, lo, hi) && FieldsWithin(b, fields, v.fields, cuts);
      var wider := [lo'] + cuts[1..];
      CutsWiden(cuts, |fields|, lo, hi, lo', hi');
      forall i | 0 <= i < |fields| ensures HoldsField(b, fields[i], v.fields[i], wider[i], wider[i + 1]) {
        assert HoldsField(b, fields[i], v.fields[i], cuts[i], cuts[i + 1]);
      }
      assert FieldsWithin(b, fields, v.fields, wider);
    case _ =>
  }

  lemma ItemsGrow(b: string, items: seq<RValue>, vs: seq<Json>, lo: nat, mid: nat, r: RValue, v: Json, hi: nat)
    requires HoldsItems(b, items, vs, lo, mid) && Holds(b, r, v, mid, hi)
    ensures HoldsItems(b, items + [r], vs + [v], lo, hi)
  {
    var cuts: seq<nat> :| Cuts(cuts, |items|, lo, mid) && ItemsWithin(b, items, vs, cuts);
    HoldsWiden(b, r, v, mid, hi, cuts[|items|], hi);
    var more := cuts + [hi];
    assert Cuts(more, |items| + 1, lo, hi);
    assert ItemsWithin(b, items + [r], vs + [v], more);
  }

  lemma FieldsGrow(b: string, fields: seq<RField>, vs: seq<Field>, lo: nat, mid: nat, f: RField, v: Field, hi: nat)
    requires HoldsFields(b, fields, vs, lo, mid) && HoldsField(b, f, v, mid, hi)
    ensures HoldsFields(b, fields + [f], vs + [v], lo, hi)
  {
    var cuts: seq<nat> :| Cuts(cuts, |fields|, lo, mid) && FieldsWithin(b, fields, vs, cuts);
    var more := cuts + [hi];
    assert HoldsField(b, f, v, cuts[|fields|], hi);
    assert Cuts(more, |fields| + 1, lo, hi);
    assert FieldsWithin(b, fields + [f], vs + [v], more);
  }

  lemma NoElements(b: string, lo: nat, hi: nat)
    requires lo <= hi <= |b|
    ensures HoldsItems(b, [], [], lo, hi) && HoldsFields(b, [], [], lo, hi)
  {
    assert Cuts([lo], 0, lo, hi) && ItemsWithin(b, [], [], [lo]) && FieldsWithin(b, [], [], [lo]);
  }

  // ---------- strings ----------

  /** A text without a backslash is what it stands for. */
  lemma {:induction false} PlainText(s: string)
    requires forall i :: 0 <= i < |s| ==> s[i] != '\\'
    ensures Raw(s) && Unescaped(s) == s
  {
    if s != "" {
      PlainText(s[1..]);
    }
  }

  /** The buffer with a text written over what stood at a position. */
  function Over(b: string, at: nat, s: string): (r: string)
    requires at + |s| <= |b|
    ensures |r| == |b| && r[at..at + |s|] == s
    ensures forall i :: 0 <= i < at || at + |s| <= i < |b| ==> r[i] == b[i]
  {
    b[..at] + s + b[at + |s|..]
  }

  method Put(buf: array<char>, at: nat, s: string)
    requires at + |s| <= buf.Length
    modifies buf
    ensures buf[..] == Over(old(buf[..]), at, s)
  {
    for k := 0 to |s|
      invariant buf[..] == Over(old(buf[..]), at, s[..k])
    {
      buf[at + k] := s[k];
    }
    assert s[..|s|] == s;
  }

  /** What the first element of raw content stands for, and how long it is. */
  function Element(s: string): (r: (string, nat))
    requires Raw(s) && s != ""
    ensures 1 <= |r.0| <= r.1 <= |s| && Raw(s[r.1..]) && Unescaped(s) == r.0 + Unescaped(s[r.1..])
  {
    if s[0] != '\\' then ([s[0]], 1)
    else if s[1] == 'u' then (Utf8(Code(s, 0)), 6)
    else ([SimpleEscape(s[1])], 2)
  }

  lemma ElementCases(s: string)
    requires Raw(s) && s != ""
    ensures s[0] != '\\' ==> Element(s) == ([s[0]], 1)
    ensures s[0] == '\\' ==> |s| >= 2
    ensures s[0] == '\\' && s[1] != 'u' ==> IsSimpleEscape(s[1]) && Element(s) == ([SimpleEscape(s[1])], 2)
    ensures s[0] == '\\' && s[1] == 'u' ==> |s| >= 6 && EscapeLength(s, 0) == 6 && Element(s) == (Utf8(Code(s, 0)), 6)
  {
  }

  /** Reads the element at `head`. */
  method ReadElement(buf: array<char>, head: nat, ghost rest: string) returns (bytes: string, step: nat)
    requires rest != "" && head + |rest| <= buf.Length && buf[..][head..head + |rest|] == rest && Raw(rest)
    ensures (bytes, step) == Element(rest)
  {
    assert forall i :: 0 <= i < |rest| ==> rest[i] == buf[..][head + i];
    ElementCases(rest);
    hide Raw, Unescaped, Element, Utf8, SimpleEscape, FromHex, IsHex;
    if buf[head] != '\\' {
      return [buf[head]], 1;
    }
    if buf[head + 1] != 'u' {
      return [SimpleEscape(buf[head + 1])], 2;
    }
    var code := FromHex(buf[head + 2]) * 4096 + FromHex(buf[head + 3]) * 256 + FromHex(buf[head + 4]) * 16
        + FromHex(buf[head + 5]);
    return Utf8(code), 6;
  }

  /** Halfway through unescaping the text of `a` from `start` to `end`: what stands before `tail`, and what is still
      to be read from `head` on, together stand for the whole. Nothing else has changed. */
  ghost predicate Halfway(a: string, b: string, start: nat, end: nat, head: nat, tail: nat) {
    && |a| == |b| && start <= tail <= head <= end <= |a|
    && Raw(a[start..end]) && Raw(a[head..end])
    && b[start..tail] + Unescaped(a[head..end]) == Unescaped(a[start..end])
    && (forall i :: 0 <= i < start || head <= i < |a| ==> b[i] == a[i])
  }

  lemma HalfwayNext(a: string, b: string, start: nat, end: nat, head: nat, tail: nat)
    requires Halfway(a, b, start, end, head, tail) && head < end
    ensures var (piece, step) := Element(a[head..end]);
            Halfway(a, Over(b, tail, piece), start, end, head + step, tail + |piece|)
  {
    hide Raw, Unescaped, Element, Over;
    var rest := a[head..end];
    var (piece, step) := Element(rest);
    RestOf(a, head, end, step);
    OverSlice(b, start, tail, piece);
    Regroup(b[start..tail], piece, Unescaped(rest[step..]));
  }

  lemma RestOf(s: string, from: nat, to: nat, n: nat)
    requires from + n <= to <= |s|
    ensures s[from..to][n..] == s[from + n..to]
  {
  }

  lemma OverSlice(b: string, start: nat, tail: nat, s: string)
    requires start <= tail && tail + |s| <= |b|
    ensures Over(b, tail, s)[start..tail + |s|] == b[start..tail] + s
  {
  }

  lemma HalfwayEnd(a: string, b: string, start: nat, end: nat, tail: nat)
    requires Halfway(a, b, start, end, end, tail) && end < |a| && IsText(a, start, end) && start > 0
             && a[start - 1] != NUL
    ensures |a| == |b| && start <= tail <= end && b[start..tail] == TextAt(a, start, end)
            && OnlyWithin(a, b, start, end)
  {
    assert a[end..end] == "";
  }

  lemma HalfwayRest(a: string, b: string, start: nat, end: nat, head: nat, tail: nat)
    requires Halfway(a, b, start, end, head, tail)
    ensures |a| == |b| && tail <= head <= end <= |a| && Raw(a[head..end])
    ensures head + |a[head..end]| == end && b[head..end] == a[head..end]
  {
    assert b[head..end] == a[head..end];
  }

  method UnescapeText(buf: array<char>, start: nat, end: nat) returns (tail: nat)
    requires start <= end <= buf.Length && Raw(buf[..][start..end])
    modifies buf
    ensures Halfway(old(buf[..]), buf[..], start, end, end, tail)
  {
    ghost var a := buf[..];
    var head: nat := start;
    tail := start;
    while head != end
      invariant Halfway(a, buf[..], start, end, head, tail)
      decreases end - head
    {
      head, tail := UnescapeNext(buf, a, start, end, head, tail);
    }
  }

  method UnescapeNext(buf: array<char>, ghost a: string, ghost start: nat, ghost end: nat, head: nat, tail: nat)
      returns (head': nat, tail': nat)
    requires Halfway(a, buf[..], start, end, head, tail) && head < end
    modifies buf
    ensures Halfway(a, buf[..], start, end, head', tail') && head < head'
  {
    hide Halfway, Raw, Unescaped, Element, Over;
    HalfwayRest(a, buf[..], start, end, head, tail);
    HalfwayNext(a, buf[..], start, end, head, tail);
    var bytes, step := ReadElement(buf, head, a[head..end]);
    Put(buf, tail, bytes);
    return head + step, tail + |bytes|;
  }

  /** Unescapes a string where it stands, if its flag says that it needs it, and clears the flag. The text never
      grows, so the writing position does not pass the reading position. */
  method Unescape(buf: array<char>, start: nat, end: nat) returns (newEnd: nat)
    requires 1 <= start <= end < buf.Length
    requires IsText(buf[..], start, end)
    modifies buf
    ensures start <= newEnd <= end && buf[start - 1] == NUL
            && buf[..][start..newEnd] == TextAt(old(buf[..]), start, end)
    ensures OnlyWithin(old(buf[..]), buf[..], start - 1, end + 1)
    ensures old(buf[start - 1]) == NUL ==> newEnd == end && buf[..] == old(buf[..])
  {
    if buf[start - 1] == NUL {
      return end;
    }
    ghost var a := buf[..];
    newEnd := UnescapeText(buf, start, end);
    HalfwayEnd(a, buf[..], start, end, newEnd);
    hide Halfway, TextAt;
    buf[newEnd] := NUL;
    buf[start - 1] := NUL;
  }

  // ---------- steps of the text parser ----------

  lemma SkipStep(t: string, p: nat)
    requires Terminated(t) && p < |t|
    ensures IsWs(t[p]) ==> p + 1 < |t| && SkipWs(t, p) == SkipWs(t, p + 1)
    ensures !IsWs(t[p]) ==> SkipWs(t, p) == p
  {
  }

  lemma StringEndStep(t: string, p: nat)
    requires Terminated(t) && p < |t|
    ensures t[p] == '"' ==> StringEnd(t, p) == Some(p)
    ensures t[p] == NUL ==> StringEnd(t, p) == None
    ensures t[p] != '"' && t[p] != NUL ==> p + 1 < |t|
    ensures t[p] != '"' && t[p] != NUL && t[p] != '\\' ==> StringEnd(t, p) == StringEnd(t, p + 1)
    ensures t[p] == '\\' && EscapeLength(t, p) == 0 ==> StringEnd(t, p) == None
    ensures t[p] == '\\' && EscapeLength(t, p) > 0 ==>
              p + EscapeLength(t, p) < |t| && StringEnd(t, p) == StringEnd(t, p + EscapeLength(t, p))
  {
  }

  lemma NumberEndStep(t: string, p: nat, state: NumberState)
    requires Terminated(t) && p < |t|
    ensures state == Invalid ==> NumberEnd(t, p, state) == None
    ensures state != Invalid && IsNumberChar(t[p]) ==>
              p + 1 < |t| && NumberEnd(t, p, state) == NumberEnd(t, p + 1, NumberStep(state, t[p]))
    ensures state != Invalid && !IsNumberChar(t[p]) ==>
              NumberEnd(t, p, state) == if NumberMayEnd(state) then Some(p) else None
  {
  }

  // ---------- the parser ----------

  class Parser {
    const buf: array<char>
    /** What the buffer held at the start. */
    ghost const text: string
    var data: nat

    /** From the reading position on, the buffer is as it was. */
    ghost predicate Valid()
      reads this`data, buf
    {
      Terminated(text) && data < |text| && Agree(text, buf[..], data, |text|)
    }

    constructor (buf: array<char>)
      requires Terminated(buf[..])
      ensures Valid() && this.buf == buf && text == buf[..] && data == 0
    {
      this.buf := buf;
      text := buf[..];
      data := 0;
    }

    method Consume(c: char) returns (ok: bool)
      requires Valid() && c != NUL
      modifies this`data
      ensures Valid() && ok == (text[old(data)] == c) && data == old(data) + if ok then 1 else 0
    {
      ok := buf[data] == c;
      if ok {
        data := data + 1;
      }
    }

    method WsSkip()
      requires Valid()
      modifies this`data
      ensures Valid() && data == SkipWs(text, old(data))
    {
      while IsWs(buf[data])
        invariant Valid() && SkipWs(text, data) == SkipWs(text, old(data))
        decreases |text| - data
      {
        SkipStep(text, data);
        data := data + 1;
      }
      SkipStep(text, data);
    }

    /** Passes the escape sequence at the reading position. */
    method PassEscape() returns (ok: bool)
      requires Valid() && text[data] == '\\'
      modifies this`data
      ensures Valid() && data > old(data) && ok == (EscapeLength(text, old(data)) > 0)
      ensures ok ==> data == old(data) + EscapeLength(text, old(data))
    {
      data := data + 1;
      if buf[data] == 'u' {
        if !(IsHex(buf[data + 1]) && IsHex(buf[data + 2]) && IsHex(buf[data + 3]) && IsHex(buf[data + 4])) {
          return false;
        }
        data := data + 5;
        return true;
      }
      if !IsSimpleEscape(buf[data]) {
        return false;
      }
      data := data + 1;
      return true;
    }

    /** Scans a string, and closes it with a NUL over its closing quote. The byte of its opening quote becomes the
        flag that it has escapes. */
    method DecodeString() returns (r: Option<RValue>)
      requires Valid()
      modifies this`data, buf
      ensures Valid() && data >= old(data) && Agree(old(buf[..]), buf[..], 0, old(data))
      ensures r.None? <==> text[old(data)] != '"' || StringEnd(text, old(data) + 1).None?
      ensures r.Some? ==> StringRead(buf[..], r.value, text, old(data), data)
    {
      var ok := Consume('"');
      if !ok {
        return None;
      }
      var start := data;
      var hasEscaping := false;
      hide StringEnd, EscapeLength;
      while true
        invariant Valid() && start <= data && StringEnd(text, data) == StringEnd(text, start)
        invariant !hasEscaping ==> forall i :: start <= i < data ==> text[i] != '\\'
        modifies this`data
        decreases |text| - data
      {
        StringEndStep(text, data);
        if buf[data] != '"' && buf[data] != '\\' && buf[data] != NUL {
          data := data + 1;
        } else if buf[data] == '"' {
          break;
        } else if buf[data] == '\\' {
          hasEscaping := true;
          var passed := PassEscape();
          if !passed {
            return None;
          }
        } else {
          return None;
        }
      }
      r := CloseString(start, hasEscaping);
    }

    method CloseString(start: nat, hasEscaping: bool) returns (r: Option<RValue>)
      requires Valid() && 0 < start <= data && StringEnd(text, start) == Some(data)
      requires !hasEscaping ==> forall i :: start <= i < data ==> text[i] != '\\'
      requires Agree(text, buf[..], start - 1, |text|)
      modifies this`data, buf
      ensures Valid() && data > old(data) && Agree(old(buf[..]), buf[..], 0, start - 1)
      ensures r.Some? && StringRead(buf[..], r.value, text, start - 1, data)
    {
      StringEndRaw(text, start);
      buf[data] := NUL;
      buf[start - 1] := if hasEscaping then ESCAPED_FLAG else NUL;
      assert buf[..][start..data] == text[start..data];
      if !hasEscaping {
        PlainText(text[start..data]);
      }
      data := data + 1;
      return Some(RString(start, data - 1));
    }

    method DecodeNumber() returns (r: Option<RValue>)
      requires Valid()
      modifies this`data
      ensures Valid() && data >= old(data)
      ensures NumberEnd(text, old(data), Minus) == if r.Some? then Some(data) else None
      ensures r.Some? ==> r.value == RNumber(old(data), data)
    {
      var start := data;
      var state := Minus;
      hide NumberEnd, NumberStep, NumberMayEnd;
      while state != Invalid
        invariant Valid() && start <= data && NumberEnd(text, data, state) == NumberEnd(text, start, Minus)
        decreases |text| - data
      {
        NumberEndStep(text, data, state);
        var c := buf[data];
        if !IsNumberChar(c) {
          if !NumberMayEnd(state) {
            return None;
          }
          return Some(RNumber(start, data));
        }
        ghost var previous := state;
        state := NumberStep(state, c);
        data := data + 1;
        if '1' <= c <= '9' {
          DigitState(previous, c);
          SkipDigits(state);
        }
      }
      NumberEndStep(text, data, state);
      return None;
    }

    /** After a digit from 1 to 9, the digits that follow it are passed without looking at the state. */
    method SkipDigits(state: NumberState)
      requires Valid() && (state == Digits || state == DigitsAfterPoints || state == DigitsAfterE || state == Invalid)
      modifies this`data
      ensures Valid() && data >= old(data) && NumberEnd(text, data, state) == NumberEnd(text, old(data), state)
    {
      while '0' <= buf[data] <= '9'
        invariant Valid() && data >= old(data) && NumberEnd(text, data, state) == NumberEnd(text, old(data), state)
        decreases |text| - data
      {
        NumberEndStep(text, data, state);
        data := data + 1;
        NumberEndStep(text, data, state);
      }
    }

    /** Whether the text goes on with a word, and if so passes it. */
    method Word(w: string) returns (ok: bool)
      requires Valid() && w != "" && forall i :: 0 <= i < |w| ==> w[i] != NUL
      modifies this`data
      ensures Valid() && ok == At(text, old(data), w) && data == old(data) + if ok then |w| else 0
    {
      var i := 0;
      while i < |w|
        invariant i <= |w| && data + i < |text| && text[data..data + i] == w[..i]
      {
        if buf[data + i] != w[i] {
          AtAnother(text, data, w, i);
          return false;
        }
        i := i + 1;
      }
      assert w[..|w|] == w;
      data := data + i;
      return true;
    }

    method DecodeWord() returns (r: Option<RValue>)
      requires Valid() && (text[data] == 't' || text[data] == 'f' || text[data] == 'n')
      modifies this`data
      ensures Valid() && data >= old(data)
      ensures Outcome(buf[..], r, ParseValue(text, old(data), 0), old(data), data)
      ensures forall depth :: ParseValue(text, old(data), depth) == ParseValue(text, old(data), 0)
    {
      ghost var p := data;
      WordStep(text, p);
      hide ParseValue;
      match buf[data]
      case 't' =>
        var ok := Word("true");
        r := if ok then Some(RTrue) else None;
      case 'f' =>
        var ok := Word("false");
        r := if ok then Some(RFalse) else None;
      case _ =>
        var ok := Word("null");
        r := if ok then Some(RNull) else None;
    }

    method DecodeLeaf(ghost depth: nat) returns (r: Option<RValue>)
      requires Valid() && text[data] != '[' && text[data] != '{'
      modifies this`data, buf
      ensures Valid() && data >= old(data) && Agree(old(buf[..]), buf[..], 0, old(data))
      ensures Outcome(buf[..], r, ParseValue(text, old(data), depth), old(data), data)
    {
      ghost var p := data;
      if buf[data] == '"' {
        r := DecodeString();
        StringOutcome(buf[..], r, text, p, depth, data);
      } else if buf[data] == 't' || buf[data] == 'f' || buf[data] == 'n' {
        r := DecodeWord();
      } else {
        r := DecodeNumber();
        NumberOutcome(buf[..], r, text, p, depth, data);
      }
    }

    method DecodeValue(depth: nat) returns (r: Option<RValue>)
      requires Valid()
      modifies this`data, buf
      ensures Valid() && data >= old(data) && Agree(old(buf[..]), buf[..], 0, old(data))
      ensures Outcome(buf[..], r, ParseValue(text, old(data), depth), old(data), data)
      decreases |text| - data, 2
    {
      ContainerStep(text, data, depth);
      hide ParseValue, ParseList, ParseObject, Outcome, Agree;
      if buf[data] == '[' {
        r := DecodeList(depth + 1);
      } else if buf[data] == '{' {
        r := DecodeObject(depth + 1);
      } else {
        r := DecodeLeaf(depth);
      }
    }

    /** What follows an element: the end of its container, or a comma and another element. */
    method AfterElement(close: char) returns (r: Option<bool>)
      requires Valid() && close != NUL && close != ','
      modifies this`data
      ensures Valid() && data >= old(data)
      ensures var q := SkipWs(text, old(data));
              if text[q] == close then r == Some(true) && data == q + 1
              else if text[q] == ',' then q + 1 < |text| && r == Some(false) && data == SkipWs(text, q + 1)
              else r == None
    {
      WsSkip();
      if buf[data] == close {
        data := data + 1;
        return Some(true);
      }
      var comma := Consume(',');
      if !comma {
        return None;
      }
      WsSkip();
      return Some(false);
    }

    method DecodeItem(depth: nat) returns (r: Option<(RValue, bool)>)
      requires Valid()
      modifies this`data, buf
      ensures Valid() && data >= old(data) && Agree(old(buf[..]), buf[..], 0, old(data))
      ensures ItemRead(buf[..], r, text, old(data), depth, data)
      decreases |text| - data, 3
    {
      ghost var p := data;
      var v := DecodeValue(depth + 1);
      hide Holds, ParseValue, SkipWs, Agree;
      if v.None? {
        return None;
      }
      ghost var e := data;
      var next := AfterElement(']');
      if next.None? {
        return None;
      }
      HoldsWiden(buf[..], v.value, ParseValue(text, p, depth + 1).value.0, p, e, p, data);
      return Some((v.value, next.value));
    }

    method DecodeList(depth: nat) returns (r: Option<RValue>)
      requires Valid() && text[data] == '['
      modifies this`data, buf
      ensures Valid() && data >= old(data) && Agree(old(buf[..]), buf[..], 0, old(data))
      ensures Outcome(buf[..], r, ParseList(text, old(data), depth), old(data), data)
      decreases |text| - data, 1
    {
      ghost var lo := data;
      ListStart(text, lo, depth);
      hide ParseList, ParseItems, NextItem, HoldsItems;
      var ok := Consume('[');
      if depth > MAX_DEPTH {
        return None;
      }
      WsSkip();
      if buf[data] == ']' {
        data := data + 1;
        NoElements(buf[..], lo, data);
        return Some(RList([]));
      }
      NoElements(buf[..], lo, data);
      r := DecodeItems(depth, lo);
    }

    method DecodeItems(depth: nat, ghost lo: nat) returns (r: Option<RValue>)
      requires Valid() && lo <= data
      modifies this`data, buf
      ensures Valid() && data >= old(data) && Agree(old(buf[..]), buf[..], 0, lo)
      ensures Outcome(buf[..], r, ParseItems(text, old(data), depth, []), lo, data)
      decreases |text| - data, 4
    {
      var items: seq<RValue> := [];
      ghost var vs: seq<Json> := [];
      NoElements(buf[..], lo, data);
      while true
        invariant Valid() && old(data) <= data && Agree(old(buf[..]), buf[..], 0, lo)
        invariant HoldsItems(buf[..], items, vs, lo, data)
        invariant ParseItems(text, old(data), depth, []) == ParseItems(text, data, depth, vs)
        decreases |text| - data
      {
        ghost var b, p := buf[..], data;
        ItemsStep(text, p, depth, vs);
        hide ParseItems, NextItem, HoldsItems, Holds, Agree;
        var item := DecodeItem(depth);
        if item.None? {
          return None;
        }
        ItemsGrown(b, buf[..], items, vs, lo, item, text, p, depth, data);
        vs := vs + [NextItem(text, p, depth).value.value];
        items := items + [item.value.0];
        if item.value.1 {
          ListHolds(buf[..], items, vs, lo, data);
          return Some(RList(items));
        }
      }
    }

    /** The string of a key, as it stands. */
    method DecodeKeyString() returns (r: Option<(nat, nat)>)
      requires Valid()
      modifies this`data, buf
      ensures Valid() && data >= old(data) && Agree(old(buf[..]), buf[..], 0, old(data))
      ensures r.None? <==> ReadKey(text, old(data)).None?
      ensures r.Some? ==>
                && r.value == (old(data) + 1, data - 1) && old(data) + 1 < data
                && IsText(buf[..], old(data) + 1, data - 1)
                && ReadKey(text, old(data)) == Some((TextAt(buf[..], old(data) + 1, data - 1), data))
    {
      ghost var p := data;
      var t := DecodeString();
      KeyStep(text, p);
      KeyText(buf[..], t, text, p, data);
      hide ReadKey, StringEnd, StringRead, IsText, TextAt;
      return if t.None? then None else Some((t.value.start, t.value.end));
    }

    /** The key of a field, unescaped where it stands, and what separates it from the value. */
    method DecodeKey() returns (r: Option<(nat, nat)>)
      requires Valid()
      modifies this`data, buf
      ensures Valid() && data >= old(data) && Agree(old(buf[..]), buf[..], 0, old(data))
      ensures KeyRead(buf[..], r, text, old(data), data)
    {
      hide ReadKey, IsText, TextAt, SkipWs;
      ghost var p := data;
      var t := DecodeKeyString();
      if t.None? {
        return None;
      }
      WsSkip();
      var colon := Consume(':');
      if !colon {
        return None;
      }
      r := UnescapeKey(p, t.value.0, t.value.1);
    }

    method UnescapeKey(ghost p: nat, start: nat, end: nat) returns (r: Option<(nat, nat)>)
      requires Valid() && p + 1 == start <= end < data && IsText(buf[..], start, end)
      requires ReadKey(text, p) == Some((TextAt(buf[..], start, end), end + 1))
      requires var colon := SkipWs(text, end + 1); text[colon] == ':' && data == colon + 1
      modifies this`data, buf
      ensures Valid() && data > p && Agree(old(buf[..]), buf[..], 0, p)
      ensures r.Some? && KeyRead(buf[..], r, text, p, data)
    {
      ghost var b := buf[..];
      var newEnd := Unescape(buf, start, end);
      Elsewhere(b, buf[..], p, end + 1);
      hide ReadKey, IsText, TextAt;
      WsSkip();
      return Some((start, newEnd));
    }

    method DecodeField(depth: nat) returns (r: Option<(RField, bool)>)
      requires Valid()
      modifies this`data, buf
      ensures Valid() && data >= old(data) && Agree(old(buf[..]), buf[..], 0, old(data))
      ensures FieldRead(buf[..], r, text, old(data), depth, data)
      decreases |text| - data, 3
    {
      hide Holds, HoldsField, ParseValue, SkipWs, ReadKey;
      ghost var p := data;
      var key := DecodeKey();
      if key.None? {
        return None;
      }
      ghost var b, q := buf[..], data;
      var v := DecodeValue(depth + 1);
      if v.None? {
        return None;
      }
      ghost var e := data;
      var next := AfterElement('}');
      if next.None? {
        return None;
      }
      FieldHolds(b, buf[..], key, v, text, p, q, e, depth, data);
      return Some((RField(key.value.0, key.value.1, v.value), next.value));
    }

    method DecodeObject(depth: nat) returns (r: Option<RValue>)
      requires Valid() && text[data] == '{'
      modifies this`data, buf
      ensures Valid() && data >= old(data) && Agree(old(buf[..]), buf[..], 0, old(data))
      ensures Outcome(buf[..], r, ParseObject(text, old(data), depth), old(data), data)
      decreases |text| - data, 1
    {
      ghost var lo := data;
      ObjectStart(text, lo, depth);
      hide ParseObject, ParseFields, NextField, HoldsFields;
      var ok := Consume('{');
      if depth > MAX_DEPTH {
        return None;
      }
      WsSkip();
      if buf[data] == '}' {
        data := data + 1;
        NoElements(buf[..], lo, data);
        return Some(RObject([]));
      }
      r := DecodeFields(depth, lo);
    }

    method DecodeFields(depth: nat, ghost lo: nat) returns (r: Option<RValue>)
      requires Valid() && lo <= data
      modifies this`data, buf
      ensures Valid() && data >= old(data) && Agree(old(buf[..]), buf[..], 0, lo)
      ensures Outcome(buf[..], r, ParseFields(text, old(data), depth, []), lo, data)
      decreases |text| - data, 4
    {
      var fields: seq<RField> := [];
      ghost var vs: seq<Field> := [];
      NoElements(buf[..], lo, data);
      while true
        invariant Valid() && old(data) <= data && Agree(old(buf[..]), buf[..], 0, lo)
        invariant HoldsFields(buf[..], fields, vs, lo, data)
        invariant ParseFields(text, old(data), depth, []) == ParseFields(text, data, depth, vs)
        decreases |text| - data
      {
        ghost var b, p := buf[..], data;
        FieldsStep(text, p, depth, vs);
        hide ParseFields, NextField, HoldsFields, HoldsField, Agree;
        var field := DecodeField(depth);
        if field.None? {
          return None;
        }
        FieldsGrown(b, buf[..], fields, vs, lo, field, text, p, depth, data);
        vs := vs + [NextField(text, p, depth).value.value];
        fields := fields + [field.value.0];
        if field.value.1 {
          ObjectHolds(buf[..], fields, vs, lo, data);
          return Some(RObject(fields));
        }
      }
    }

    method Parse() returns (r: Option<RValue>)
      requires Valid() && data == 0
      modifies this`data, buf
      ensures r.None? <==> ParseText(text).None?
      ensures r.Some? ==> Holds(buf[..], r.value, ParseText(text).value, 0, |text|)
    {
      hide Holds, ParseValue, SkipWs;
      WsSkip();
      ghost var p := data;
      r := DecodeValue(0);
      if r.None? {
        WsSkip();
        return None;
      }
      ghost var v, e := ParseValue(text, p, 0).value.0, data;
      WsSkip();
      if buf[data] != NUL {
        return None;
      }
      HoldsWiden(buf[..], r.value, v, p, e, 0, |text|);
    }
  }

  /** The value that a NUL-terminated text reads as. */
  function ParseText(t: string): Option<Json>
    requires Terminated(t)
  {
    match ParseValue(t, SkipWs(t, 0), 0)
    case None => None
    case Some((v, e)) => if t[SkipWs(t, e)] == NUL then Some(v) else None
  }

  /** One item of a list as the parser reads it, against the text parser. */
  ghost predicate ItemRead(b: string, r: Option<(RValue, bool)>, t: string, p: nat, depth: nat, data: nat)
    requires Terminated(t) && p < |t|
  {
    && (r.None? <==> NextItem(t, p, depth).None?)
    && (r.Some? ==>
          var Step(v, q, closed) := NextItem(t, p, depth).value;
          data == q && r.value.1 == closed && Holds(b, r.value.0, v, p, q))
  }

  ghost predicate KeyRead(b: string, r: Option<(nat, nat)>, t: string, p: nat, data: nat)
    requires Terminated(t) && p < |t|
  {
    && (r.None? <==> ReadKey(t, p).None? || t[SkipWs(t, ReadKey(t, p).value.1)] != ':')
    && (r.Some? ==>
          var (key, k) := ReadKey(t, p).value;
          && data == SkipWs(t, SkipWs(t, k) + 1)
          && p <= r.value.0 <= r.value.1 <= data < |b| && b[r.value.0..r.value.1] == key)
  }

  ghost predicate FieldRead(b: string, r: Option<(RField, bool)>, t: string, p: nat, depth: nat, data: nat)
    requires Terminated(t) && p < |t|
  {
    && (r.None? <==> NextField(t, p, depth).None?)
    && (r.Some? ==>
          var Step(f, q, closed) := NextField(t, p, depth).value;
          data == q && r.value.1 == closed && HoldsField(b, r.value.0, f, p, q))
  }

  lemma DigitState(state: NumberState, c: char)
    requires state != Invalid && '1' <= c <= '9'
    ensures var s := NumberStep(state, c); s == Digits || s == DigitsAfterPoints || s == DigitsAfterE || s == Invalid
  {
  }

  lemma AtAnother(t: string, p: nat, w: string, i: nat)
    requires i < |w| && p + i < |t| && t[p + i] != w[i]
    ensures !At(t, p, w)
  {
    assert p + |w| <= |t| ==> t[p..p + |w|][i] == t[p + i];
  }

  lemma WordStep(t: string, p: nat)
    requires Terminated(t) && p < |t|
    ensures t[p] == 't' ==> forall depth ::
            ParseValue(t, p, depth) == if At(t, p, "true") then Some((True, p + 4)) else None
    ensures t[p] == 'f' ==> forall depth ::
            ParseValue(t, p, depth) == if At(t, p, "false") then Some((False, p + 5)) else None
    ensures t[p] == 'n' ==> forall depth ::
            ParseValue(t, p, depth) == if At(t, p, "null") then Some((Null, p + 4)) else None
  {
    hide At;
  }

  lemma ContainerStep(t: string, p: nat, depth: nat)
    requires Terminated(t) && p < |t|
    ensures t[p] == '[' ==> ParseValue(t, p, depth) == ParseList(t, p, depth + 1)
    ensures t[p] == '{' ==> ParseValue(t, p, depth) == ParseObject(t, p, depth + 1)
  {
    hide ParseList, ParseObject;
  }

  lemma StringOutcome(b: string, r: Option<RValue>, t: string, p: nat, depth: nat, data: nat)
    requires Terminated(t) && p < |t| && t[p] == '"' && data < |b| && |b| == |t|
    requires r.None? <==> StringEnd(t, p + 1).None?
    requires r.Some? ==> StringRead(b, r.value, t, p, data)
    ensures Outcome(b, r, ParseValue(t, p, depth), p, data)
  {
    hide StringEnd, TextAt, Unescaped, Raw;
  }

  lemma NumberOutcome(b: string, r: Option<RValue>, t: string, p: nat, depth: nat, data: nat)
    requires Terminated(t) && p < |t| && p <= data < |t| && Agree(t, b, p, |t|)
    requires t[p] != '"' && t[p] != '[' && t[p] != '{' && t[p] != 't' && t[p] != 'f' && t[p] != 'n'
    requires NumberEnd(t, p, Minus) == if r.Some? then Some(data) else None
    requires r.Some? ==> r.value == RNumber(p, data)
    ensures Outcome(b, r, ParseValue(t, p, depth), p, data)
  {
    AgreeSlice(t, b, p, |t|, p, data);
    hide NumberEnd;
  }

  lemma ListStart(t: string, p: nat, depth: nat)
    requires Terminated(t) && p < |t| && t[p] == '['
    ensures depth > MAX_DEPTH ==> ParseList(t, p, depth) == None
    ensures depth <= MAX_DEPTH ==>
              var q := SkipWs(t, p + 1);
              ParseList(t, p, depth) == if t[q] == ']' then Some((List([]), q + 1)) else ParseItems(t, q, depth, [])
  {
    hide ParseItems;
  }

  lemma ObjectStart(t: string, p: nat, depth: nat)
    requires Terminated(t) && p < |t| && t[p] == '{'
    ensures depth > MAX_DEPTH ==> ParseObject(t, p, depth) == None
    ensures depth <= MAX_DEPTH ==>
              var q := SkipWs(t, p + 1);
              ParseObject(t, p, depth) == if t[q] == '}' then Some((Object([]), q + 1))
                  else ParseFields(t, q, depth, [])
  {
    hide ParseFields;
  }

  lemma KeyStep(t: string, p: nat)
    requires Terminated(t) && p < |t|
    ensures ReadKey(t, p).None? <==> t[p] != '"' || StringEnd(t, p + 1).None?
    ensures ReadKey(t, p).Some? ==>
              && ReadKey(t, p).value.1 == StringEnd(t, p + 1).value + 1
              && (StringEndRaw(t, p + 1); ReadKey(t, p).value.0 == Unescaped(t[p + 1..StringEnd(t, p + 1).value]))
  {
    hide StringEnd, Unescaped;
  }

  lemma FieldHolds(a: string, b: string, key: Option<(nat, nat)>, v: Option<RValue>, t: string, p: nat, q: nat, e: nat,
      depth: nat, data: nat)
    requires Terminated(t) && p < |t| && q < |t| && e <= data <= |b| && key.Some? && v.Some? && Agree(a, b, 0, q)
    requires KeyRead(a, key, t, p, q) && Outcome(b, v, ParseValue(t, q, depth + 1), q, e)
    ensures var f := Field(ReadKey(t, p).value.0, ParseValue(t, q, depth + 1).value.0);
            HoldsField(b, RField(key.value.0, key.value.1, v.value), f, p, data)
  {
    hide Holds, ReadKey, ParseValue, SkipWs;
    AgreeSlice(a, b, 0, q, key.value.0, key.value.1);
    HoldsRange(b, v.value, ParseValue(t, q, depth + 1).value.0, q, e);
    HoldsWiden(b, v.value, ParseValue(t, q, depth + 1).value.0, q, e, key.value.1, data);
  }

  lemma HoldsRange(b: string, r: RValue, v: Json, lo: nat, hi: nat)
    requires Holds(b, r, v, lo, hi)
    ensures lo <= hi <= |b|
  {
  }

  lemma ListHolds(b: string, items: seq<RValue>, vs: seq<Json>, lo: nat, hi: nat)
    requires HoldsItems(b, items, vs, lo, hi) && lo <= hi <= |b|
    ensures Holds(b, RList(items), List(vs), lo, hi)
  {
    hide HoldsItems;
  }

  lemma ObjectHolds(b: string, fields: seq<RField>, vs: seq<Field>, lo: nat, hi: nat)
    requires HoldsFields(b, fields, vs, lo, hi) && lo <= hi <= |b|
    ensures Holds(b, RObject(fields), Object(vs), lo, hi)
  {
    hide HoldsFields;
  }

  lemma KeyText(b: string, r: Option<RValue>, t: string, p: nat, data: nat)
    requires Terminated(t) && p < |t| && (r.None? <==> t[p] != '"' || StringEnd(t, p + 1).None?)
    requires r.Some? ==> StringRead(b, r.value, t, p, data)
    ensures r.Some? ==>
              && ReadKey(t, p).Some? && data == ReadKey(t, p).value.1
              && r.value.RString? && r.value.start == p + 1 && p + 1 <= r.value.end == data - 1 && data - 1 <= |b|
              && IsText(b, p + 1, data - 1) && TextAt(b, p + 1, data - 1) == ReadKey(t, p).value.0
  {
    hide StringEnd, TextAt, Unescaped, Raw;
  }

  lemma ItemsGrown(a: string, b: string, items: seq<RValue>, vs: seq<Json>, lo: nat, item: Option<(RValue, bool)>,
      t: string, p: nat, depth: nat, data: nat)
    requires Terminated(t) && p < |t| && lo <= p && HoldsItems(a, items, vs, lo, p) && Agree(a, b, 0, p)
    requires item.Some? && ItemRead(b, item, t, p, depth, data)
    ensures HoldsItems(b, items + [item.value.0], vs + [NextItem(t, p, depth).value.value], lo, data)
  {
    hide NextItem, HoldsItems, Holds;
    ItemsFrame(a, b, items, vs, lo, p);
    ItemsGrow(b, items, vs, lo, p, item.value.0, NextItem(t, p, depth).value.value, data);
  }

  lemma FieldsGrown(a: string, b: string, fields: seq<RField>, vs: seq<Field>, lo: nat, field: Option<(RField, bool)>,
      t: string, p: nat, depth: nat, data: nat)
    requires Terminated(t) && p < |t| && lo <= p && HoldsFields(a, fields, vs, lo, p) && Agree(a, b, 0, p)
    requires field.Some? && FieldRead(b, field, t, p, depth, data)
    ensures HoldsFields(b, fields + [field.value.0], vs + [NextField(t, p, depth).value.value], lo, data)
  {
    hide NextField, HoldsFields, HoldsField;
    FieldsFrame(a, b, fields, vs, lo, p);
    FieldsGrow(b, fields, vs, lo, p, field.value.0, NextField(t, p, depth).value.value, data);
  }

  /** A result of the parser against the result of the text parser. */
  ghost predicate Outcome(b: string, r: Option<RValue>, spec: Option<(Json, nat)>, lo: nat, data: nat) {
    && (r.None? <==> spec.None?)
    && (r.Some? ==> data == spec.value.1 && Holds(b, r.value, spec.value.0, lo, data))
  }

  /** A string that was read from the text at `p`, and the position behind it. */
  predicate StringRead(b: string, r: RValue, t: string, p: nat, q: nat)
    requires Terminated(t)
  {
    && p + 1 < |t| && StringEnd(t, p + 1).Some? && q == StringEnd(t, p + 1).value + 1
    && r == RString(p + 1, q - 1) && IsText(b, p + 1, q - 1)
    && (StringEndRaw(t, p + 1); TextAt(b, p + 1, q - 1) == Unescaped(t[p + 1..q - 1]))
  }

  // ---------- loading ----------

  /** Parses a copy of a text. The result refers to the copy. */
  method LoadText(s: string) returns (buf: array<char>, r: Option<RValue>)
    ensures fresh(buf) && buf.Length == |s| + 1
    ensures r.None? <==> Load(s).None?
    ensures r.Some? ==> Holds(buf[..], r.value, Load(s).value, 0, |s| + 1)
  {
    buf := new char[|s| + 1];
    for i := 0 to |s|
      invariant buf[..i] == s[..i]
    {
      buf[i] := s[i];
    }
    buf[|s|] := NUL;
    assert buf[..] == s + [NUL];
    var parser := new Parser(buf);
    hide ParseValue, Holds, SkipWs;
    r := parser.Parse();
  }
}
