/** URL patterns of the router: the text written by the application, the tags in it, and the list of
    tokens a pattern stands for. */
module RoutePattern {
  import opened Basics

  /** The kind of a parameter; MAX stands for "no parameter". */
  datatype ParamType = INT | UINT | DOUBLE | STRING | PATH | MAX

  datatype Token = Lit(c: char) | Param(kind: ParamType)

  predicate StartsAt(s: string, i: nat, t: string) {
    i + |t| <= |s| && s[i..i + |t|] == t
  }

  /** The parameter kind of the tag that starts at `i`, and the length of the tag's text; (MAX, 0) if none does. */
  function TagAt(s: string, i: nat): (r: (ParamType, nat))
    ensures r.1 > 0 <==> r.0 != MAX
    ensures r.1 > 0 ==> i + r.1 <= |s| && s[i] == '<' && s[i + r.1 - 1] == '>'
    ensures r.1 > 0 ==> forall j :: i < j < i + r.1 ==> s[j] != '<'
    ensures r.1 > 0 ==> forall j :: i <= j < i + r.1 - 1 ==> s[j] != '>'
  {
    if StartsAt(s, i, "<int>") then TagChars(s, i, "<int>"); (INT, 5)
    else if StartsAt(s, i, "<uint>") then TagChars(s, i, "<uint>"); (UINT, 6)
    else if StartsAt(s, i, "<float>") then TagChars(s, i, "<float>"); (DOUBLE, 7)
    else if StartsAt(s, i, "<double>") then TagChars(s, i, "<double>"); (DOUBLE, 8)
    else if StartsAt(s, i, "<str>") then TagChars(s, i, "<str>"); (STRING, 5)
    else if StartsAt(s, i, "<string>") then TagChars(s, i, "<string>"); (STRING, 8)
    else if StartsAt(s, i, "<path>") then TagChars(s, i, "<path>"); (PATH, 6)
    else (MAX, 0)
  }

  /** The text of a tag: angle brackets, and none between them. */
  predicate IsTagText(t: string) {
    |t| >= 2 && t[0] == '<' && t[|t| - 1] == '>' && forall k :: 0 < k < |t| - 1 ==> t[k] != '<' && t[k] != '>'
  }

  lemma TagChars(s: string, i: nat, t: string)
    requires StartsAt(s, i, t) && IsTagText(t)
    ensures s[i] == '<' && s[i + |t| - 1] == '>'
    ensures forall j :: i < j < i + |t| ==> s[j] != '<'
    ensures forall j :: i <= j < i + |t| - 1 ==> s[j] != '>'
  {
    assert forall j :: i <= j < i + |t| ==> s[j] == s[i..i + |t|][j - i];
  }

  /** Every '<' in the pattern opens a tag that the router knows. */
  predicate TagsKnownFrom(s: string, p: nat) {
    forall i :: p <= i < |s| && s[i] == '<' ==> TagAt(s, i).1 > 0
  }

  predicate TagsKnown(s: string) {
    TagsKnownFrom(s, 0)
  }

  /** The patterns that the router accepts: they start with a slash and hold known tags only; a pattern is a
      C string, so it holds no NUL. */
  predicate GoodPattern(s: string) {
    s != "" && s[0] == '/' && TagsKnown(s) && NUL !in s
  }

  /** The position of the first '>' at or after `p`; None where registration runs off the text and throws. */
  function FindClosingTag(s: string, p: nat): (r: Option<nat>)
    requires p <= |s|
    ensures r.Some? ==> p <= r.value < |s| && s[r.value] == '>'
    ensures r.Some? ==> forall j :: p <= j < r.value ==> s[j] != '>'
    ensures r.None? ==> forall j :: p <= j < |s| ==> s[j] != '>'
    decreases |s| - p
  {
    if p == |s| then None
    else if s[p] == '>' then Some(p)
    else FindClosingTag(s, p + 1)
  }

  function TagDigit(k: ParamType): nat {
    match k
    case INT => 1
    case UINT => 2
    case DOUBLE => 3
    case STRING => 4
    case PATH => 5
    case MAX => 0
  }

  /** The 64-bit number that encodes a pattern's parameter kinds; None where registration throws. */
  function GetParameterTag(s: string, p: nat): (r: Option<nat>)
    requires p <= |s|
    decreases |s| - p
  {
    if p == |s| then Some(0)
    else if s[p] == '<' then
      var (kind, len) := TagAt(s, p);
      if len == 0 then None
      else
        match FindClosingTag(s, p)
        case None => None
        case Some(q) =>
          if q == p then None
          else
            match GetParameterTag(s, q)
            case None => None
            case Some(v) => Some(AddDigit(v, TagDigit(kind)))
    else GetParameterTag(s, p + 1)
  }

  /** A pattern is accepted exactly when every '<' in it opens a known tag. */
  lemma {:induction false} AcceptedIffTagsKnown(s: string, p: nat)
    requires p <= |s|
    ensures GetParameterTag(s, p).Some? <==> TagsKnownFrom(s, p)
    decreases |s| - p
  {
    if p < |s| {
      if s[p] == '<' {
        var (kind, len) := TagAt(s, p);
        if len > 0 {
          var q := FindClosingTag(s, p).value;
          assert q == p + len - 1;
          AcceptedIffTagsKnown(s, q);
          assert TagsKnownFrom(s, p) <==> TagsKnownFrom(s, q);
        }
      } else {
        AcceptedIffTagsKnown(s, p + 1);
        assert TagsKnownFrom(s, p) <==> TagsKnownFrom(s, p + 1);
      }
    }
  }

  /** The tokens of the pattern from position `i` on. */
  function Tokens(s: string, i: nat): (r: seq<Token>)
    requires i <= |s| && TagsKnownFrom(s, i)
    decreases |s| - i
  {
    if i == |s| then []
    else if s[i] == '<' then [Param(TagAt(s, i).0)] + Tokens(s, i + TagAt(s, i).1)
    else [Lit(s[i])] + Tokens(s, i + 1)
  }

  function FirstToken(s: string, i: nat): Token
    requires i < |s|
  {
    if s[i] == '<' then Param(TagAt(s, i).0) else Lit(s[i])
  }

  /** Where the next token begins. */
  function NextAt(s: string, i: nat): nat
    requires i < |s|
  {
    if s[i] == '<' then i + TagAt(s, i).1 else i + 1
  }

  lemma NextTokens(s: string, i: nat)
    requires i < |s| && TagsKnownFrom(s, i)
    ensures i < NextAt(s, i) <= |s| && TagsKnownFrom(s, NextAt(s, i))
    ensures Tokens(s, i) == [FirstToken(s, i)] + Tokens(s, NextAt(s, i))
  {
    hide TagAt;
  }

  /** The kinds of parameters, in the order of their digits from 1 on. */
  const KINDS: seq<ParamType> := [INT, UINT, DOUBLE, STRING, PATH]

  /** The parameter kinds of a pattern as a number in base 6, the first one least significant. */
  function KindDigits(ts: seq<Token>): nat {
    if ts == [] then 0
    else if ts[0].Param? then KindDigits(ts[1..]) * 6 + Place(KINDS, ts[0].kind)
    else KindDigits(ts[1..])
  }

  /** Where a kind stands in a list, counted from 1; 0 if it does not. */
  function Place(kinds: seq<ParamType>, kind: ParamType): nat {
    if kinds == [] then 0
    else if kinds[|kinds| - 1] == kind then |kinds|
    else Place(kinds[..|kinds| - 1], kind)
  }

  lemma DigitIsPlace(kind: ParamType)
    ensures TagDigit(kind) == Place(KINDS, kind)
  {
    var k4, k3, k2, k1 := KINDS[..4], KINDS[..3], KINDS[..2], KINDS[..1];
    assert k4[..3] == k3 && k3[..2] == k2 && k2[..1] == k1 && k1[..0] == [];
    assert Place(k1, kind) == if kind == INT then 1 else 0;
    assert Place(k2, kind) == if kind == UINT then 2 else Place(k1, kind);
    assert Place(k3, kind) == if kind == DOUBLE then 3 else Place(k2, kind);
    assert Place(k4, kind) == if kind == STRING then 4 else Place(k3, kind);
  }

  /** One more digit, on a number of 64 bits. */
  function AddDigit(v: nat, digit: nat): nat {
    (v * 6 + digit) % TWO64
  }

  lemma WrapStep(v: nat, d: nat)
    ensures AddDigit(v % TWO64, d) == (v * 6 + d) % TWO64
  {
    Multiples(v % TWO64 * 6 + d, v / TWO64 * 6);
  }

  lemma {:induction false} Multiples(x: nat, k: nat)
    ensures (x + TWO64 * k) % TWO64 == x % TWO64
  {
    if k > 0 {
      Multiples(x, k - 1);
      OneMultiple(x + TWO64 * (k - 1));
    }
  }

  lemma OneMultiple(x: nat)
    ensures (x + TWO64) % TWO64 == x % TWO64
  {
  }

  /** A tag in front adds its digit. */
  lemma TagStep(s: string, p: nat)
    requires p < |s| && s[p] == '<' && TagsKnownFrom(s, p)
    ensures var (kind, len) := TagAt(s, p);
            && len > 0 && TagsKnownFrom(s, p + len) && GetParameterTag(s, p + len).Some?
            && GetParameterTag(s, p) == Some(AddDigit(GetParameterTag(s, p + len).value, TagDigit(kind)))
  {
    var (kind, len) := TagAt(s, p);
    AcceptedIffTagsKnown(s, p + len);
    hide TagAt, TagDigit, AddDigit;
    var q := FindClosingTag(s, p).value;
    assert q == p + len - 1 && s[q] == '>';
    assert GetParameterTag(s, q) == GetParameterTag(s, q + 1);
  }

  /** Any other character leaves it as it is. */
  lemma CharStep(s: string, p: nat)
    requires p < |s| && s[p] != '<'
    ensures GetParameterTag(s, p) == GetParameterTag(s, p + 1)
  {
  }

  lemma EmptyTag(s: string)
    ensures GetParameterTag(s, |s|) == Some(0) && TagsKnownFrom(s, |s|) && KindDigits(Tokens(s, |s|)) == 0
  {
    hide TagAt;
  }

  lemma KindsStep(s: string, p: nat)
    requires p < |s| && TagsKnownFrom(s, p)
    ensures s[p] != '<' ==> TagsKnownFrom(s, p + 1) && KindDigits(Tokens(s, p)) == KindDigits(Tokens(s, p + 1))
    ensures s[p] == '<' ==>
              var (kind, len) := TagAt(s, p);
              && len > 0 && TagsKnownFrom(s, p + len)
              && KindDigits(Tokens(s, p)) == KindDigits(Tokens(s, p + len)) * 6 + TagDigit(kind)
  {
    hide TagAt, TagDigit, Place;
    if s[p] == '<' {
      var (kind, len) := TagAt(s, p);
      DigitIsPlace(kind);
      assert Tokens(s, p)[1..] == Tokens(s, p + len);
    } else {
      assert Tokens(s, p)[1..] == Tokens(s, p + 1);
    }
  }

  /** The tag number spells, in base 6 and modulo 2^64, the parameter kinds in the order of the tokens. */
  lemma {:induction false} TagSpellsKinds(s: string, p: nat)
    requires p <= |s| && TagsKnownFrom(s, p)
    ensures GetParameterTag(s, p) == Some(KindDigits(Tokens(s, p)) % TWO64)
    decreases |s| - p
  {
    hide TagAt, GetParameterTag, TagDigit, TagsKnownFrom, KindDigits, Tokens, AddDigit;
    EmptyTag(s);
    if p < |s| {
      KindsStep(s, p);
      if s[p] == '<' {
        TagStep(s, p);
        var (kind, len) := TagAt(s, p);
        TagSpellsKinds(s, p + len);
        WrapStep(KindDigits(Tokens(s, p + len)), TagDigit(kind));
      } else {
        CharStep(s, p);
        TagSpellsKinds(s, p + 1);
      }
    }
  }

  // ---------- patterns as they are written ----------

  /** The text that stands for a token: one of the known tags, or the character itself. */
  predicate Spells(text: string, t: Token) {
    match t
    case Lit(c) => text == [c] && c != '<'
    case Param(INT) => text == "<int>"
    case Param(UINT) => text == "<uint>"
    case Param(DOUBLE) => text == "<float>" || text == "<double>"
    case Param(STRING) => text == "<str>" || text == "<string>"
    case Param(PATH) => text == "<path>"
    case Param(MAX) => false
  }

  predicate AllSpell(parts: seq<string>, ts: seq<Token>) {
    |parts| == |ts| && forall i :: 0 <= i < |ts| ==> Spells(parts[i], ts[i])
  }

  /** The pattern is a sequence of texts that stand for these tokens. */
  ghost predicate Written(s: string, ts: seq<Token>) {
    exists parts :: s == Concat(parts) && AllSpell(parts, ts)
  }

  predicate IsTag(t: string) {
    || t == "<int>" || t == "<uint>" || t == "<float>" || t == "<double>" || t == "<str>" || t == "<string>"
    || t == "<path>"
  }

  /** Where one of two tags stands, the other one does not. */
  lemma OneTag(s: string, i: nat, t: string, u: string)
    requires IsTag(t) && IsTag(u) && t != u && StartsAt(s, i, t)
    ensures !StartsAt(s, i, u)
  {
    var j := if t[1] == u[1] then 4 else 1;
    assert t[j] != u[j];
    CharAt(s, i, t, j);
    if StartsAt(s, i, u) {
      CharAt(s, i, u, j);
    }
  }

  lemma CharAt(s: string, i: nat, t: string, j: nat)
    requires StartsAt(s, i, t) && j < |t|
    ensures s[i + j] == t[j]
  {
    assert s[i..i + |t|][j] == s[i + j];
  }

  /** A text that stands for a token, in front of any other text, is read as that token. */
  lemma PartReads(part: string, t: Token, s: string, i: nat)
    requires Spells(part, t) && StartsAt(s, i, part)
    ensures part != "" && i < |s|
    ensures t.Lit? ==> |part| == 1 && s[i] == t.c != '<'
    ensures t.Param? ==> s[i] == '<' && TagAt(s, i) == (t.kind, |part|)
  {
    assert s[i..i + |part|][0] == s[i];
    if t.Param? {
      forall u | IsTag(u) && u != part ensures !StartsAt(s, i, u) {
        OneTag(s, i, part, u);
      }
      hide StartsAt;
    }
  }

  /** A pattern that is written for some tokens is accepted, and read as these tokens. */
  lemma {:induction false} WrittenReads(parts: seq<string>, ts: seq<Token>, s: string, i: nat)
    requires AllSpell(parts, ts) && i <= |s| && s[i..] == Concat(parts)
    ensures TagsKnownFrom(s, i) && Tokens(s, i) == ts
    decreases |parts|
  {
    hide TagAt, Spells;
    if parts == [] {
      assert i == |s|;
    } else {
      var next := i + |parts[0]|;
      assert s[i..] == parts[0] + Concat(parts[1..]);
      assert s[i..next] == parts[0] && StartsAt(s, i, parts[0]);
      assert s[next..] == s[i..][|parts[0]|..] == Concat(parts[1..]);
      PartReads(parts[0], ts[0], s, i);
      WrittenReads(parts[1..], ts[1..], s, next);
      KnownBehind(s, i, next);
      assert ts == [ts[0]] + ts[1..];
    }
  }

  /** Known tags from the next token on, and at this one. */
  lemma KnownBehind(s: string, i: nat, next: nat)
    requires i < next <= |s| && TagsKnownFrom(s, next)
    requires if s[i] == '<' then TagAt(s, i).1 == next - i else next == i + 1
    ensures TagsKnownFrom(s, i)
  {
    assert forall j :: i < j < next ==> s[j] != '<';
    hide TagAt;
  }

  /** A known tag is one of the texts that stand for its kind. */
  lemma TagSpells(s: string, i: nat)
    requires i < |s| && TagAt(s, i).1 > 0
    ensures var (kind, len) := TagAt(s, i); i + len <= |s| && Spells(s[i..i + len], Param(kind))
  {
  }

  /** An accepted pattern is written for the tokens it is read as. */
  lemma {:induction false} TokensWritten(s: string, i: nat) returns (parts: seq<string>)
    requires i <= |s| && TagsKnownFrom(s, i)
    ensures s[i..] == Concat(parts) && AllSpell(parts, Tokens(s, i))
    decreases |s| - i
  {
    hide TagAt, Spells, Tokens, TagsKnownFrom, NextAt, FirstToken;
    if i == |s| {
      EmptyTokens(s);
      parts := [];
    } else {
      var next := NextAt(s, i);
      NextTokens(s, i);
      FirstSpells(s, i);
      var rest := TokensWritten(s, next);
      parts := [s[i..next]] + rest;
      assert parts[1..] == rest;
      assert s[i..] == s[i..next] + s[next..];
    }
  }

  lemma EmptyTokens(s: string)
    requires TagsKnownFrom(s, |s|)
    ensures Tokens(s, |s|) == []
  {
  }

  lemma FirstSpells(s: string, i: nat)
    requires i < |s| && TagsKnownFrom(s, i) && i < NextAt(s, i) <= |s|
    ensures Spells(s[i..NextAt(s, i)], FirstToken(s, i))
  {
    if s[i] == '<' {
      TagSpells(s, i);
    }
    hide TagAt;
  }

  /** A pattern is accepted exactly if it is written for some tokens, and read as these and no others. */
  lemma ReadAsWritten(s: string, ts: seq<Token>)
    ensures Written(s, ts) <==> TagsKnown(s) && Tokens(s, 0) == ts
  {
    hide Tokens, Concat, AllSpell, TagsKnownFrom;
    assert s[0..] == s;
    if Written(s, ts) {
      var parts :| s == Concat(parts) && AllSpell(parts, ts);
      WrittenReads(parts, ts, s, 0);
    }
    if TagsKnown(s) {
      var parts := TokensWritten(s, 0);
      assert Written(s, Tokens(s, 0));
    }
  }
}
