/** The meaning of a set of routes, without any index: a URL is matched against every pattern in turn. */
module RouteTable {
  import opened Basics
  import opened RoutePattern

  type RuleIndex = n: nat | n < 0x1_0000

  /** The captured parameters, one list per kind; numbers are kept as the text that was converted. */
  datatype Params = Params(ints: seq<string>, uints: seq<string>, doubles: seq<string>, strings: seq<string>)

  const NO_PARAMS := Params([], [], [], [])

  /** The end of the number that strtoll, strtoull or strtod reads at a position; the position itself when
      the conversion fails or overflows. */
  type NumberScan = (ParamType, string, nat) -> nat

  datatype Found = Found(rule: RuleIndex, params: Params)

  const NOTHING := Found(0, NO_PARAMS)

  type Route = (seq<Token>, RuleIndex)

  function Push(p: Params, kind: ParamType, text: string): Params {
    match kind
    case INT => p.(ints := p.ints + [text])
    case UINT => p.(uints := p.uints + [text])
    case DOUBLE => p.(doubles := p.doubles + [text])
    case STRING | PATH => p.(strings := p.strings + [text])
    case MAX => p
  }

  /** The end of the segment that starts at `pos`: the next '/' or the end of the URL. */
  function SegmentEnd(url: string, pos: nat): (e: nat)
    requires pos <= |url|
    ensures pos <= e <= |url|
    ensures forall j :: pos <= j < e ==> url[j] != '/'
    ensures e < |url| ==> url[e] == '/'
    decreases |url| - pos
  {
    if pos == |url| || url[pos] == '/' then pos else SegmentEnd(url, pos + 1)
  }

  predicate NumberStart(kind: ParamType, c: char) {
    '0' <= c <= '9' || (kind == INT && (c == '+' || c == '-')) || (kind == UINT && c == '+')
    || (kind == DOUBLE && (c == '+' || c == '-' || c == '.'))
  }

  /** Where the parameter that starts at `pos` ends, if the URL has one there. */
  function ParamEnd(kind: ParamType, url: string, pos: nat, strto: NumberScan): (e: Option<nat>)
    requires pos < |url|
    ensures e.Some? ==> pos < e.value <= |url|
  {
    match kind
    case INT | UINT | DOUBLE =>
      var e := strto(kind, url, pos);
      if NumberStart(kind, url[pos]) && pos < e <= |url| then Some(e) else None
    case STRING =>
      var e := SegmentEnd(url, pos);
      if e != pos then Some(e) else None
    case PATH => Some(|url|)
    case MAX => None
  }

  /** Whether the rest of a URL matches a pattern, and with which captured parameters. */
  function Match(ts: seq<Token>, url: string, pos: nat, params: Params, strto: NumberScan): Option<Params>
    requires pos <= |url|
  {
    if ts == [] then (if pos == |url| then Some(params) else None)
    else if pos == |url| then None
    else
      match ts[0]
      case Lit(c) => if url[pos] == c then Match(ts[1..], url, pos + 1, params, strto) else None
      case Param(kind) =>
        match ParamEnd(kind, url, pos, strto)
        case None => None
        case Some(e) => Match(ts[1..], url, e, Push(params, kind, url[pos..e]), strto)
  }

  /** Of two answers, the one with the smaller rule index; the first one wins a tie. */
  function Better(a: Found, b: Found): Found {
    if b.rule != 0 && (a.rule == 0 || a.rule > b.rule) then b else a
  }

  function Answer(r: Route, url: string, pos: nat, params: Params, strto: NumberScan): (f: Found)
    requires pos <= |url|
    ensures f.rule == 0 ==> f == NOTHING
  {
    match Match(r.0, url, pos, params, strto)
    case None => NOTHING
    case Some(ps) => if r.1 == 0 then NOTHING else Found(r.1, ps)
  }

  /** The scan over all routes. */
  function Scan(rs: seq<Route>, url: string, pos: nat, params: Params, strto: NumberScan): (f: Found)
    requires pos <= |url|
    ensures f.rule == 0 ==> f == NOTHING
  {
    if rs == [] then NOTHING
    else Better(Answer(rs[0], url, pos, params, strto), Scan(rs[1..], url, pos, params, strto))
  }

  lemma ScanNothing(url: string, pos: nat, params: Params, strto: NumberScan)
    requires pos <= |url|
    ensures Scan([], url, pos, params, strto) == NOTHING
  {
  }

  /** The routes below a node, seen from above the node: every pattern is extended by the node's own tokens. */
  function Prefixed(own: seq<Token>, rs: seq<Route>): (r: seq<Route>)
    ensures |r| == |rs|
  {
    seq(|rs|, i requires 0 <= i < |rs| => (own + rs[i].0, rs[i].1))
  }

  function Literals(s: string): (ts: seq<Token>)
    ensures |ts| == |s|
  {
    seq(|s|, i requires 0 <= i < |s| => Lit(s[i]))
  }

  // ---------- what a match is ----------

  /** The piece of the URL that begins at `pos` stands for a token. */
  predicate Fits(t: Token, piece: string, url: string, pos: nat, strto: NumberScan) {
    var end := pos + |piece|;
    match t
    case Lit(c) => piece == [c]
    case Param(INT) => piece != "" && piece[0] in "+-0123456789" && strto(INT, url, pos) == end
    case Param(UINT) => piece != "" && piece[0] in "+0123456789" && strto(UINT, url, pos) == end
    case Param(DOUBLE) => piece != "" && piece[0] in "+-.0123456789" && strto(DOUBLE, url, pos) == end
    case Param(STRING) => piece != "" && '/' !in piece && (end < |url| ==> url[end] == '/')
    case Param(PATH) => piece != "" && end == |url|
    case Param(MAX) => false
  }

  /** The rest of a URL falls into one piece for each token. */
  predicate SplitsFrom(ts: seq<Token>, pieces: seq<string>, url: string, pos: nat, strto: NumberScan) {
    && |pieces| == |ts| && pos <= |url| && url[pos..] == Concat(pieces)
    && forall i :: 0 <= i < |ts| ==> Fits(ts[i], pieces[i], url, pos + |Concat(pieces[..i])|, strto)
  }

  /** The pieces that stand for parameters of some kinds, in their order. */
  function PiecesOf(kinds: set<ParamType>, ts: seq<Token>, pieces: seq<string>): seq<string>
    requires |ts| == |pieces|
  {
    if ts == [] then []
    else (if ts[0].Param? && ts[0].kind in kinds then [pieces[0]] else []) + PiecesOf(kinds, ts[1..], pieces[1..])
  }

  function Captured(ts: seq<Token>, pieces: seq<string>): Params
    requires |ts| == |pieces|
  {
    Params(PiecesOf({INT}, ts, pieces), PiecesOf({UINT}, ts, pieces), PiecesOf({DOUBLE}, ts, pieces),
        PiecesOf({STRING, PATH}, ts, pieces))
  }

  /** The URL is a sequence of pieces that stand for the tokens, and these are the pieces of its parameters. */
  ghost predicate Captures(ts: seq<Token>, url: string, strto: NumberScan, ps: Params) {
    exists pieces :: SplitsFrom(ts, pieces, url, 0, strto) && ps == Captured(ts, pieces)
  }

  ghost predicate Matches(r: Route, url: string, strto: NumberScan) {
    exists ps :: Captures(r.0, url, strto, ps)
  }

  /** What a lookup has to return: the smallest index among the matching routes, and its captured parameters. */
  ghost predicate IsAnswer(rs: multiset<Route>, url: string, strto: NumberScan, f: Found) {
    && (f.rule == 0 ==> f == NOTHING && forall r :: r in rs && r.1 != 0 ==> !Matches(r, url, strto))
    && (f.rule != 0 ==>
          && (exists r :: r in rs && r.1 == f.rule && Captures(r.0, url, strto, f.params))
          && (forall r :: r in rs && r.1 != 0 && Matches(r, url, strto) ==> f.rule <= r.1))
  }

  function Plus(p: Params, q: Params): Params {
    Params(p.ints + q.ints, p.uints + q.uints, p.doubles + q.doubles, p.strings + q.strings)
  }

  lemma PushPlus(params: Params, kind: ParamType, text: string, ts: seq<Token>, pieces: seq<string>)
    requires |ts| == |pieces| && kind != MAX
    ensures Plus(Push(params, kind, text), Captured(ts, pieces))
         == Plus(params, Captured([Param(kind)] + ts, [text] + pieces))
  {
    var us, qs := [Param(kind)] + ts, [text] + pieces;
    assert us[1..] == ts && qs[1..] == pieces;
    forall kinds: set<ParamType>, p: seq<string>
      ensures (if kind in kinds then p + [text] else p) + PiecesOf(kinds, ts, pieces)
           == p + PiecesOf(kinds, us, qs)
    {
      assert PiecesOf(kinds, us, qs) == (if kind in kinds then [text] else []) + PiecesOf(kinds, ts, pieces);
    }
  }

  lemma LitPlus(c: char, text: string, ts: seq<Token>, pieces: seq<string>)
    requires |ts| == |pieces|
    ensures Captured([Lit(c)] + ts, [text] + pieces) == Captured(ts, pieces)
  {
    var us, qs := [Lit(c)] + ts, [text] + pieces;
    assert us[1..] == ts && qs[1..] == pieces;
    forall kinds: set<ParamType> ensures PiecesOf(kinds, us, qs) == PiecesOf(kinds, ts, pieces) {
      assert PiecesOf(kinds, us, qs) == [] + PiecesOf(kinds, ts, pieces);
    }
  }

  /** Where the later pieces begin. */
  lemma PieceBegins(pieces: seq<string>, i: nat)
    requires 0 < i <= |pieces|
    ensures |Concat(pieces[..i])| == |pieces[0]| + |Concat(pieces[1..][..i - 1])|
  {
    assert pieces[..i][1..] == pieces[1..][..i - 1];
  }

  /** The first piece, and the others behind it. */
  lemma SplitsFirst(ts: seq<Token>, pieces: seq<string>, url: string, pos: nat, strto: NumberScan)
    requires ts != [] && SplitsFrom(ts, pieces, url, pos, strto)
    ensures var next := pos + |pieces[0]|;
            && next <= |url| && url[pos..next] == pieces[0] && Fits(ts[0], pieces[0], url, pos, strto)
            && SplitsFrom(ts[1..], pieces[1..], url, next, strto)
  {
    hide Fits;
    var next := pos + |pieces[0]|;
    assert Concat(pieces) == pieces[0] + Concat(pieces[1..]) && Concat(pieces[..0]) == "";
    assert |url[pos..]| >= |pieces[0]|;
    assert url[pos..next] == url[pos..][..|pieces[0]|] == pieces[0];
    assert url[next..] == url[pos..][|pieces[0]|..] == Concat(pieces[1..]);
    assert Fits(ts[0], pieces[0], url, pos + |Concat(pieces[..0])|, strto);
    forall i | 0 <= i < |ts| - 1
      ensures Fits(ts[1..][i], pieces[1..][i], url, next + |Concat(pieces[1..][..i])|, strto)
    {
      PieceBegins(pieces, i + 1);
      assert Fits(ts[i + 1], pieces[i + 1], url, pos + |Concat(pieces[..i + 1])|, strto);
    }
  }

  lemma SplitsMore(ts: seq<Token>, pieces: seq<string>, url: string, pos: nat, strto: NumberScan, next: nat)
    requires ts != [] && |pieces| == |ts| && pos <= next <= |url|
    requires url[pos..next] == pieces[0] && Fits(ts[0], pieces[0], url, pos, strto)
    requires SplitsFrom(ts[1..], pieces[1..], url, next, strto)
    ensures SplitsFrom(ts, pieces, url, pos, strto)
  {
    hide Fits;
    assert url[pos..] == url[pos..next] + url[next..] == pieces[0] + Concat(pieces[1..]);
    assert Concat(pieces[..0]) == "";
    forall i | 0 <= i < |ts| ensures Fits(ts[i], pieces[i], url, pos + |Concat(pieces[..i])|, strto) {
      if i > 0 {
        PieceBegins(pieces, i);
        assert Fits(ts[1..][i - 1], pieces[1..][i - 1], url, next + |Concat(pieces[1..][..i - 1])|, strto);
      }
    }
  }

  /** Where a parameter ends is where a piece ends that stands for it. */
  lemma ParamFits(kind: ParamType, url: string, pos: nat, end: nat, strto: NumberScan)
    requires pos <= end <= |url|
    ensures Fits(Param(kind), url[pos..end], url, pos, strto) <==>
              pos < |url| && ParamEnd(kind, url, pos, strto) == Some(end)
  {
    var piece := url[pos..end];
    if pos < end {
      assert piece[0] == url[pos];
      if kind == STRING {
        var e := SegmentEnd(url, pos);
        if e < end {
          assert piece[e - pos] == '/';
        }
        if end < e {
          assert url[end] != '/';
        }
        assert end <= e ==> forall j :: 0 <= j < |piece| ==> piece[j] == url[pos + j] != '/';
      }
    }
  }

  /** The parameters behind one token. */
  function Taken(params: Params, t: Token, piece: string): Params {
    if t.Lit? then params else Push(params, t.kind, piece)
  }

  lemma TakenPlus(params: Params, ts: seq<Token>, pieces: seq<string>)
    requires ts != [] && |ts| == |pieces| && ts[0] != Param(MAX)
    ensures Plus(Taken(params, ts[0], pieces[0]), Captured(ts[1..], pieces[1..])) == Plus(params, Captured(ts, pieces))
  {
    hide Plus, Push, Captured;
    assert [ts[0]] + ts[1..] == ts && [pieces[0]] + pieces[1..] == pieces;
    if ts[0].Lit? {
      LitPlus(ts[0].c, pieces[0], ts[1..], pieces[1..]);
    } else {
      PushPlus(params, ts[0].kind, pieces[0], ts[1..], pieces[1..]);
    }
  }

  lemma NoTokens(params: Params)
    ensures Plus(params, Captured([], [])) == params
  {
  }

  lemma FirstFits(t: Token, url: string, pos: nat, end: nat, strto: NumberScan)
    requires pos <= end <= |url|
    ensures Fits(t, url[pos..end], url, pos, strto) <==>
              && pos < |url|
              && if t.Lit? then end == pos + 1 && url[pos] == t.c else ParamEnd(t.kind, url, pos, strto) == Some(end)
  {
    if t.Lit? {
      if end == pos + 1 {
        assert url[pos..end] == [url[pos]];
      }
    } else {
      ParamFits(t.kind, url, pos, end, strto);
    }
  }

  /** One token of a match, and the end of the piece that stands for it. */
  lemma MatchStep(ts: seq<Token>, url: string, pos: nat, params: Params, strto: NumberScan, next: nat)
    requires ts != [] && pos <= next <= |url| && Fits(ts[0], url[pos..next], url, pos, strto)
    ensures ts[0] != Param(MAX)
    ensures Match(ts, url, pos, params, strto)
         == Match(ts[1..], url, next, Taken(params, ts[0], url[pos..next]), strto)
  {
    FirstFits(ts[0], url, pos, next, strto);
    hide Fits, ParamEnd, Push;
  }

  lemma MatchGoesOn(ts: seq<Token>, url: string, pos: nat, params: Params, strto: NumberScan) returns (next: nat)
    requires ts != [] && pos <= |url| && Match(ts, url, pos, params, strto).Some?
    ensures pos <= next <= |url| && Fits(ts[0], url[pos..next], url, pos, strto)
  {
    hide Fits, ParamEnd, Push;
    next := if ts[0].Lit? then pos + 1 else ParamEnd(ts[0].kind, url, pos, strto).value;
    FirstFits(ts[0], url, pos, next, strto);
  }

  lemma NothingSplits(url: string, pos: nat, params: Params, strto: NumberScan)
    requires pos <= |url| && Match([], url, pos, params, strto).Some?
    ensures SplitsFrom([], [], url, pos, strto)
  {
  }

  /** The pieces of a match. */
  lemma {:induction false} MatchSplits(ts: seq<Token>, url: string, pos: nat, params: Params, strto: NumberScan)
      returns (pieces: seq<string>)
    requires pos <= |url| && Match(ts, url, pos, params, strto).Some?
    ensures SplitsFrom(ts, pieces, url, pos, strto)
  {
    hide SplitsFrom, Fits, Push, Match, Taken;
    if ts == [] {
      NothingSplits(url, pos, params, strto);
      pieces := [];
    } else {
      var next := MatchGoesOn(ts, url, pos, params, strto);
      MatchStep(ts, url, pos, params, strto, next);
      var rest := MatchSplits(ts[1..], url, next, Taken(params, ts[0], url[pos..next]), strto);
      pieces := [url[pos..next]] + rest;
      assert pieces[1..] == rest;
      SplitsLength(ts[1..], rest, url, next, strto);
      SplitsMore(ts, pieces, url, pos, strto, next);
    }
  }

  lemma MatchEnds(url: string, params: Params, strto: NumberScan)
    ensures Match([], url, |url|, params, strto) == Some(params)
  {
  }

  lemma SplitsLength(ts: seq<Token>, pieces: seq<string>, url: string, pos: nat, strto: NumberScan)
    requires SplitsFrom(ts, pieces, url, pos, strto)
    ensures |ts| == |pieces| && pos <= |url|
    ensures ts == [] ==> pos == |url|
  {
    assert ts == [] ==> url[pos..] == "";
  }

  /** Any pieces that stand for the tokens are those of the match. */
  lemma {:induction false} SplitsMatch(ts: seq<Token>, pieces: seq<string>, url: string, pos: nat, params: Params,
      strto: NumberScan)
    requires SplitsFrom(ts, pieces, url, pos, strto)
    ensures |ts| == |pieces| && pos <= |url|
    ensures Match(ts, url, pos, params, strto) == Some(Plus(params, Captured(ts, pieces)))
  {
    hide SplitsFrom, Fits, Push, Plus, Captured, Match, Taken;
    SplitsLength(ts, pieces, url, pos, strto);
    if ts == [] {
      MatchEnds(url, params, strto);
      NoTokens(params);
    } else {
      SplitsFirst(ts, pieces, url, pos, strto);
      var next := pos + |pieces[0]|;
      MatchStep(ts, url, pos, params, strto, next);
      SplitsMatch(ts[1..], pieces[1..], url, next, Taken(params, ts[0], pieces[0]), strto);
      TakenPlus(params, ts, pieces);
    }
  }

  /** A URL matches a pattern, with these parameters, exactly if it falls into pieces that stand for the tokens. */
  lemma MatchMeaning(ts: seq<Token>, url: string, strto: NumberScan, ps: Params)
    ensures Match(ts, url, 0, NO_PARAMS, strto) == Some(ps) <==> Captures(ts, url, strto, ps)
  {
    hide Match, Captured, Fits, Concat;
    if Match(ts, url, 0, NO_PARAMS, strto).Some? {
      var pieces := MatchSplits(ts, url, 0, NO_PARAMS, strto);
      SplitsMatch(ts, pieces, url, 0, NO_PARAMS, strto);
      NothingBefore(Captured(ts, pieces));
    }
    if Captures(ts, url, strto, ps) {
      var pieces :| SplitsFrom(ts, pieces, url, 0, strto) && ps == Captured(ts, pieces);
      SplitsMatch(ts, pieces, url, 0, NO_PARAMS, strto);
      NothingBefore(Captured(ts, pieces));
    }
  }

  lemma NothingBefore(p: Params)
    ensures Plus(NO_PARAMS, p) == p
  {
  }

  /** A URL falls into pieces for a pattern in one way, as far as the parameters go. */
  lemma MatchesIff(r: Route, url: string, strto: NumberScan)
    ensures Matches(r, url, strto) <==> Match(r.0, url, 0, NO_PARAMS, strto).Some?
  {
    hide Match, Captures;
    var m := Match(r.0, url, 0, NO_PARAMS, strto);
    if m.Some? {
      MatchMeaning(r.0, url, strto, m.value);
    }
    if Matches(r, url, strto) {
      var ps :| Captures(r.0, url, strto, ps);
      MatchMeaning(r.0, url, strto, ps);
    }
  }

  // ---------- the scan ----------

  lemma BetterAssociative(a: Found, b: Found, c: Found)
    ensures Better(Better(a, b), c) == Better(a, Better(b, c))
  {
  }

  lemma {:induction false} ScanSplits(a: seq<Route>, b: seq<Route>, url: string, pos: nat, params: Params,
      strto: NumberScan)
    requires pos <= |url|
    ensures Scan(a + b, url, pos, params, strto)
            == Better(Scan(a, url, pos, params, strto), Scan(b, url, pos, params, strto))
  {
    if a == [] {
      assert a + b == b;
    } else {
      ScanSplits(a[1..], b, url, pos, params, strto);
      assert (a + b)[1..] == a[1..] + b;
      BetterAssociative(Answer(a[0], url, pos, params, strto), Scan(a[1..], url, pos, params, strto),
          Scan(b, url, pos, params, strto));
    }
  }

  /** One more step of a scan from the left, whose result so far is `found`. */
  lemma ScanStep(found: Found, next: Found, here: seq<Route>, later: seq<Route>, url: string, pos: nat, params: Params,
      strto: NumberScan)
    requires pos <= |url| && found == Better(NOTHING, found)
    requires Better(NOTHING, next) == Scan(here, url, pos, params, strto)
    ensures Better(Better(found, next), Scan(later, url, pos, params, strto))
            == Better(found, Scan(here + later, url, pos, params, strto))
    ensures Better(found, next) == Better(NOTHING, Better(found, next))
  {
    ScanSplits(here, later, url, pos, params, strto);
    BetterAssociative(found, Scan(here, url, pos, params, strto), Scan(later, url, pos, params, strto));
  }

  /** At the end of the URL only an empty pattern matches. */
  lemma {:induction false} ScanAtEnd(rs: seq<Route>, url: string, params: Params, strto: NumberScan)
    requires forall i :: 0 <= i < |rs| ==> rs[i].0 != []
    ensures Scan(rs, url, |url|, params, strto) == NOTHING
  {
    if rs != [] {
      ScanAtEnd(rs[1..], url, params, strto);
    }
  }

  lemma {:induction false} MatchLiterals(s: string, ts: seq<Token>, url: string, pos: nat, params: Params,
      strto: NumberScan)
    requires pos <= |url|
    ensures Match(Literals(s) + ts, url, pos, params, strto)
         == if StartsAt(url, pos, s) then Match(ts, url, pos + |s|, params, strto) else None
  {
    if s == "" {
      assert Literals(s) + ts == ts;
    } else {
      assert (Literals(s) + ts)[1..] == Literals(s[1..]) + ts;
      if pos < |url| && url[pos] == s[0] {
        MatchLiterals(s[1..], ts, url, pos + 1, params, strto);
        if pos + |s| <= |url| {
          assert url[pos..pos + |s|] == [url[pos]] + url[pos + 1..pos + |s|];
          assert s == [s[0]] + s[1..];
        }
      }
    }
  }

  lemma {:induction false} ScanLiterals(s: string, rs: seq<Route>, url: string, pos: nat, params: Params,
      strto: NumberScan)
    requires pos <= |url|
    ensures Scan(Prefixed(Literals(s), rs), url, pos, params, strto)
         == if StartsAt(url, pos, s) then Scan(rs, url, pos + |s|, params, strto) else NOTHING
  {
    if rs != [] {
      ScanLiterals(s, rs[1..], url, pos, params, strto);
      assert Prefixed(Literals(s), rs)[1..] == Prefixed(Literals(s), rs[1..]);
      MatchLiterals(s, rs[0].0, url, pos, params, strto);
    }
  }

  lemma {:induction false} ScanParam(kind: ParamType, rs: seq<Route>, url: string, pos: nat, params: Params,
      strto: NumberScan)
    requires pos < |url|
    ensures Scan(Prefixed([Param(kind)], rs), url, pos, params, strto)
         == match ParamEnd(kind, url, pos, strto)
            case None => NOTHING
            case Some(e) => Scan(rs, url, e, Push(params, kind, url[pos..e]), strto)
  {
    if rs != [] {
      ScanParam(kind, rs[1..], url, pos, params, strto);
      assert Prefixed([Param(kind)], rs)[1..] == Prefixed([Param(kind)], rs[1..]);
      assert ([Param(kind)] + rs[0].0)[1..] == rs[0].0;
    }
  }

  /** The answer of the first route and the right answer for the others. */
  lemma AnswerStep(rs: seq<Route>, url: string, strto: NumberScan, rest: Found)
    requires rs != [] && IsAnswer(multiset(rs[1..]), url, strto, rest)
    ensures IsAnswer(multiset(rs), url, strto, Better(Answer(rs[0], url, 0, NO_PARAMS, strto), rest))
  {
    assert rs == [rs[0]] + rs[1..];
    var first := Answer(rs[0], url, 0, NO_PARAMS, strto);
    MatchesIff(rs[0], url, strto);
    if first.rule != 0 {
      MatchMeaning(rs[0].0, url, strto, first.params);
    }
    hide Match, Captures, Matches;
    var f := Better(first, rest);
    if f.rule != 0 {
      if f == rest {
        var r :| r in multiset(rs[1..]) && r.1 == rest.rule && Captures(r.0, url, strto, rest.params);
        assert r in multiset(rs);
      } else {
        assert rs[0] in multiset(rs) && Captures(rs[0].0, url, strto, f.params);
      }
    }
  }

  /** The scan gives the right answer for the routes it visits, in whatever order they stand. */
  lemma {:induction false} ScanIsAnswer(rs: seq<Route>, url: string, strto: NumberScan)
    ensures IsAnswer(multiset(rs), url, strto, Scan(rs, url, 0, NO_PARAMS, strto))
  {
    if rs != [] {
      ScanIsAnswer(rs[1..], url, strto);
      AnswerStep(rs, url, strto, Scan(rs[1..], url, 0, NO_PARAMS, strto));
      hide IsAnswer;
    }
  }

  /** There is one right rule index, and one right list of parameters unless two routes share that index. */
  lemma AnswerUnique(rs: multiset<Route>, url: string, strto: NumberScan, f: Found, g: Found)
    requires IsAnswer(rs, url, strto, f) && IsAnswer(rs, url, strto, g)
    ensures f.rule == g.rule
    ensures (forall r, q :: r in rs && q in rs && r.1 == q.1 == f.rule ==> r == q) ==> f == g
  {
    hide Captures;
    if f.rule != 0 {
      var r :| r in rs && r.1 == f.rule && Captures(r.0, url, strto, f.params);
      assert Matches(r, url, strto);
      assert g.rule != 0;
      var q :| q in rs && q.1 == g.rule && Captures(q.0, url, strto, g.params);
      assert Matches(q, url, strto);
      MatchMeaning(r.0, url, strto, f.params);
      MatchMeaning(q.0, url, strto, g.params);
    }
  }

  /** A label put in front of a concatenation, and two labels put in front of each other. */
  lemma PrefixedLaws(l: seq<Token>, m: seq<Token>, a: seq<Route>, b: seq<Route>)
    ensures Prefixed(l, a + b) == Prefixed(l, a) + Prefixed(l, b)
    ensures Prefixed(l, Prefixed(m, a)) == Prefixed(l + m, a)
  {
    forall i | 0 <= i < |a| ensures Prefixed(l, Prefixed(m, a))[i] == Prefixed(l + m, a)[i] {
      assert l + (m + a[i].0) == (l + m) + a[i].0;
    }
  }

  lemma LiteralsConcat(s: string, t: string)
    ensures Literals(s + t) == Literals(s) + Literals(t)
  {
  }
}
