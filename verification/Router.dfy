/** The rules of one HTTP method: the table of rules and the tree that finds an index into it. */
module Router {
  import opened RoutePattern
  import opened RouteTable
  import opened RouteIndex

  /** The index that stands for "redirect to the same URL with a slash". */
  const RULE_SPECIAL_REDIRECT_SLASH: RuleIndex := 1

  predicate HasTrailingSlash(rule: string) {
    |rule| > 1 && rule[|rule| - 1] == '/'
  }

  function WithoutTrailingSlash(rule: string): string
    requires rule != ""
  {
    rule[..|rule| - 1]
  }

  lemma ShorterPatternGood(rule: string)
    requires GoodPattern(rule) && HasTrailingSlash(rule)
    ensures GoodPattern(WithoutTrailingSlash(rule))
  {
    var short := WithoutTrailingSlash(rule);
    forall i | 0 <= i < |short| && short[i] == '<' ensures TagAt(short, i).1 > 0 {
      TagInShorter(rule, i);
    }
  }

  /** A tag does not end with a slash, so it is still there when a trailing slash is cut off. */
  lemma TagInShorter(rule: string, i: nat)
    requires HasTrailingSlash(rule) && i < |rule| - 1 && TagAt(rule, i).1 > 0
    ensures TagAt(WithoutTrailingSlash(rule), i) == TagAt(rule, i)
  {
    hide StartsAt;
    forall t | IsTag(t) ensures StartsAt(rule, i, t) <==> StartsAt(WithoutTrailingSlash(rule), i, t) {
      StartsInShorter(rule, i, t);
    }
  }

  lemma StartsInShorter(rule: string, i: nat, t: string)
    requires HasTrailingSlash(rule) && t != "" && t[|t| - 1] == '>'
    ensures StartsAt(rule, i, t) <==> StartsAt(WithoutTrailingSlash(rule), i, t)
  {
    var short := WithoutTrailingSlash(rule);
    if StartsAt(rule, i, t) {
      assert rule[i..i + |t|][|t| - 1] == '>';
      assert rule[i..i + |t|] == short[i..i + |t|];
    }
    if StartsAt(short, i, t) {
      assert rule[i..i + |t|] == short[i..i + |t|];
    }
  }

  /** The routes of the rule with index `k`: its pattern and, if that ends with a slash, the redirect. */
  ghost function RoutesOfRule(rule: string, k: RuleIndex): multiset<Route>
    requires GoodPattern(rule)
  {
    multiset{(Tokens(rule, 0), k)} + Redirect(rule)
  }

  ghost function Redirect(rule: string): multiset<Route>
    requires GoodPattern(rule)
  {
    if HasTrailingSlash(rule) then
      ShorterPatternGood(rule);
      multiset{(Tokens(WithoutTrailingSlash(rule), 0), RULE_SPECIAL_REDIRECT_SLASH)}
    else multiset{}
  }

  /** The table has its two reserved entries, and its indices fit 16 bits. */
  predicate GoodTable(rules: seq<string>) {
    2 <= |rules| < 0x1_0000 && forall k :: 2 <= k < |rules| ==> GoodPattern(rules[k])
  }

  /** The routes of a rule table. Indices 0 and 1 have a meaning of their own and hold no rule. */
  ghost function RoutesOfTable(rules: seq<string>): multiset<Route>
    requires GoodTable(rules)
  {
    if |rules| == 2 then multiset{}
    else RoutesOfTable(rules[..|rules| - 1]) + RoutesOfRule(rules[|rules| - 1], |rules| - 1)
  }

  lemma TableGrows(rules: seq<string>, rule: string)
    requires GoodTable(rules) && GoodPattern(rule) && |rules| < 0xFFFF
    ensures GoodTable(rules + [rule])
    ensures RoutesOfTable(rules + [rule]) == RoutesOfTable(rules) + RoutesOfRule(rule, |rules|)
  {
    assert (rules + [rule])[..|rules|] == rules;
  }

  /** No route has these tokens. */
  ghost predicate IsFree(routes: multiset<Route>, ts: seq<Token>) {
    forall r :: r in routes ==> r.0 != ts
  }

  /** A rule can be registered exactly if neither its pattern nor that of its redirect is taken. */
  ghost predicate CanAdd(routes: multiset<Route>, rule: string)
    requires GoodPattern(rule)
  {
    && IsFree(routes, Tokens(rule, 0))
    && CanRedirect(routes, rule)
  }

  ghost predicate CanRedirect(routes: multiset<Route>, rule: string)
    requires GoodPattern(rule)
  {
    if HasTrailingSlash(rule) then
      ShorterPatternGood(rule);
      IsFree(routes, Tokens(WithoutTrailingSlash(rule), 0))
    else true
  }

  /** The redirect of a rule has one token less. */
  lemma {:induction false} ShorterTokens(rule: string, i: nat)
    requires HasTrailingSlash(rule) && i < |rule| && TagsKnownFrom(rule, i)
             && TagsKnownFrom(WithoutTrailingSlash(rule), i)
    ensures Tokens(rule, i) == Tokens(WithoutTrailingSlash(rule), i) + [Lit('/')]
    decreases |rule| - i
  {
    var short := WithoutTrailingSlash(rule);
    if i == |short| {
      hide TagAt, TagsKnownFrom;
      assert Tokens(rule, i + 1) == [] && Tokens(short, i) == [];
    } else {
      SameToken(rule, i);
      hide TagAt, Tokens, TagsKnownFrom, NextAt;
      NextTokens(rule, i);
      NextTokens(short, i);
      ShorterTokens(rule, NextAt(rule, i));
      Appended(FirstToken(rule, i), Tokens(short, NextAt(rule, i)), [Lit('/')]);
    }
  }

  lemma Appended<T>(x: T, s: seq<T>, t: seq<T>)
    ensures [x] + (s + t) == ([x] + s) + t
  {
  }

  /** A token of a rule is the token of its redirect. */
  lemma SameToken(rule: string, i: nat)
    requires HasTrailingSlash(rule) && i < |rule| - 1 && TagsKnownFrom(rule, i)
    ensures var short := WithoutTrailingSlash(rule);
            NextAt(rule, i) == NextAt(short, i) < |rule| && FirstToken(rule, i) == FirstToken(short, i)
  {
    if rule[i] == '<' {
      TagInShorter(rule, i);
    }
    hide TagAt;
  }

  /** A rule does not take the pattern of its own redirect. */
  lemma RedirectStaysFree(routes: multiset<Route>, rule: string, k: RuleIndex)
    requires GoodPattern(rule)
    ensures CanRedirect(routes + multiset{(Tokens(rule, 0), k)}, rule) == CanRedirect(routes, rule)
  {
    if HasTrailingSlash(rule) {
      ShorterPatternGood(rule);
      ShorterTokens(rule, 0);
      hide Tokens, GoodPattern;
      var short := WithoutTrailingSlash(rule);
      assert |Tokens(rule, 0)| == |Tokens(short, 0)| + 1;
    }
  }

  /** The routes of a rule go in one after the other. */
  lemma BothRoutes(routes: multiset<Route>, rule: string, k: RuleIndex)
    requires GoodPattern(rule)
    ensures var more := routes + multiset{(Tokens(rule, 0), k)};
            && (CanAdd(routes, rule) <==> IsFree(routes, Tokens(rule, 0)) && CanRedirect(more, rule))
            && more + Redirect(rule) == routes + RoutesOfRule(rule, k)
  {
    hide Tokens, GoodPattern, Redirect, CanRedirect;
    RedirectStaysFree(routes, rule, k);
  }

  class PerMethod {
    var rules: seq<string>
    var trie: Trie

    ghost predicate Valid()
      reads this, trie, trie.nodes
    {
      && trie.Valid()
      && GoodTable(rules)
      && trie.added == RoutesOfTable(rules)
    }

    constructor ()
      ensures Valid() && trie.Growing() && |rules| == 2
      ensures fresh(trie) && fresh(trie.nodes)
    {
      rules := ["", ""];
      trie := new Trie();
    }

    /** Adds the redirect of a rule to the tree, if it has one. */
    method AddRedirect(rule: string) returns (ok: bool)
      requires trie.Growing() && GoodPattern(rule)
      modifies trie, trie.nodes
      ensures trie.Growing()
      ensures ok <==> CanRedirect(old(trie.added), rule)
      ensures ok ==> trie.added == old(trie.added) + Redirect(rule)
      ensures forall m :: m in trie.nodes ==> m in old(trie.nodes) || fresh(m)
    {
      if HasTrailingSlash(rule) {
        ShorterPatternGood(rule);
        ok := trie.Add(WithoutTrailingSlash(rule), RULE_SPECIAL_REDIRECT_SLASH);
      } else {
        ok := true;
      }
    }

    /** Adds the routes of a rule to the tree. */
    method AddRoutes(rule: string, k: RuleIndex) returns (ok: bool)
      requires trie.Growing() && GoodPattern(rule) && k != 0
      modifies trie, trie.nodes
      ensures trie.Growing()
      ensures ok <==> CanAdd(old(trie.added), rule)
      ensures ok ==> trie.added == old(trie.added) + RoutesOfRule(rule, k)
      ensures forall m :: m in trie.nodes ==> m in old(trie.nodes) || fresh(m)
    {
      hide Tokens, GoodPattern, Redirect, CanRedirect, CanAdd, RoutesOfRule;
      BothRoutes(trie.added, rule, k);
      ok := trie.Add(rule, k);
      if ok {
        ok := AddRedirect(rule);
      }
    }

    method Append(rule: string)
      requires trie.Growing()
      modifies this`rules
      ensures trie.Growing() && trie.nodes == old(trie.nodes) && trie.added == old(trie.added)
              && rules == old(rules) + [rule]
    {
      rules := rules + [rule];
    }

    /** Registers a rule; a pattern that ends with a slash also makes the pattern without it redirect. The result is
        false where registration throws, and the application does not start: exactly if one of the two is taken. */
    method AddRule(rule: string) returns (ok: bool)
      requires Valid() && trie.Growing() && GoodPattern(rule) && |rules| < 0xFFFF
      modifies this`rules, trie, trie.nodes
      ensures ok <==> CanAdd(RoutesOfTable(old(rules)), rule)
      ensures ok ==> Valid() && trie.Growing()
      ensures rules == old(rules) + [rule]
      ensures forall m :: m in trie.nodes ==> m in old(trie.nodes) || fresh(m)
    {
      TableGrows(rules, rule);
      ok := AddRoutes(rule, |rules|);
      Append(rule);
    }

    /** The start-up check, which never fails here, and the compression of the tree. */
    method Validate() returns (ok: bool)
      requires Valid() && trie.Growing()
      modifies trie, trie.nodes
      ensures ok && Valid() && trie == old(trie)
    {
      ok := trie.Validate();
    }

    method Find(url: string, strto: NumberScan) returns (f: Found)
      requires Valid()
      ensures IsAnswer(RoutesOfTable(rules), url, strto, f)
    {
      f := trie.Find(url, strto);
    }
  }

  /** The URL falls into pieces that stand for the tokens for which the pattern is written. */
  ghost predicate PatternCaptures(pattern: string, url: string, strto: NumberScan, ps: Params) {
    exists ts :: Written(pattern, ts) && Captures(ts, url, strto, ps)
  }

  /** The rule with index `k` matches the URL as it stands. */
  ghost predicate RuleMatches(rules: seq<string>, k: nat, url: string, strto: NumberScan)
    requires 2 <= k < |rules|
  {
    exists ps :: PatternCaptures(rules[k], url, strto, ps)
  }

  /** The rule with index `k` ends with a slash, and matches the URL but for that slash. */
  ghost predicate RuleRedirects(rules: seq<string>, k: nat, url: string, strto: NumberScan)
    requires 2 <= k < |rules|
  {
    exists shorter, ps :: rules[k] == shorter + "/" && shorter != "" && PatternCaptures(shorter, url, strto, ps)
  }

  lemma CapturesAsRead(pattern: string, url: string, strto: NumberScan, ps: Params)
    requires TagsKnown(pattern)
    ensures PatternCaptures(pattern, url, strto, ps) <==> Captures(Tokens(pattern, 0), url, strto, ps)
  {
    ReadAsWritten(pattern, Tokens(pattern, 0));
    hide Tokens, Captures, Written, TagsKnownFrom;
    if PatternCaptures(pattern, url, strto, ps) {
      var ts :| Written(pattern, ts) && Captures(ts, url, strto, ps);
      ReadAsWritten(pattern, ts);
    }
  }

  lemma {:induction false} InTable(rules: seq<string>, k: nat, r: Route)
    requires GoodTable(rules) && 2 <= k < |rules| && r in RoutesOfRule(rules[k], k)
    ensures r in RoutesOfTable(rules)
  {
    if k < |rules| - 1 {
      InTable(rules[..|rules| - 1], k, r);
    }
  }

  lemma {:induction false} FromTable(rules: seq<string>, r: Route) returns (k: nat)
    requires GoodTable(rules) && r in RoutesOfTable(rules)
    ensures 2 <= k < |rules| && r in RoutesOfRule(rules[k], k)
  {
    var last := |rules| - 1;
    var fewer := rules[..last];
    if r in RoutesOfRule(rules[last], last) {
      k := last;
    } else {
      assert r in RoutesOfTable(fewer);
      k := FromTable(fewer, r);
    }
  }

  /** What a lookup means to the application. A URL that misses only the final slash of some rule is redirected,
      even when other rules match it as it stands; otherwise the first registered rule that matches is taken,
      with its captured parameters; otherwise nothing is found. */
  lemma LookupMeaning(rules: seq<string>, url: string, strto: NumberScan, f: Found)
    requires GoodTable(rules)
    requires IsAnswer(RoutesOfTable(rules), url, strto, f)
    ensures f.rule == 1 <==> exists k :: 2 <= k < |rules| && RuleRedirects(rules, k, url, strto)
    ensures f.rule >= 2 ==>
              && f.rule < |rules|
              && PatternCaptures(rules[f.rule], url, strto, f.params)
              && forall k :: 2 <= k < f.rule ==> !RuleMatches(rules, k, url, strto)
    ensures f.rule == 0 ==> forall k :: 2 <= k < |rules| ==> !RuleMatches(rules, k, url, strto)
  {
    hide Tokens, Captures, PatternCaptures, TagsKnown;
    forall k | 2 <= k < |rules| && RuleMatches(rules, k, url, strto) ensures 0 < f.rule <= k {
      var ps :| PatternCaptures(rules[k], url, strto, ps);
      MatchingBounds(rules, k, url, strto, f, ps);
    }
    forall k | 2 <= k < |rules| && RuleRedirects(rules, k, url, strto) ensures f.rule == 1 {
      var shorter, ps :| rules[k] == shorter + "/" && shorter != "" && PatternCaptures(shorter, url, strto, ps);
      RedirectingWins(rules, k, url, strto, f, shorter, ps);
    }
    if f.rule != 0 {
      FoundCaptures(rules, url, strto, f);
    }
  }

  /** A matching rule bounds the index that is found. */
  lemma MatchingBounds(rules: seq<string>, k: nat, url: string, strto: NumberScan, f: Found, ps: Params)
    requires GoodTable(rules) && IsAnswer(RoutesOfTable(rules), url, strto, f)
    requires 2 <= k < |rules| && PatternCaptures(rules[k], url, strto, ps)
    ensures 0 < f.rule <= k
  {
    CapturesAsRead(rules[k], url, strto, ps);
    hide Tokens, Captures, PatternCaptures;
    var r: Route := (Tokens(rules[k], 0), k);
    assert r in RoutesOfRule(rules[k], k);
    InTable(rules, k, r);
    assert r in RoutesOfTable(rules) && Matches(r, url, strto);
  }

  /** A redirecting rule is found before all others. */
  lemma RedirectingWins(rules: seq<string>, k: nat, url: string, strto: NumberScan, f: Found, shorter: string,
      ps: Params)
    requires GoodTable(rules) && IsAnswer(RoutesOfTable(rules), url, strto, f)
    requires 2 <= k < |rules| && rules[k] == shorter + "/" && shorter != "" && PatternCaptures(shorter, url, strto, ps)
    ensures f.rule == 1
  {
    assert shorter == WithoutTrailingSlash(rules[k]);
    ShorterPatternGood(rules[k]);
    CapturesAsRead(shorter, url, strto, ps);
    hide Tokens, Captures, PatternCaptures;
    var r: Route := (Tokens(shorter, 0), 1);
    assert r in RoutesOfRule(rules[k], k);
    InTable(rules, k, r);
    assert r in RoutesOfTable(rules) && Matches(r, url, strto);
  }

  /** What is found is a rule or a redirect that matches. */
  lemma FoundCaptures(rules: seq<string>, url: string, strto: NumberScan, f: Found)
    requires GoodTable(rules) && IsAnswer(RoutesOfTable(rules), url, strto, f) && f.rule != 0
    ensures f.rule == 1 ==> exists k :: 2 <= k < |rules| && RuleRedirects(rules, k, url, strto)
    ensures f.rule >= 2 ==> f.rule < |rules| && PatternCaptures(rules[f.rule], url, strto, f.params)
  {
    hide Tokens, Captures, PatternCaptures, TagsKnown, RoutesOfTable, RoutesOfRule;
    var r :| r in RoutesOfTable(rules) && r.1 == f.rule && Captures(r.0, url, strto, f.params);
    var k := FromTable(rules, r);
    var shorter := RouteOfRule(rules[k], k, r);
    if r.1 == 1 {
      CapturesAsRead(shorter, url, strto, f.params);
      assert RuleRedirects(rules, k, url, strto);
    } else {
      CapturesAsRead(rules[k], url, strto, f.params);
    }
  }

  lemma RouteOfRule(rule: string, k: RuleIndex, r: Route) returns (shorter: string)
    requires GoodPattern(rule) && k > 1 && r in RoutesOfRule(rule, k)
    ensures r.1 == 1 ==> rule == shorter + "/" && shorter != "" && TagsKnown(shorter) && r.0 == Tokens(shorter, 0)
    ensures r.1 != 1 ==> r == (Tokens(rule, 0), k)
  {
    shorter := WithoutTrailingSlash(rule);
    if r.1 == 1 {
      ShorterPatternGood(rule);
      assert rule == shorter + "/";
    }
    hide Tokens;
  }
}
