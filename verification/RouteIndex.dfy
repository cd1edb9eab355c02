/** The router's search tree: patterns are added to it in place, it is then compressed in place, and a URL is
    looked up in it with backtracking. */
module RouteIndex {
  import opened Basics
  import opened RoutePattern
  import opened RouteTable

  /** The parameter vectors that a lookup shares between all its recursive calls. */
  class RoutingParams {
    var intParams: seq<string>
    var uintParams: seq<string>
    var doubleParams: seq<string>
    var stringParams: seq<string>

    constructor ()
      ensures Value() == NO_PARAMS
    {
      intParams, uintParams, doubleParams, stringParams := [], [], [], [];
    }

    function Value(): Params
      reads this
    {
      Params(intParams, uintParams, doubleParams, stringParams)
    }

    method PushBack(kind: ParamType, text: string)
      modifies this
      ensures Value() == Push(old(Value()), kind, text)
    {
      match kind
      case INT => intParams := intParams + [text];
      case UINT => uintParams := uintParams + [text];
      case DOUBLE => doubleParams := doubleParams + [text];
      case STRING | PATH => stringParams := stringParams + [text];
      case MAX =>
    }

    /** Undoes the PushBack of the same kind that came last. */
    method PopBack(kind: ParamType, ghost before: Params, ghost text: string)
      requires Value() == Push(before, kind, text)
      modifies this
      ensures Value() == before
    {
      match kind
      case INT => intParams := intParams[..|intParams| - 1];
      case UINT => uintParams := uintParams[..|uintParams| - 1];
      case DOUBLE => doubleParams := doubleParams[..|doubleParams| - 1];
      case STRING | PATH => stringParams := stringParams[..|stringParams| - 1];
      case MAX =>
    }
  }

  class Node {
    var ruleIndex: RuleIndex
    var key: string
    var param: ParamType
    var children: seq<Node>
    /** Every node ranks above its parent: the tree has no cycle. */
    ghost var rank: nat

    constructor (key: string, param: ParamType, ghost rank: nat)
      ensures ruleIndex == 0 && children == []
      ensures this.key == key && this.param == param && this.rank == rank
    {
      ruleIndex, children := 0, [];
      this.key, this.param, this.rank := key, param, rank;
    }

    function Own(): seq<Token>
      reads this`key, this`param
    {
      if param != MAX then [Param(param)] else Literals(key)
    }

    predicate IsSimpleNode()
      reads this, children
    {
      ruleIndex == 0 && |children| < 2 && param == MAX && forall c :: c in children ==> c.param == MAX
    }
  }

  class Trie {
    var head: Node
    ghost var nodes: set<Node>
    ghost var limit: nat
    /** Where a node stands: its parent, and its position there. */
    ghost var place: map<Node, (Node, nat)>
    /** The patterns added so far, with their rule indices. */
    ghost var added: multiset<Route>

    constructor ()
      ensures Growing()
      ensures added == multiset{}
      ensures fresh(this) && fresh(nodes)
    {
      var h := new Node("", MAX, 0);
      head, nodes, limit, place, added := h, {h}, 1, map[], multiset{};
      new;
      assert Below(head) == [];
    }

    /** Children are nodes of the tree and rank above their parent. */
    ghost predicate Wf()
      reads this`head, this`nodes, this`limit, nodes`children, nodes`key, nodes`param, nodes`rank
    {
      && head in nodes && head.param == MAX && head.key == ""
      && (forall n :: n in nodes ==> n.rank < limit)
      && (forall n, i :: n in nodes && 0 <= i < |n.children| ==> n.children[i] in nodes && n.rank < n.children[i].rank)
      && (forall n, i :: n in nodes && 0 <= i < |n.children| ==> n.children[i] != head)
      && (forall n :: n in nodes && n != head && n.param == MAX ==> n.key != "")
    }

    /** Every node stands at one place only among the children of the others. */
    ghost predicate Owned()
      reads this`nodes, this`place, nodes`children
    {
      forall n, i :: n in nodes && 0 <= i < |n.children| ==>
        n.children[i] in place && place[n.children[i]] == (n, i)
    }

    ghost predicate Valid()
      reads this`head, this`nodes, this`limit, this`place, this`added, nodes
    {
      && Wf() && Owned()
      && multiset(Below(head)) == added
      && forall r :: r in added ==> r.0 != [] && r.1 != 0
    }

    /** The shape that adding relies on: literal nodes hold one character, parameter nodes hold none, and
        no two children of a node carry the same token. */
    ghost predicate Unoptimized()
      reads this`head, this`nodes, this`limit, nodes`children, nodes`key, nodes`param, nodes`rank
      requires Wf()
    {
      && (forall n :: n in nodes && n != head && n.param == MAX ==> |n.key| == 1 && n.key[0] != NUL)
      && (forall n :: n in nodes && n.param != MAX ==> n.key == "")
      && (forall n, i, j :: n in nodes && 0 <= i < j < |n.children| ==> n.children[i].Own() != n.children[j].Own())
      && (forall n :: n in head.children ==> n.Own() == [Lit('/')])
    }

    /** The tree can still take patterns. */
    ghost predicate Growing()
      reads this`head, this`nodes, this`limit, this`place, this`added, nodes
    {
      Valid() && Unoptimized()
    }

    /** The routes at and below a node, in the order a search visits them. */
    ghost function Below(n: Node): seq<Route>
      requires Wf() && n in nodes
      reads this`head, this`nodes, this`limit, nodes
      decreases limit - n.rank, |n.children| + 1
    {
      (if n.ruleIndex != 0 then [([], n.ruleIndex)] else []) + KidRoutes(n, 0)
    }

    ghost function Routes(n: Node): seq<Route>
      requires Wf() && n in nodes
      reads this`head, this`nodes, this`limit, nodes
      decreases limit - n.rank, |n.children| + 2
    {
      Prefixed(n.Own(), Below(n))
    }

    ghost function KidRoutes(n: Node, k: nat): seq<Route>
      requires Wf() && n in nodes && k <= |n.children|
      reads this`head, this`nodes, this`limit, nodes
      decreases limit - n.rank, |n.children| - k
    {
      if k == |n.children| then [] else Routes(n.children[k]) + KidRoutes(n, k + 1)
    }

    // ---------- looking up ----------

    lemma KidRoutesNonempty(n: Node, k: nat)
      requires Wf() && n in nodes && k <= |n.children|
      ensures forall i :: 0 <= i < |KidRoutes(n, k)| ==> KidRoutes(n, k)[i].0 != []
      decreases |n.children| - k
    {
      if k < |n.children| {
        KidRoutesNonempty(n, k + 1);
      }
    }

    lemma ScanNodeAtEnd(n: Node, url: string, params: Params, strto: NumberScan)
      requires Wf() && n in nodes
      ensures Scan(Below(n), url, |url|, params, strto)
              == if n.ruleIndex == 0 then NOTHING else Found(n.ruleIndex, params)
    {
      KidRoutesNonempty(n, 0);
      ScanAtEnd(KidRoutes(n, 0), url, params, strto);
      if n.ruleIndex != 0 {
        ScanSplits([([], n.ruleIndex)], KidRoutes(n, 0), url, |url|, params, strto);
      } else {
        assert Below(n) == KidRoutes(n, 0);
      }
    }

    lemma ScanInner(n: Node, url: string, pos: nat, params: Params, strto: NumberScan)
      requires Wf() && n in nodes && pos < |url|
      ensures Scan(Below(n), url, pos, params, strto) == Scan(KidRoutes(n, 0), url, pos, params, strto)
    {
      if n.ruleIndex != 0 {
        ScanSplits([([], n.ruleIndex)], KidRoutes(n, 0), url, pos, params, strto);
        assert Scan([([], n.ruleIndex)], url, pos, params, strto) == NOTHING;
      } else {
        assert Below(n) == KidRoutes(n, 0);
      }
    }

    /** The part of the search that enters one child, if the URL goes on the way the child asks for. */
    method TryChild(url: string, child: Node, pos: nat, params: RoutingParams, strto: NumberScan) returns (f: Found)
      requires Wf() && child in nodes && pos < |url|
      modifies params
      ensures params.Value() == old(params.Value())
      ensures Better(NOTHING, f) == Scan(old(Routes(child)), url, pos, params.Value(), strto)
      decreases limit - child.rank, 2
    {
      ghost var ps := params.Value();
      f := NOTHING;
      if child.param != MAX {
        ScanParam(child.param, Below(child), url, pos, ps, strto);
        match ParamEnd(child.param, url, pos, strto)
        case None =>
        case Some(epos) =>
          params.PushBack(child.param, url[pos..epos]);
          f := FindFrom(url, child, epos, params, strto);
          params.PopBack(child.param, ps, url[pos..epos]);
      } else {
        ScanLiterals(child.key, Below(child), url, pos, ps, strto);
        if StartsAt(url, pos, child.key) {
          f := FindFrom(url, child, pos + |child.key|, params, strto);
        }
      }
    }

    /** The backtracking search below a node. It finds what a scan over the routes below the node finds, and
        leaves the shared parameter vectors as they were. */
    method FindFrom(url: string, node: Node, pos: nat, params: RoutingParams, strto: NumberScan) returns (f: Found)
      requires Wf() && node in nodes && pos <= |url|
      modifies params
      ensures params.Value() == old(params.Value())
      ensures pos < |url| ==> f == Better(NOTHING, f)
      ensures pos == |url| ==> f == Found(node.ruleIndex, params.Value())
      ensures Better(NOTHING, f) == Scan(old(Below(node)), url, pos, params.Value(), strto)
      decreases limit - node.rank, 1
    {
      if pos == |url| {
        ScanNodeAtEnd(node, url, params.Value(), strto);
        return Found(node.ruleIndex, params.Value());
      }
      ScanInner(node, url, pos, params.Value(), strto);
      f := FindBelow(url, node, pos, params, strto);
    }

    /** Searches the children of a node one after another. */
    method FindBelow(url: string, node: Node, pos: nat, params: RoutingParams, strto: NumberScan) returns (found: Found)
      requires Wf() && node in nodes && pos < |url|
      modifies params
      ensures params.Value() == old(params.Value()) && found == Better(NOTHING, found)
      ensures found == Scan(old(KidRoutes(node, 0)), url, pos, params.Value(), strto)
      decreases limit - node.rank, 0
    {
      ghost var ps := params.Value();
      ScanNothing(url, pos, ps, strto);
      hide Scan;
      found := NOTHING;
      for i := 0 to |node.children|
        invariant Wf() && params.Value() == ps
        invariant Better(found, Scan(old(KidRoutes(node, i)), url, pos, ps, strto))
                  == Scan(old(KidRoutes(node, 0)), url, pos, ps, strto)
        invariant found == Better(NOTHING, found)
      {
        ghost var here := old(Routes(node.children[i]));
        ghost var later := old(KidRoutes(node, i + 1));
        assert Routes(node.children[i]) == here;
        var ret := TryChild(url, node.children[i], pos, params, strto);
        ScanStep(found, ret, here, later, url, pos, ps, strto);
        found := Better(found, ret);
      }
    }

    /** Looking up a URL answers as if every added pattern had been tried: the smallest matching rule index,
        with that rule's captured parameters, and nothing when no pattern matches. */
    method Find(url: string, strto: NumberScan) returns (f: Found)
      requires Valid()
      ensures f == Scan(old(Below(head)), url, 0, NO_PARAMS, strto)
      ensures IsAnswer(added, url, strto, f)
    {
      hide Scan, IsAnswer, Joined, Prefixed;
      ghost var routes := Below(head);
      ScanNodeAtEnd(head, url, NO_PARAMS, strto);
      ScanIsAnswer(routes, url, strto);
      var empty := new RoutingParams();
      assert Below(head) == routes;
      f := FindFrom(url, head, 0, empty, strto);
    }

    // ---------- the routes of all nodes at once ----------

    /** The routes of a node, given those of its children. */
    ghost function Local(n: Node, routes: map<Node, seq<Route>>): seq<Route>
      requires forall c :: c in n.children ==> c in routes
      reads n
    {
      Prefixed(n.Own(), (if n.ruleIndex != 0 then [([], n.ruleIndex)] else []) + Joined(n.children, routes))
    }

    ghost predicate Consistent(routes: map<Node, seq<Route>>)
      requires Wf()
      reads this`head, this`nodes, this`limit, nodes
    {
      nodes <= routes.Keys && forall n {:trigger Local(n, routes)} :: n in nodes ==> routes[n] == Local(n, routes)
    }

    lemma KidRoutesJoined(n: Node, k: nat, routes: map<Node, seq<Route>>)
      requires Wf() && n in nodes && k <= |n.children| && nodes <= routes.Keys
      requires forall c :: c in n.children ==> routes[c] == Routes(c)
      ensures KidRoutes(n, k) == Joined(n.children[k..], routes)
      decreases |n.children| - k
    {
      if k < |n.children| {
        KidRoutesJoined(n, k + 1, routes);
        assert n.children[k..][1..] == n.children[k + 1..];
        assert n.children[k] in n.children;
      }
    }

    /** The routes of the nodes are a consistent assignment, and the only one. */
    lemma RoutesConsistent() returns (routes: map<Node, seq<Route>>)
      requires Wf()
      ensures Consistent(routes) && routes.Keys == nodes
      ensures forall n :: n in nodes ==> routes[n] == Routes(n)
    {
      routes := map n | n in nodes :: Routes(n);
      forall n | n in nodes ensures routes[n] == Local(n, routes) {
        KidRoutesJoined(n, 0, routes);
        assert n.children[0..] == n.children;
      }
    }

    lemma {:induction false} ConsistentUnique(n: Node, routes: map<Node, seq<Route>>)
      requires Wf() && Consistent(routes) && n in nodes
      ensures Routes(n) == routes[n]
      decreases limit - n.rank
    {
      forall c | c in n.children ensures routes[c] == Routes(c) {
        ConsistentUnique(c, routes);
      }
      KidRoutesJoined(n, 0, routes);
      assert n.children[0..] == n.children;
      assert routes[n] == Local(n, routes);
    }

    lemma AllRoutes(routes: map<Node, seq<Route>>)
      requires Wf() && Consistent(routes)
      ensures forall n :: n in nodes ==> Routes(n) == routes[n]
    {
      forall n | n in nodes ensures Routes(n) == routes[n] {
        ConsistentUnique(n, routes);
      }
    }

    lemma HeadRoutes()
      requires Wf()
      ensures Routes(head) == Below(head)
    {
      forall i | 0 <= i < |Below(head)| ensures Routes(head)[i] == Below(head)[i] {
        assert [] + Below(head)[i].0 == Below(head)[i].0;
      }
    }

    lemma HeadSettled(routes: map<Node, seq<Route>>)
      requires Wf() && Consistent(routes)
      ensures Below(head) == routes[head]
    {
      AllRoutes(routes);
      HeadRoutes();
    }

    // ---------- compressing ----------

    /** The routes of a simple node are those of its only child, behind the text of both. */
    lemma SimpleNodeRoutes(node: Node, routes: map<Node, seq<Route>>)
      requires Wf() && node in nodes && Consistent(routes)
      requires node.IsSimpleNode() && |node.children| == 1
      ensures var child := node.children[0];
              routes[node] == Prefixed(Literals(node.key + child.key),
                                       (if child.ruleIndex != 0 then [([], child.ruleIndex)] else [])
                                           + Joined(child.children, routes))
    {
      var child := node.children[0];
      var below := (if child.ruleIndex != 0 then [([], child.ruleIndex)] else []) + Joined(child.children, routes);
      assert child in node.children;
      assert routes[child] == Local(child, routes) == Prefixed(Literals(child.key), below);
      assert routes[node] == Local(node, routes);
      assert Joined(node.children, routes) == routes[child];
      LiteralsConcat(node.key, child.key);
      PrefixedLaws(Literals(node.key), Literals(child.key), below, []);
      assert [] + routes[child] == routes[child];
    }

    /** The node holds what its only child held, and the child is gone. */
    twostate predicate Spliced(node: Node)
      requires old(node.children) != []
      reads this`nodes, this`place, node
    {
      var child := old(node.children[0]);
      && nodes == old(nodes) - {child}
      && node.key == old(node.key + child.key) && node.param == old(node.param)
      && node.ruleIndex == old(child.ruleIndex) && node.children == old(child.children) && node.rank == old(child.rank)
      && place == map c | c in old(place) :: if old(place[c].0) == child then (node, old(place[c].1)) else old(place[c])
    }

    twostate lemma SplicedWf(node: Node)
      requires old(Wf()) && old(Owned()) && node in old(nodes) && node != head && head == old(head)
               && limit == old(limit)
      requires |old(node.children)| == 1 && Spliced(node)
      requires forall m :: m in nodes && m != node ==> unchanged(m)
      ensures Wf()
    {
      assert old(place[node.children[0]]) == (node, 0);
      assert node.param == MAX ==> |node.key| >= |old(node.key)| > 0;
      forall n, i | n in nodes && 0 <= i < |n.children|
        ensures n.children[i] in nodes && n.children[i] != head && n.rank < n.children[i].rank
      {
        var from := if n == node then old(node.children[0]) else n;
        assert old(place[from.children[i]]) == (from, i);
      }
    }

    twostate lemma SplicedOwned(node: Node)
      requires old(Wf()) && old(Owned()) && node in old(nodes)
      requires |old(node.children)| == 1 && Spliced(node)
      requires forall m :: m in nodes && m != node ==> unchanged(m)
      ensures Owned()
    {
      forall n, i | n in nodes && 0 <= i < |n.children|
        ensures n.children[i] in place && place[n.children[i]] == (n, i)
      {
        var from := if n == node then old(node.children[0]) else n;
        assert old(place[from.children[i]]) == (from, i);
      }
    }

    /** Takes the only child of a simple node out of the tree and puts its contents into the node. */
    method Splice(node: Node)
      requires Wf() && Owned() && node in nodes && node != head
      requires node.param == MAX && |node.children| == 1
      modifies this`nodes, this`place, node
      ensures Spliced(node)
      ensures Wf() && Owned()
    {
      var child := node.children[0];
      node.key, node.ruleIndex, node.children := node.key + child.key, child.ruleIndex, child.children;
      node.rank, nodes := child.rank, nodes - {child};
      place := map c | c in place :: if place[c].0 == child then (node, place[c].1) else place[c];
      SplicedWf(node);
      SplicedOwned(node);
    }

    /** Merges a simple node with its only child. */
    method Absorb(node: Node)
      requires Wf() && Owned() && node in nodes && node != head
      requires node.IsSimpleNode() && |node.children| == 1
      modifies this`nodes, this`place, node
      ensures Wf() && Owned() && node in nodes && nodes < old(nodes)
      ensures forall m :: m in nodes ==> Routes(m) == old(Routes(m))
      ensures node.rank > old(node.rank)
      ensures forall m :: m in old(nodes) && m.rank <= old(node.rank) ==> m in nodes
    {
      ghost var routes := RoutesConsistent();
      SimpleNodeRoutes(node, routes);
      Splice(node);
      AllRoutes(routes);
    }

    /** Compresses the subtree of a node. Every merge removes a node, so the recursion ends, and no node's
        routes, nor their order, change. */
    method OptimizeNode(node: Node)
      requires Wf() && Owned() && node in nodes && node != head
      modifies this`nodes, this`place, nodes
      ensures Wf() && Owned() && node in nodes && nodes <= old(nodes)
      ensures forall m :: m in nodes ==> Routes(m) == old(Routes(m))
      ensures forall m :: m in old(nodes) && old(m.rank) < old(node.rank) ==> m in nodes && unchanged(m)
      decreases limit - node.rank, 1
    {
      if |node.children| == 0 {
        return;
      }
      if node.IsSimpleNode() {
        Absorb(node);
        OptimizeNode(node);
      } else {
        OptimizeChildren(node);
      }
    }

    method OptimizeChildren(node: Node)
      requires Wf() && Owned() && node in nodes
      modifies this`nodes, this`place, nodes
      ensures Wf() && Owned() && node in nodes && nodes <= old(nodes)
      ensures forall m :: m in nodes ==> Routes(m) == old(Routes(m))
      ensures forall m :: m in old(nodes) && old(m.rank) <= old(node.rank) ==> m in nodes && unchanged(m)
      decreases limit - node.rank, 0
    {
      for i := 0 to |node.children|
        invariant Wf() && Owned() && node in nodes && nodes <= old(nodes)
        invariant forall m :: m in nodes ==> Routes(m) == old(Routes(m))
        invariant forall m :: m in old(nodes) && old(m.rank) <= old(node.rank) ==> m in nodes && unchanged(m)
      {
        OptimizeNode(node.children[i]);
      }
    }

    lemma FirstTwoDiffer(n: Node)
      requires Wf() && Unoptimized() && n in nodes
      ensures |n.children| >= 2 ==> n.children[0].Own() != n.children[1].Own()
    {
    }

    lemma HeadRule()
      requires Wf()
      ensures head.ruleIndex != 0 ==> ([], head.ruleIndex) in Below(head)
    {
    }

    /** The head passes the check when every pattern starts with a slash. */
    lemma SimpleHead()
      requires Valid() && Unoptimized()
      ensures head.IsSimpleNode()
    {
      HeadRule();
      assert forall r :: r in Below(head) ==> r in added;
      FirstTwoDiffer(head);
    }

    /** Compresses the whole tree; what a lookup finds stays the same, including the order of equals. */
    method Optimize()
      requires Valid()
      modifies this`nodes, this`place, nodes
      ensures Valid() && Below(head) == old(Below(head))
      ensures unchanged(head)
    {
      HeadRoutes();
      OptimizeChildren(head);
      HeadRoutes();
    }

    /** The check made once all routes are added; false where start-up throws. */
    method Validate() returns (ok: bool)
      requires Valid()
      modifies this`nodes, this`place, nodes
      ensures Valid() && Below(head) == old(Below(head))
      ensures old(Unoptimized()) ==> ok
    {
      if Unoptimized() {
        SimpleHead();
      }
      ok := head.IsSimpleNode();
      if ok {
        Optimize();
      }
    }

    // ---------- adding ----------

    /** The test by which adding recognises an existing child. The first character of an empty key reads as NUL. */
    predicate Carries(child: Node, tok: Token)
      reads child
    {
      match tok
      case Param(kind) => child.param == kind
      case Lit(c) => (if child.key == "" then NUL else child.key[0]) == c
    }

    lemma CarriesIffOwn(child: Node, tok: Token)
      requires Wf() && Unoptimized() && child in nodes && child != head
      requires tok != Lit(NUL) && tok != Param(MAX)
      ensures Carries(child, tok) <==> child.Own() == [tok]
    {
    }

    twostate lemma AppendedWf(idx: Node)
      requires old(Wf()) && idx in old(nodes) && head == old(head) && limit >= old(limit)
      requires |idx.children| == |old(idx.children)| + 1 && idx.children[..|old(idx.children)|] == old(idx.children)
      requires var leaf := idx.children[|old(idx.children)|];
               && nodes == old(nodes) + {leaf} && leaf !in old(nodes)
               && leaf.children == [] && idx.rank < leaf.rank < limit && (leaf.param == MAX ==> leaf.key != "")
      requires idx.rank == old(idx.rank) && idx.key == old(idx.key) && idx.param == old(idx.param)
      requires forall m :: m in old(nodes) && m != idx ==> unchanged(m)
      ensures Wf()
    {
      var last := |old(idx.children)|;
      forall n, i | n in nodes && 0 <= i < |n.children|
        ensures n.children[i] in nodes && n.children[i] != head && n.rank < n.children[i].rank
      {
        if n == idx && i < last {
          assert n.children[i] == idx.children[..last][i] == old(idx.children[i]);
        }
      }
    }

    twostate lemma AppendedOwned(idx: Node)
      requires old(Wf()) && old(Owned()) && idx in old(nodes)
      requires |idx.children| == |old(idx.children)| + 1 && idx.children[..|old(idx.children)|] == old(idx.children)
      requires var leaf := idx.children[|old(idx.children)|];
               && nodes == old(nodes) + {leaf} && leaf !in old(place) && leaf.children == []
               && place == old(place)[leaf := (idx, |old(idx.children)|)]
      requires forall m :: m in old(nodes) && m != idx ==> unchanged(m)
      ensures Owned()
    {
      var last := |old(idx.children)|;
      forall n, i | n in nodes && 0 <= i < |n.children|
        ensures n.children[i] in place && place[n.children[i]] == (n, i)
      {
        if n == idx && i < last {
          assert n.children[i] == idx.children[..last][i] == old(idx.children[i]);
        }
      }
    }

    twostate lemma AppendedDistinct(idx: Node)
      requires old(Wf()) && old(Unoptimized()) && Wf() && idx in old(nodes)
      requires |idx.children| == |old(idx.children)| + 1 && idx.children[..|old(idx.children)|] == old(idx.children)
      requires var leaf := idx.children[|old(idx.children)|];
               nodes == old(nodes) + {leaf} && leaf.children == []
                   && forall c :: c in old(idx.children) ==> c.Own() != leaf.Own()
      requires forall m :: m in old(nodes) && m != idx ==> m.children == old(m.children)
      requires forall m :: m in old(nodes) ==> m.Own() == old(m.Own())
      ensures forall n, i, j :: n in nodes && 0 <= i < j < |n.children| ==> n.children[i].Own() != n.children[j].Own()
    {
      var last := |old(idx.children)|;
      forall n, i, j | n in nodes && 0 <= i < j < |n.children|
        ensures n.children[i].Own() != n.children[j].Own()
      {
        if n == idx {
          assert n.children[i] == idx.children[..last][i] == old(idx.children[i]);
          if j < last {
            assert n.children[j] == idx.children[..last][j] == old(idx.children[j]);
          }
        }
      }
    }

    twostate lemma AppendedHead(idx: Node)
      requires old(Wf()) && old(Unoptimized()) && Wf() && idx in old(nodes) && head == old(head)
      requires |idx.children| == |old(idx.children)| + 1 && idx.children[..|old(idx.children)|] == old(idx.children)
      requires idx == head ==> idx.children[|old(idx.children)|].Own() == [Lit('/')]
      requires forall m :: m in old(nodes) && m != idx ==> m.children == old(m.children)
      requires forall m :: m in old(nodes) ==> m.Own() == old(m.Own())
      ensures forall n :: n in head.children ==> n.Own() == [Lit('/')]
    {
      assert forall n :: n in head.children ==> n in old(head.children) || n == idx.children[|old(idx.children)|];
    }

    twostate lemma AppendedShape(idx: Node)
      requires old(Wf()) && old(Unoptimized()) && Wf() && idx in old(nodes)
      requires |idx.children| == |old(idx.children)| + 1 && idx.children[..|old(idx.children)|] == old(idx.children)
      requires var leaf := idx.children[|old(idx.children)|];
               && nodes == old(nodes) + {leaf} && leaf.children == []
               && (leaf.param == MAX ==> |leaf.key| == 1 && leaf.key[0] != NUL)
               && (leaf.param != MAX ==> leaf.key == "")
               && (forall c :: c in old(idx.children) ==> c.Own() != leaf.Own())
               && (idx == head ==> leaf.Own() == [Lit('/')])
      requires idx.key == old(idx.key) && idx.param == old(idx.param) && head == old(head)
      requires forall m :: m in old(nodes) && m != idx ==> unchanged(m)
      ensures Unoptimized()
    {
      forall m | m in old(nodes) ensures m.Own() == old(m.Own()) {
        KeptOwn(m);
      }
      AppendedDistinct(idx);
      AppendedHead(idx);
    }

    twostate lemma KeptOwn(new n: Node)
      ensures n in old(nodes) && n.key == old(n.key) && n.param == old(n.param) ==> n.Own() == old(n.Own())
    {
    }

    /** Hangs a new leaf below a node. */
    method AddChild(idx: Node, leaf: Node)
      requires Wf() && Owned() && Unoptimized() && idx in nodes
      requires leaf !in nodes && leaf !in place && leaf.children == [] && leaf.ruleIndex == 0
               && leaf.rank == idx.rank + 1
      requires leaf.param == MAX ==> |leaf.key| == 1 && leaf.key[0] != NUL
      requires leaf.param != MAX ==> leaf.key == ""
      requires forall c :: c in idx.children ==> c.Own() != leaf.Own()
      requires idx == head ==> leaf.Own() == [Lit('/')]
      modifies this`nodes, this`limit, this`place, idx`children
      ensures Wf() && Owned() && Unoptimized()
      ensures nodes == old(nodes) + {leaf}
      ensures idx.children == old(idx.children) + [leaf]
    {
      place := place[leaf := (idx, |idx.children|)];
      nodes, limit := nodes + {leaf}, limit + leaf.rank + 1;
      idx.children := idx.children + [leaf];
      AppendedWf(idx);
      AppendedOwned(idx);
      AppendedShape(idx);
    }

    /** A leaf without a rule has no routes, and those of its parent stay as they were. */
    lemma LeafRoutes(idx: Node, leaf: Node, before: seq<Node>, routes: map<Node, seq<Route>>)
      requires Wf() && idx in nodes && leaf in nodes && idx != leaf
      requires nodes == routes.Keys + {leaf} && leaf !in routes
      requires leaf.children == [] && leaf.ruleIndex == 0 && idx.children == before + [leaf]
      requires forall c :: c in before ==> c in routes
      requires forall n :: n in routes && n != idx ==> leaf !in n.children
      requires forall n {:trigger Local(n, routes)} :: n in routes && n != idx ==> routes[n] == Local(n, routes)
      requires routes[idx] == Prefixed(idx.Own(),
               (if idx.ruleIndex != 0 then [([], idx.ruleIndex)] else []) + Joined(before, routes))
      ensures Consistent(routes[leaf := []])
    {
      var more := routes[leaf := []];
      forall n | n in nodes ensures more[n] == Local(n, more) {
        if n == idx {
          JoinedSame(before, routes, more);
          JoinedSplits(before, [leaf], more);
          assert Joined([leaf], more) == [];
        } else if n != leaf {
          JoinedSame(n.children, routes, more);
          assert routes[n] == Local(n, routes);
        }
      }
    }

    /** The position of the child for a token, or the number of children if there is none. */
    method FindChild(idx: Node, tok: Token) returns (k: nat)
      requires Wf() && Unoptimized() && idx in nodes
      requires tok != Lit(NUL) && tok != Param(MAX)
      ensures k < |idx.children| ==> idx.children[k].Own() == [tok]
      ensures k >= |idx.children| ==> forall c :: c in idx.children ==> c.Own() != [tok]
    {
      for i := 0 to |idx.children|
        invariant forall j :: 0 <= j < i ==> idx.children[j].Own() != [tok]
      {
        CarriesIffOwn(idx.children[i], tok);
        if Carries(idx.children[i], tok) {
          return i;
        }
      }
      return |idx.children|;
    }

    static method NewLeaf(tok: Token, ghost rank: nat) returns (leaf: Node)
      requires tok != Param(MAX)
      ensures fresh(leaf) && leaf.Own() == [tok]
      ensures leaf.param == MAX ==> tok.Lit? && leaf.key == [tok.c]
      ensures leaf.param != MAX ==> leaf.key == ""
      ensures leaf.ruleIndex == 0 && leaf.children == [] && leaf.rank == rank
    {
      leaf := new Node(if tok.Lit? then [tok.c] else "", if tok.Param? then tok.kind else MAX, rank);
    }

    /** Makes a new child for a token. */
    method AddLeaf(idx: Node, tok: Token) returns (next: Node)
      requires Wf() && Owned() && Unoptimized() && idx in nodes
      requires tok != Lit(NUL) && tok != Param(MAX) && (idx == head ==> tok == Lit('/'))
      requires forall c :: c in idx.children ==> c.Own() != [tok]
      modifies this`nodes, this`limit, this`place, idx`children
      ensures Wf() && Owned() && Unoptimized()
      ensures fresh(next) && nodes == old(nodes) + {next} && next.Own() == [tok]
      ensures idx.children == old(idx.children) + [next] && next.children == [] && next.ruleIndex == 0
    {
      next := NewLeaf(tok, idx.rank + 1);
      AddChild(idx, next);
    }

    /** Goes from a node to its child for a token, which is made if it is missing. No node's routes change. */
    method Descend(idx: Node, tok: Token, ghost routes: map<Node, seq<Route>>)
      returns (next: Node, ghost more: map<Node, seq<Route>>)
      requires Wf() && Owned() && Unoptimized() && idx in nodes && Consistent(routes) && routes.Keys == nodes
      requires tok != Lit(NUL) && tok != Param(MAX) && (idx == head ==> tok == Lit('/'))
      modifies this`nodes, this`limit, this`place, idx`children
      ensures Wf() && Owned() && Unoptimized() && Consistent(more)
      ensures next in idx.children && next.Own() == [tok]
      ensures
        || (nodes == old(nodes) && idx.children == old(idx.children) && more == routes)
        || (fresh(next) && nodes == old(nodes) + {next} && idx.children == old(idx.children) + [next]
            && more == routes[next := []])
    {
      hide Prefixed, Joined;
      var k := FindChild(idx, tok);
      if k < |idx.children| {
        next, more := idx.children[k], routes;
      } else {
        next := AddLeaf(idx, tok);
        forall n | n in routes && n != idx ensures routes[n] == Local(n, routes) && next !in n.children {
          assert routes[n] == old(Local(n, routes));
        }
        assert routes[idx] == old(Local(idx, routes));
        LeafRoutes(idx, next, old(idx.children), routes);
        more := routes[next := []];
        assert idx.children[|idx.children| - 1] == next;
      }
    }

    /** The nodes met on the way from the head along some tokens. */
    ghost predicate IsPath(path: seq<Node>, done: seq<Token>)
      reads this`head, this`nodes, nodes`children, nodes`key, nodes`param
    {
      && |path| == |done| + 1 && path[0] == head
      && (forall j :: 0 <= j < |path| ==> path[j] in nodes)
      && (forall j :: 0 < j < |path| ==> Linked(path, done, j))
    }

    /** Path node `j` is the child for token `j - 1` of the path node before it. */
    ghost predicate Linked(path: seq<Node>, done: seq<Token>, j: int)
      requires 0 < j < |path| == |done| + 1 && forall k :: 0 <= k < |path| ==> path[k] in nodes
      reads this`nodes, nodes`children, nodes`key, nodes`param
    {
      path[j] in path[j - 1].children && path[j].Own() == [done[j - 1]]
    }

    lemma PathRanks(path: seq<Node>, done: seq<Token>, i: nat, j: nat)
      requires Wf() && IsPath(path, done) && i < j < |path|
      ensures path[i].rank < path[j].rank
      decreases j
    {
      assert Linked(path, done, j);
      if i < j - 1 {
        PathRanks(path, done, i, j - 1);
      }
    }

    /** A path node's only parent is the path node before it. */
    lemma PathParent(path: seq<Node>, done: seq<Token>, n: Node, q: nat, j: nat)
      requires Wf() && Owned() && IsPath(path, done) && n in nodes && q < |n.children| && j < |path|
      requires n.children[q] == path[j]
      ensures j > 0 && n == path[j - 1] && place[path[j]] == (n, q)
    {
      if j > 0 {
        assert Linked(path, done, j);
        var k :| 0 <= k < |path[j - 1].children| && path[j - 1].children[k] == path[j];
        assert place[path[j - 1].children[k]] == (path[j - 1], k);
        assert place[n.children[q]] == (n, q);
      }
    }

    lemma SiblingsDiffer(n: Node, i: nat, j: nat)
      requires Wf() && Unoptimized() && n in nodes && i < |n.children| && j < |n.children|
      requires n.children[i].Own() == n.children[j].Own()
      ensures i == j
    {
    }

    /** A route that starts with a token comes from the one child that carries the token. */
    lemma OnlyKid(n: Node, next: Node, routes: map<Node, seq<Route>>, e: Route)
      requires Wf() && Unoptimized() && Consistent(routes) && n in nodes && next in n.children
      requires e.0 != [] && next.Own() == [e.0[0]]
      ensures e in Joined(n.children, routes) <==> e in routes[next]
    {
      InJoined(n.children, routes, e);
      forall c | c in n.children && e in routes[c] ensures c == next {
        HeadToken(c, routes, e);
        var i :| 0 <= i < |n.children| && n.children[i] == c;
        var k :| 0 <= k < |n.children| && n.children[k] == next;
        SiblingsDiffer(n, i, k);
      }
    }

    /** Along a path whose tokens are `done`, the only route that may spell exactly these tokens is the rule of
        the node at its end. */
    lemma {:induction false} PatternTaken(path: seq<Node>, done: seq<Token>, routes: map<Node, seq<Route>>, j: nat,
        r: RuleIndex)
      requires Wf() && Unoptimized() && Consistent(routes) && IsPath(path, done) && j < |path|
      ensures (path[j].Own() + done[j..], r) in routes[path[j]] <==> r != 0 && path[|done|].ruleIndex == r
      decreases |path| - j
    {
      var n := path[j];
      var e := (done[j..], r);
      var own: seq<Route> := if n.ruleIndex != 0 then [([], n.ruleIndex)] else [];
      assert routes[n] == Local(n, routes);
      InPrefixed(n.Own(), own + Joined(n.children, routes), e);
      assert (n.Own() + done[j..], r) in routes[n] <==> e in own || e in Joined(n.children, routes);
      if j == |done| {
        NoEmptyKid(n, routes, r);
        assert e == ([], r);
      } else {
        PatternTaken(path, done, routes, j + 1, r);
        assert Linked(path, done, j + 1);
        assert path[j + 1].Own() + done[j + 1..] == done[j..];
        OnlyKid(n, path[j + 1], routes, e);
        assert e !in own;
      }
    }

    /** In the shape that adding relies on, a node's routes start with the node's only token. */
    lemma HeadToken(c: Node, routes: map<Node, seq<Route>>, e: Route)
      requires Wf() && Unoptimized() && Consistent(routes) && c in nodes && c != head && e in routes[c]
      ensures e.0 != [] && c.Own() == [e.0[0]]
    {
      var k :| 0 <= k < |routes[c]| && routes[c][k] == e;
      assert routes[c] == Local(c, routes);
      assert |c.Own()| == 1;
    }

    lemma NoEmptyKid(n: Node, routes: map<Node, seq<Route>>, r: RuleIndex)
      requires Wf() && Unoptimized() && Consistent(routes) && n in nodes
      ensures ([], r) !in Joined(n.children, routes)
    {
      InJoined(n.children, routes, ([], r));
      forall c | c in n.children ensures ([], r) !in routes[c] {
        if ([], r) in routes[c] {
          HeadToken(c, routes, ([], r));
        }
      }
    }

    lemma OffPath(path: seq<Node>, done: seq<Token>, q: nat, k: nat, j: nat)
      requires Wf() && Owned() && IsPath(path, done) && j + 1 < |path|
      requires q < |path[j].children| && path[j].children[q] == path[j + 1]
      requires k < |path[j].children| && k != q
      ensures path[j].children[k] !in path[j + 1..]
    {
      if path[j].children[k] in path[j + 1..] {
        var m :| j + 1 <= m < |path| && path[m] == path[j].children[k];
        PathParent(path, done, path[j], k, m);
        PathParent(path, done, path[j], q, j + 1);
        if j + 1 < m {
          PathRanks(path, done, j, m - 1);
        }
        assert false;
      }
    }

    /** The new routes of a path node, given that those of the next path node got one more. */
    lemma StepUp(path: seq<Node>, done: seq<Token>, j: nat, routes: map<Node, seq<Route>>, up: map<Node, seq<Route>>,
        r: RuleIndex)
      requires Wf() && Owned() && IsPath(path, done) && nodes <= routes.Keys == up.Keys && j + 1 < |path|
      requires forall n :: n in nodes && n !in path[j + 1..] ==> up[n] == routes[n]
      requires Inserted(routes[path[j + 1]], up[path[j + 1]], (path[j + 1].Own() + done[j + 1..], r))
      ensures Inserted(Local(path[j], routes), Local(path[j], up), (path[j].Own() + done[j..], r))
    {
      var n := path[j];
      var own := if n.ruleIndex != 0 then [([], n.ruleIndex)] else [];
      assert Linked(path, done, j + 1);
      var q :| 0 <= q < |n.children| && n.children[q] == path[j + 1];
      forall k | 0 <= k < |n.children| && k != q ensures n.children[k] !in path[j + 1..] {
        OffPath(path, done, q, k, j);
      }
      assert path[j + 1].Own() + done[j + 1..] == done[j..];
      JoinedInserted(n.children, q, routes, up, (done[j..], r));
      InsertedBehind(own, Joined(n.children, routes), Joined(n.children, up), (done[j..], r));
      PrefixedInserted(n.Own(), own + Joined(n.children, routes), own + Joined(n.children, up), (done[j..], r));
    }

    /** Settling the routes of one path node leaves at most the path node before it unsettled. */
    lemma Settle(path: seq<Node>, done: seq<Token>, j: nat, base: map<Node, seq<Route>>)
      requires Wf() && Owned() && IsPath(path, done) && nodes <= base.Keys && j < |path|
      requires forall n {:trigger Local(n, base)} :: n in nodes && n != path[j] ==> base[n] == Local(n, base)
      ensures var more := base[path[j] := Local(path[j], base)];
              forall n {:trigger Local(n, more)} :: n in nodes && (j == 0 || n != path[j - 1]) ==>
                  more[n] == Local(n, more)
    {
      var more := base[path[j] := Local(path[j], base)];
      forall m | m in nodes && (j == 0 || m != path[j - 1]) ensures more[m] == Local(m, more) {
        forall i: nat | i < |m.children| && m.children[i] == path[j] ensures false {
          PathParent(path, done, m, i, j);
        }
        JoinedSame(m.children, base, more);
        assert m != path[j] ==> base[m] == Local(m, base);
      }
    }

    lemma NewRule(n: Node, routes: map<Node, seq<Route>>, r: RuleIndex)
      requires (forall c :: c in n.children ==> c in routes) && n.ruleIndex == r != 0
      ensures Inserted(Prefixed(n.Own(), Joined(n.children, routes)), Local(n, routes), (n.Own() + [], r))
    {
      var rest := Joined(n.children, routes);
      assert [([], r)] + rest == rest[..0] + [([], r)] + rest[0..];
      PrefixedInserted(n.Own(), rest, [([], r)] + rest, ([], r));
    }

    /** What Bubble has reached when it has come up to path node `j`. */
    ghost predicate BubbledTo(path: seq<Node>, done: seq<Token>, routes: map<Node, seq<Route>>,
        more: map<Node, seq<Route>>, r: RuleIndex, j: nat)
      requires Wf() && IsPath(path, done) && j < |path| && nodes <= routes.Keys
      reads this`head, this`nodes, this`limit, nodes
    {
      && more.Keys == routes.Keys
      && (forall n :: n in nodes && n !in path[j..] ==> more[n] == routes[n])
      && (forall n {:trigger Local(n, more)} :: n in nodes && (j == 0 || n != path[j - 1]) ==>
          more[n] == Local(n, more))
      && Inserted(routes[path[j]], more[path[j]], (path[j].Own() + done[j..], r))
    }

    lemma BubbleStart(path: seq<Node>, done: seq<Token>, routes: map<Node, seq<Route>>, r: RuleIndex)
      returns (more: map<Node, seq<Route>>)
      requires Wf() && Owned() && IsPath(path, done) && nodes <= routes.Keys
      requires path[|done|].ruleIndex == r != 0
      requires forall n {:trigger Local(n, routes)} :: n in nodes && n != path[|done|] ==> routes[n] == Local(n, routes)
      requires routes[path[|done|]] == Prefixed(path[|done|].Own(), Joined(path[|done|].children, routes))
      ensures BubbledTo(path, done, routes, more, r, |done|)
    {
      var n := path[|done|];
      more := routes[n := Local(n, routes)];
      Settle(path, done, |done|, routes);
      NewRule(n, routes, r);
      assert done[|done|..] == [];
      assert path[|done|..] == [n];
    }

    lemma BubbleStep(path: seq<Node>, done: seq<Token>, routes: map<Node, seq<Route>>, up: map<Node, seq<Route>>,
        r: RuleIndex, j: nat)
      returns (more: map<Node, seq<Route>>)
      requires Wf() && Owned() && IsPath(path, done) && nodes <= routes.Keys && j + 1 < |path|
      requires forall n {:trigger Local(n, routes)} :: n in nodes && n != path[|done|] ==> routes[n] == Local(n, routes)
      requires BubbledTo(path, done, routes, up, r, j + 1)
      ensures BubbledTo(path, done, routes, more, r, j)
    {
      var n := path[j];
      more := up[n := Local(n, up)];
      Settle(path, done, j, up);
      StepUp(path, done, j, routes, up, r);
      PathRanks(path, done, j, |done|);
      InTail(path, j);
    }

    /** Giving the node at the end of a path a rule puts one route into the routes of every node on the path. */
    lemma {:induction false} Bubble(path: seq<Node>, done: seq<Token>, routes: map<Node, seq<Route>>, r: RuleIndex,
        j: nat)
      returns (more: map<Node, seq<Route>>)
      requires Wf() && Owned() && IsPath(path, done) && nodes <= routes.Keys && j < |path|
      requires path[|done|].ruleIndex == r != 0
      requires forall n {:trigger Local(n, routes)} :: n in nodes && n != path[|done|] ==> routes[n] == Local(n, routes)
      requires routes[path[|done|]] == Prefixed(path[|done|].Own(), Joined(path[|done|].children, routes))
      ensures BubbledTo(path, done, routes, more, r, j)
      decreases |path| - j
    {
      if j == |done| {
        more := BubbleStart(path, done, routes, r);
      } else {
        var up := Bubble(path, done, routes, r, j + 1);
        more := BubbleStep(path, done, routes, up, r, j);
      }
    }

    /** The node at the end of a path has a rule exactly if the path's tokens are already a route. */
    lemma PatternFree(path: seq<Node>, done: seq<Token>, routes: map<Node, seq<Route>>)
      requires Wf() && Unoptimized() && Consistent(routes) && IsPath(path, done)
      ensures path[|done|].ruleIndex != 0 ==> (done, path[|done|].ruleIndex) in multiset(routes[head])
      ensures path[|done|].ruleIndex == 0 ==> forall e :: e in multiset(routes[head]) ==> e.0 != done
    {
      assert forall e :: e in routes[head] <==> e in multiset(routes[head]);
      var r := path[|done|].ruleIndex;
      assert head.Own() + done[0..] == done;
      PatternTaken(path, done, routes, 0, r);
      forall e | e in routes[head] && e.0 == done ensures r != 0 {
        PatternTaken(path, done, routes, 0, e.1);
      }
    }

    /** The effect of giving the node at the end of a path its rule, on the routes of the whole tree. */
    lemma RuleSet(path: seq<Node>, done: seq<Token>, routes: map<Node, seq<Route>>, r: RuleIndex)
      requires Wf() && Owned() && IsPath(path, done) && nodes <= routes.Keys
      requires path[|done|].ruleIndex == r != 0
      requires forall n {:trigger Local(n, routes)} :: n in nodes && n != path[|done|] ==> routes[n] == Local(n, routes)
      requires routes[path[|done|]] == Prefixed(path[|done|].Own(), Joined(path[|done|].children, routes))
      ensures multiset(Below(head)) == multiset(routes[head]) + multiset{(done, r)}
    {
      var more := Bubble(path, done, routes, r, 0);
      AllRoutes(more);
      HeadRoutes();
      assert head.Own() + done[0..] == done;
      InsertedMultiset(routes[head], more[head], (done, r));
    }

    twostate lemma PathGrows(path: seq<Node>, new done: seq<Token>, new next: Node, new tok: Token)
      requires old(Wf()) && old(IsPath(path, done)) && head == old(head) && old(nodes) <= nodes && next in nodes
      requires forall m :: m in old(nodes) ==> m.key == old(m.key) && m.param == old(m.param)
      requires forall m :: m in old(nodes) && m != path[|done|] ==> m.children == old(m.children)
      requires path[|done|].children == old(path[|done|].children)
               || path[|done|].children == old(path[|done|].children) + [next]
      requires next in path[|done|].children && next.Own() == [tok]
      ensures IsPath(path + [next], done + [tok])
    {
      var longer := path + [next];
      forall j | 0 < j < |longer| ensures Linked(longer, done + [tok], j) {
        if j < |path| {
          assert old(Linked(path, done, j));
          assert path[j] in old(path[j - 1].children) && old(path[j].Own()) == [done[j - 1]];
          var k :| 0 <= k < |old(path[j - 1].children)| && old(path[j - 1].children[k]) == path[j];
          assert path[j - 1].children[k] == path[j];
        }
      }
    }

    /** The tree in the shape that adding relies on, the routes of all its nodes, and a path in it. */
    ghost predicate Walking(routes: map<Node, seq<Route>>, path: seq<Node>, done: seq<Token>)
      reads this`head, this`nodes, this`limit, this`place, nodes
    {
      Wf() && Owned() && Unoptimized() && Consistent(routes) && routes.Keys == nodes && IsPath(path, done)
    }

    /** One step of the walk. */
    method Step(idx: Node, tok: Token, ghost path: seq<Node>, ghost done: seq<Token>,
        ghost routes: map<Node, seq<Route>>)
      returns (next: Node, ghost more: map<Node, seq<Route>>)
      requires Walking(routes, path, done) && idx == path[|done|]
      requires tok != Lit(NUL) && tok != Param(MAX) && (idx == head ==> tok == Lit('/'))
      modifies this`nodes, this`limit, this`place, idx`children
      ensures Walking(more, path + [next], done + [tok]) && next != head
      ensures old(nodes) <= nodes && fresh(nodes - old(nodes))
      ensures more[head] == routes[head]
    {
      next, more := Descend(idx, tok, routes);
      PathGrows(path, done, next, tok);
    }

    /** The pattern read up to position `i` is spelled by the tokens `done`. */
    static ghost predicate Spelled(url: string, i: nat, done: seq<Token>)
      requires TagsKnown(url)
    {
      i <= |url| && done + Tokens(url, i) == Tokens(url, 0)
    }

    /** Reads one token of a pattern: a whole tag or one character. */
    static method ReadToken(url: string, i: nat, ghost done: seq<Token>) returns (tok: Token, next: nat)
      requires TagsKnown(url) && NUL !in url && i < |url| && Spelled(url, i, done)
      ensures i < next <= |url| && Spelled(url, next, done + [tok])
      ensures tok != Lit(NUL) && tok != Param(MAX)
      ensures i == 0 ==> tok == if url[0] == '<' then Param(TagAt(url, 0).0) else Lit(url[0])
    {
      tok, next := Lit(url[i]), i + 1;
      if url[i] == '<' {
        tok, next := Param(TagAt(url, i).0), i + TagAt(url, i).1;
      }
      assert Tokens(url, i) == [tok] + Tokens(url, next);
      assert (done + [tok]) + Tokens(url, next) == done + ([tok] + Tokens(url, next));
    }

    static lemma SpelledOut(url: string, done: seq<Token>)
      requires TagsKnown(url) && Spelled(url, |url|, done)
      ensures done == Tokens(url, 0)
    {
    }

    /** Reads the next token of the pattern and goes to its node. */
    method Advance(url: string, i: nat, idx: Node, ghost path: seq<Node>, ghost done: seq<Token>,
        ghost routes: map<Node, seq<Route>>)
      returns (next: Node, j: nat, ghost further: seq<Token>, ghost more: map<Node, seq<Route>>)
      requires GoodPattern(url) && i < |url| && Spelled(url, i, done)
      requires Walking(routes, path, done) && idx == path[|done|] && (idx == head ==> i == 0)
      modifies this`nodes, this`limit, this`place, idx`children
      ensures i < j <= |url| && Spelled(url, j, further)
      ensures Walking(more, path + [next], further) && next != head
      ensures old(nodes) <= nodes && fresh(nodes - old(nodes))
      ensures more[head] == routes[head]
    {
      var tok;
      tok, j := ReadToken(url, i, done);
      next, more := Step(idx, tok, path, done, routes);
      further := done + [tok];
    }

    /** Walks from the head along a pattern, making the nodes that are missing. */
    method Walk(url: string, ghost routes: map<Node, seq<Route>>)
      returns (idx: Node, ghost path: seq<Node>, ghost more: map<Node, seq<Route>>)
      requires Walking(routes, [head], []) && GoodPattern(url)
      modifies this`nodes, this`limit, this`place, nodes`children
      ensures Walking(more, path, Tokens(url, 0)) && idx == path[|path| - 1]
      ensures old(nodes) <= nodes && fresh(nodes - old(nodes))
      ensures more[head] == routes[head]
    {
      idx, path, more := head, [head], routes;
      var i := 0;
      ghost var done: seq<Token> := [];
      while i < |url|
        invariant i <= |url| && Spelled(url, i, done)
        invariant Walking(more, path, done) && idx == path[|path| - 1]
        invariant old(nodes) <= nodes && fresh(nodes - old(nodes))
        invariant more[head] == routes[head]
        invariant idx == head ==> i == 0
      {
        idx, i, done, more := Advance(url, i, idx, path, done, more);
        path := path + [idx];
      }
      SpelledOut(url, done);
    }

    method PutRule(idx: Node, ruleIndex: RuleIndex)
      requires Wf() && Owned() && Unoptimized() && idx in nodes
      modifies idx`ruleIndex
      ensures Wf() && Owned() && Unoptimized()
      ensures idx.ruleIndex == ruleIndex && idx.Own() == old(idx.Own())
    {
      idx.ruleIndex := ruleIndex;
    }

    /** Gives the node at the end of a path its rule. */
    method SetRule(idx: Node, ruleIndex: RuleIndex, ghost path: seq<Node>, ghost done: seq<Token>,
        ghost routes: map<Node, seq<Route>>)
      requires Walking(routes, path, done) && idx == path[|done|] && idx.ruleIndex == 0 && ruleIndex != 0
      modifies idx`ruleIndex
      ensures Wf() && Owned() && Unoptimized()
      ensures multiset(Below(head)) == multiset(routes[head]) + multiset{(done, ruleIndex)}
    {
      assert [] + Joined(idx.children, routes) == Joined(idx.children, routes);
      assert routes[idx] == Local(idx, routes);
      PutRule(idx, ruleIndex);
      forall n | n in nodes && n != idx ensures routes[n] == Local(n, routes) {
        assert routes[n] == old(Local(n, routes));
      }
      RuleSet(path, done, routes, ruleIndex);
    }

    /** Gives the node at the end of a path its rule, and records the new route. */
    method Record(idx: Node, ruleIndex: RuleIndex, ghost path: seq<Node>, ghost done: seq<Token>,
        ghost routes: map<Node, seq<Route>>)
      requires Walking(routes, path, done) && idx == path[|done|] && idx.ruleIndex == 0 && ruleIndex != 0
      requires multiset(routes[head]) == added && done != [] && forall r :: r in added ==> r.0 != [] && r.1 != 0
      modifies this`added, idx`ruleIndex
      ensures Valid() && Unoptimized()
      ensures added == old(added) + multiset{(done, ruleIndex)}
    {
      added := added + multiset{(done, ruleIndex)};
      SetRule(idx, ruleIndex, path, done, routes);
    }

    /** At the head, no token has been read. */
    lemma WalkStart() returns (routes: map<Node, seq<Route>>)
      requires Valid() && Unoptimized()
      ensures Walking(routes, [head], []) && multiset(routes[head]) == added
    {
      routes := RoutesConsistent();
      HeadRoutes();
    }

    /** The end of a walk has a rule exactly if its tokens are taken. */
    lemma Placed(path: seq<Node>, done: seq<Token>, routes: map<Node, seq<Route>>)
      requires Walking(routes, path, done) && multiset(routes[head]) == added
      ensures path[|done|].ruleIndex != 0 ==> (done, path[|done|].ruleIndex) in added
      ensures path[|done|].ruleIndex == 0 ==> forall r :: r in added ==> r.0 != done
    {
      PatternFree(path, done, routes);
    }

    /** A walk alone leaves the tree as it was. */
    lemma WalkKeeps(path: seq<Node>, done: seq<Token>, routes: map<Node, seq<Route>>)
      requires Walking(routes, path, done) && multiset(routes[head]) == added
               && forall r :: r in added ==> r.0 != [] && r.1 != 0
      ensures Growing()
    {
      HeadSettled(routes);
    }

    /** Finds or makes the node of a pattern; the node has a rule exactly if the pattern was added before. */
    method Place(url: string) returns (idx: Node, ghost path: seq<Node>, ghost routes: map<Node, seq<Route>>)
      requires Valid() && Unoptimized() && GoodPattern(url)
      modifies this`nodes, this`limit, this`place, nodes`children
      ensures Walking(routes, path, Tokens(url, 0)) && idx == path[|path| - 1] && multiset(routes[head]) == added
      ensures forall m :: m in nodes ==> m in old(nodes) || fresh(m)
      ensures idx.ruleIndex != 0 ==> (Tokens(url, 0), idx.ruleIndex) in added
      ensures idx.ruleIndex == 0 ==> forall r :: r in added ==> r.0 != Tokens(url, 0)
    {
      routes := WalkStart();
      idx, path, routes := Walk(url, routes);
      Placed(path, Tokens(url, 0), routes);
    }

    /** Adds a pattern with its rule index; false where registration throws because the pattern is taken. */
    method Add(url: string, ruleIndex: RuleIndex) returns (ok: bool)
      requires Growing()
      requires GoodPattern(url) && ruleIndex != 0
      modifies this`nodes, this`limit, this`place, this`added, nodes`children, nodes`ruleIndex
      ensures Growing()
      ensures ok <==> forall r :: r in old(added) ==> r.0 != Tokens(url, 0)
      ensures added == if ok then old(added) + multiset{(Tokens(url, 0), ruleIndex)} else old(added)
      ensures forall m :: m in nodes ==> m in old(nodes) || fresh(m)
    {
      ghost var path, routes;
      var idx;
      idx, path, routes := Place(url);
      if idx.ruleIndex != 0 {
        WalkKeeps(path, Tokens(url, 0), routes);
        return false;
      }
      Record(idx, ruleIndex, path, Tokens(url, 0), routes);
      return true;
    }
  }

  /** The routes of several nodes, one after another. */
  ghost function Joined(ns: seq<Node>, routes: map<Node, seq<Route>>): seq<Route>
    requires forall n :: n in ns ==> n in routes
  {
    if ns == [] then [] else routes[ns[0]] + Joined(ns[1..], routes)
  }

  lemma {:induction false} JoinedSplits(a: seq<Node>, b: seq<Node>, routes: map<Node, seq<Route>>)
    requires forall n :: n in a || n in b ==> n in routes
    ensures Joined(a + b, routes) == Joined(a, routes) + Joined(b, routes)
  {
    if a == [] {
      assert a + b == b;
    } else {
      JoinedSplits(a[1..], b, routes);
      assert (a + b)[1..] == a[1..] + b;
    }
  }

  lemma {:induction false} JoinedSame(ns: seq<Node>, routes: map<Node, seq<Route>>, more: map<Node, seq<Route>>)
    requires forall n :: n in ns ==> n in routes && n in more && routes[n] == more[n]
    ensures Joined(ns, routes) == Joined(ns, more)
  {
    if ns != [] {
      JoinedSame(ns[1..], routes, more);
    }
  }

  lemma {:induction false} InJoined(ns: seq<Node>, routes: map<Node, seq<Route>>, e: Route)
    requires forall n :: n in ns ==> n in routes
    ensures e in Joined(ns, routes) <==> exists n :: n in ns && e in routes[n]
  {
    if ns != [] {
      InJoined(ns[1..], routes, e);
      assert forall n :: n in ns <==> n == ns[0] || n in ns[1..];
    }
  }

  lemma InPrefixed(own: seq<Token>, rs: seq<Route>, e: Route)
    ensures (own + e.0, e.1) in Prefixed(own, rs) <==> e in rs
  {
    if e in rs {
      var i :| 0 <= i < |rs| && rs[i] == e;
      assert Prefixed(own, rs)[i] == (own + e.0, e.1);
    }
    if (own + e.0, e.1) in Prefixed(own, rs) {
      var i :| 0 <= i < |rs| && Prefixed(own, rs)[i] == (own + e.0, e.1);
      assert (own + rs[i].0)[|own|..] == rs[i].0;
      assert (own + e.0)[|own|..] == e.0;
      assert rs[i] == e;
    }
  }

  /** `b` is `a` with `e` put in at some place. */
  ghost predicate Inserted(a: seq<Route>, b: seq<Route>, e: Route) {
    exists p :: 0 <= p <= |a| && b == a[..p] + [e] + a[p..]
  }

  lemma InsertedAt(a: seq<Route>, b: seq<Route>, p: nat, e: Route)
    requires p <= |a| && b == a[..p] + [e] + a[p..]
    ensures Inserted(a, b, e)
  {
  }

  lemma InsertedBehind(x: seq<Route>, a: seq<Route>, b: seq<Route>, e: Route)
    requires Inserted(a, b, e)
    ensures Inserted(x + a, x + b, e)
  {
    var p :| 0 <= p <= |a| && b == a[..p] + [e] + a[p..];
    assert (x + a)[..|x| + p] == x + a[..p];
    assert (x + a)[|x| + p..] == a[p..];
    InsertedAt(x + a, x + b, |x| + p, e);
  }

  lemma InsertedBefore(a: seq<Route>, b: seq<Route>, x: seq<Route>, e: Route)
    requires Inserted(a, b, e)
    ensures Inserted(a + x, b + x, e)
  {
    var p :| 0 <= p <= |a| && b == a[..p] + [e] + a[p..];
    assert (a + x)[..p] == a[..p];
    assert (a + x)[p..] == a[p..] + x;
    InsertedAt(a + x, b + x, p, e);
  }

  lemma PrefixedInserted(own: seq<Token>, a: seq<Route>, b: seq<Route>, e: Route)
    requires Inserted(a, b, e)
    ensures Inserted(Prefixed(own, a), Prefixed(own, b), (own + e.0, e.1))
  {
    var p :| 0 <= p <= |a| && b == a[..p] + [e] + a[p..];
    InsertedAt(Prefixed(own, a), Prefixed(own, b), p, (own + e.0, e.1));
  }

  lemma {:induction false} JoinedInserted(ns: seq<Node>, q: nat, routes: map<Node, seq<Route>>,
      more: map<Node, seq<Route>>, e: Route)
    requires q < |ns| && forall n :: n in ns ==> n in routes && n in more
    requires forall k :: 0 <= k < |ns| && k != q ==> routes[ns[k]] == more[ns[k]]
    requires Inserted(routes[ns[q]], more[ns[q]], e)
    ensures Inserted(Joined(ns, routes), Joined(ns, more), e)
  {
    if q == 0 {
      JoinedSame(ns[1..], routes, more);
      InsertedBefore(routes[ns[0]], more[ns[0]], Joined(ns[1..], routes), e);
    } else {
      JoinedInserted(ns[1..], q - 1, routes, more, e);
      InsertedBehind(routes[ns[0]], Joined(ns[1..], routes), Joined(ns[1..], more), e);
    }
  }

  lemma InsertedMultiset(a: seq<Route>, b: seq<Route>, e: Route)
    requires Inserted(a, b, e)
    ensures multiset(b) == multiset(a) + multiset{e}
  {
    var p :| 0 <= p <= |a| && b == a[..p] + [e] + a[p..];
    assert a == a[..p] + a[p..];
  }

  lemma InTail(path: seq<Node>, j: nat)
    requires j < |path|
    ensures forall n :: n in path[j..] <==> n == path[j] || n in path[j + 1..]
  {
    assert path[j..] == [path[j]] + path[j + 1..];
  }
}
