/** Two spellings of one part number on one flattening walk. */
module TwinSpellings {
  import opened Wrappers
  import opened BomPaths
  import opened BomLinks
  import opened StackWalk
  import opened FlattenBom

  /** Four parts under three keys, two of them spellings of one. */
  ghost predicate Twins(fold: Part -> Part, root: Part, upper: Part, lower: Part, child: Part) {
    && upper != lower && fold(upper) == fold(lower)
    && fold(root) != fold(upper) && fold(child) != fold(upper) && fold(root) != fold(child)
  }

  /** The root lists both spellings, and only one of them lists the child. */
  function TwinLinks(root: Part, upper: Part, lower: Part, child: Part): seq<Link> {
    [Link(root, upper, None, []), Link(root, lower, None, []), Link(lower, child, None, [])]
  }

  lemma QueryOne(l: Link, rest: seq<Link>, p: Part)
    ensures Query([l] + rest, p) == (if l.parent == p then [l] else []) + Query(rest, p)
  {
    assert ([l] + rest)[1..] == rest;
  }

  lemma QueryThree(a: Link, b: Link, c: Link, p: Part)
    ensures Query([a, b, c], p) == (if a.parent == p then [a] else []) + ((if b.parent == p then [b] else [])
                                     + (if c.parent == p then [c] else []))
  {
    QueryOne(a, [b, c], p);
    QueryOne(b, [c], p);
    QueryOne(c, [], p);
    assert [a] + [b, c] == [a, b, c] && [b] + [c] == [b, c] && [c] + [] == [c];
  }

  lemma RootRows(fold: Part -> Part, root: Part, upper: Part, lower: Part, child: Part, links: seq<Link>)
    requires Twins(fold, root, upper, lower, child) && links == TwinLinks(root, upper, lower, child)
    ensures Query(links, root) == links[..2]
    ensures FlattenEdges(Query(links, root)) == [Edge(upper, 1.0), Edge(lower, 1.0)]
  {
    QueryThree(links[0], links[1], links[2], root);
  }

  lemma LowerRows(fold: Part -> Part, root: Part, upper: Part, lower: Part, child: Part, links: seq<Link>)
    requires Twins(fold, root, upper, lower, child) && links == TwinLinks(root, upper, lower, child)
    ensures Query(links, lower) == links[2..]
    ensures FlattenEdges(Query(links, lower)) == [Edge(child, 1.0)]
  {
    QueryThree(links[0], links[1], links[2], lower);
  }

  lemma NoTwinRows(fold: Part -> Part, root: Part, upper: Part, lower: Part, child: Part, links: seq<Link>, p: Part)
    requires Twins(fold, root, upper, lower, child) && links == TwinLinks(root, upper, lower, child)
    requires p == upper || p == child
    ensures Query(links, p) == [] && FlattenEdges(Query(links, p)) == []
  {
    QueryThree(links[0], links[1], links[2], p);
  }

  /** A question is answered with the rows of whoever first asked under its key. */
  lemma FirstAnswers(links: seq<Link>, fold: Part -> Part, asks: seq<Part>, p: Part, i: nat)
    requires i < |asks| && fold(asks[i]) == fold(p) && forall j :: 0 <= j < |asks| && fold(asks[j]) == fold(p) ==> asks[j] == asks[i]
    ensures Answer(links, fold, AfterAsking(links, fold, asks), p) == Query(links, asks[i])
  {
    FirstAskedStays(links, fold, asks, p);
  }

  lemma FreshAnswer(links: seq<Link>, fold: Part -> Part, asks: seq<Part>, p: Part)
    requires forall j :: 0 <= j < |asks| ==> fold(asks[j]) != fold(p)
    ensures Answer(links, fold, AfterAsking(links, fold, asks), p) == Query(links, p)
  {
    FirstAskedStays(links, fold, asks, p);
  }

  /** The walk stands here after n rounds, with this much of the child booked. */
  ghost predicate StandsAt(links: seq<Link>, fold: Part -> Part, root: Part, n: nat, stack: seq<Frame>, asks: seq<Part>,
                           child: Part, booked: real)
  {
    var w := WalkAfter(links, fold, root, NoStops, n);
    w.stack == stack && w.asks == asks && Booked(w.out, child) == booked
  }

  /** A round pops a part, books it and pushes the rows it is answered. */
  lemma RoundMoves(links: seq<Link>, fold: Part -> Part, root: Part, n: nat, rest: seq<Frame>, f: Frame, asks: seq<Part>,
                   child: Part, booked: real, pushed: seq<Frame>)
    requires StandsAt(links, fold, root, n, rest + [f], asks, child, booked)
    requires var rows := Answer(links, fold, AfterAsking(links, fold, asks), f.part);
             pushed == Frames(FlattenEdges(rows), |rows|, f.qty)
    ensures StandsAt(links, fold, root, n + 1, rest + pushed, asks + [f.part], child,
                     booked + if f.part == child then f.qty else 0.0)
  {
    var none: Part -> bool := NoStops;
    var w := WalkAfter(links, fold, root, none, n);
    assert !none(f.part) && (rest + [f])[..|rest|] == rest;
    assert WalkAfter(links, fold, root, none, n + 1) == WalkRound(links, fold, none, w);
  }

  lemma FrameOfOne(e: Edge, edges: seq<Edge>)
    requires edges == [e] && e.weight == 1.0
    ensures Frames(edges, 1, 1.0) == [Frame(e.child, 1.0)]
  {
  }

  /** The walk pops the second spelling first, and its child. */
  lemma LowerFirst(fold: Part -> Part, root: Part, upper: Part, lower: Part, child: Part, links: seq<Link>, n: nat)
    requires Twins(fold, root, upper, lower, child) && links == TwinLinks(root, upper, lower, child)
    requires StandsAt(links, fold, root, n, [Frame(upper, 1.0)] + [Frame(lower, 1.0)], [root], child, 0.0)
    ensures StandsAt(links, fold, root, n + 1, [Frame(upper, 1.0)] + [Frame(child, 1.0)], [root] + [lower], child, 0.0)
  {
    LowerRows(fold, root, upper, lower, child, links);
    FreshAnswer(links, fold, [root], lower);
    FrameOfOne(Edge(child, 1.0), FlattenEdges(Query(links, lower)));
    RoundMoves(links, fold, root, n, [Frame(upper, 1.0)], Frame(lower, 1.0), [root], child, 0.0, [Frame(child, 1.0)]);
  }

  lemma ChildOnce(fold: Part -> Part, root: Part, upper: Part, lower: Part, child: Part, links: seq<Link>, n: nat)
    requires Twins(fold, root, upper, lower, child) && links == TwinLinks(root, upper, lower, child)
    requires StandsAt(links, fold, root, n, [Frame(upper, 1.0)] + [Frame(child, 1.0)], [root] + [lower], child, 0.0)
    ensures StandsAt(links, fold, root, n + 1, [] + [Frame(upper, 1.0)], [root, lower, child], child, 1.0)
  {
    NoTwinRows(fold, root, upper, lower, child, links, child);
    FreshAnswer(links, fold, [root] + [lower], child);
    RoundMoves(links, fold, root, n, [Frame(upper, 1.0)], Frame(child, 1.0), [root] + [lower], child, 0.0, []);
    assert [Frame(upper, 1.0)] + [] == [] + [Frame(upper, 1.0)] && [root] + [lower] + [child] == [root, lower, child];
  }

  /** It then answers the other spelling with the second one's rows. */
  lemma UpperMisled(fold: Part -> Part, root: Part, upper: Part, lower: Part, child: Part, links: seq<Link>, n: nat)
    requires Twins(fold, root, upper, lower, child) && links == TwinLinks(root, upper, lower, child)
    requires StandsAt(links, fold, root, n, [] + [Frame(upper, 1.0)], [root, lower, child], child, 1.0)
    ensures StandsAt(links, fold, root, n + 1, [] + [Frame(child, 1.0)], [root, lower, child, upper], child, 1.0)
  {
    LowerRows(fold, root, upper, lower, child, links);
    FirstAnswers(links, fold, [root, lower, child], upper, 1);
    FrameOfOne(Edge(child, 1.0), FlattenEdges(Query(links, lower)));
    RoundMoves(links, fold, root, n, [], Frame(upper, 1.0), [root, lower, child], child, 1.0, [Frame(child, 1.0)]);
    assert [root, lower, child] + [upper] == [root, lower, child, upper];
  }

  /** So the child is booked twice. */
  lemma ChildTwice(fold: Part -> Part, root: Part, upper: Part, lower: Part, child: Part, links: seq<Link>, n: nat)
    requires Twins(fold, root, upper, lower, child) && links == TwinLinks(root, upper, lower, child)
    requires StandsAt(links, fold, root, n, [] + [Frame(child, 1.0)], [root, lower, child, upper], child, 1.0)
    ensures StandsAt(links, fold, root, n + 1, [], [root, lower, child, upper, child], child, 2.0)
  {
    NoTwinRows(fold, root, upper, lower, child, links, child);
    FirstAnswers(links, fold, [root, lower, child, upper], child, 2);
    RoundMoves(links, fold, root, n, [], Frame(child, 1.0), [root, lower, child, upper], child, 1.0, []);
    assert [root, lower, child, upper] + [child] == [root, lower, child, upper, child];
  }

  lemma TwinStart(fold: Part -> Part, root: Part, upper: Part, lower: Part, child: Part, links: seq<Link>, n: nat)
    requires Twins(fold, root, upper, lower, child) && links == TwinLinks(root, upper, lower, child) && n == 0
    ensures StandsAt(links, fold, root, n, [Frame(upper, 1.0)] + [Frame(lower, 1.0)], [root], child, 0.0)
  {
    RootRows(fold, root, upper, lower, child, links);
    FreshAnswer(links, fold, [], root);
    var rows := Query(links, root);
    assert Frames(FlattenEdges(rows), 2, 1.0) == [Frame(upper, 1.0)] + [Frame(lower, 1.0)];
  }

  /** The BOM itself is acyclic, and one path leads to the child. */
  lemma TwinPaths(fold: Part -> Part, root: Part, upper: Part, lower: Part, child: Part, links: seq<Link>)
    requires Twins(fold, root, upper, lower, child) && links == TwinLinks(root, upper, lower, child)
    ensures Acyclic(FlattenNet(links, NoStops), Seeds(links, root))
    ensures Quantity(FlattenNet(links, NoStops), Seeds(links, root), Parents(links), child) == 1.0
  {
    var net, start := FlattenNet(links, NoStops), Seeds(links, root);
    RootRows(fold, root, upper, lower, child, links);
    LowerRows(fold, root, upper, lower, child, links);
    NoTwinRows(fold, root, upper, lower, child, links, upper);
    NoTwinRows(fold, root, upper, lower, child, links, child);
    NoStopsAt(links, upper);
    NoStopsAt(links, lower);
    NoStopsAt(links, child);
    assert net(upper) == [] && net(child) == [] && net(lower) == [Edge(child, 1.0)];
    forall path | IsPath(net, start, path) ensures |path| <= 2 {
      if path != [] && path[1..] != [] {
        assert IsPath(net, net(start[path[0]].child), path[1..]);
        assert IsPath(net, net(child), path[1..][1..]);
      }
    }
    assert Bounded(net, start, 2);
    FlattenNetExpands(links, NoStops);
    AcyclicIffBounded(net, start, Parents(links));
    TwinTotal(net, start, upper, lower, child, |Parents(links)| + 1, links, root);
    TotalIsPathSum(net, start, 0, child, |Parents(links)| + 1);
  }

  lemma TwinTotal(net: Net, start: seq<Edge>, upper: Part, lower: Part, child: Part, d: nat, links: seq<Link>, root: Part)
    requires start == [Edge(upper, 1.0), Edge(lower, 1.0)] && upper != child && lower != child
    requires net(upper) == [] && net(child) == [] && net(lower) == [Edge(child, 1.0)]
    requires links == TwinLinks(root, upper, lower, child) && root != lower && d == |Parents(links)| + 1
    ensures Total(net, start, 0, child, d) == 1.0
  {
    assert links[0] in links && links[2] in links;
    assert {root, lower} <= Parents(links);
    AtLeastTwo(root, lower, Parents(links));
    assert Total(net, net(child), 0, child, d - 2) == 0.0;
    TotalStep(net, net(lower), 0, child, d - 1, 0.0, 0.0);
    TotalStep(net, start, 1, child, d, 1.0, 0.0);
    TotalStep(net, start, 0, child, d, 0.0, 1.0);
  }

  lemma AtLeastTwo(a: Part, b: Part, all: set<Part>)
    requires a != b && {a, b} <= all
    ensures |all| >= 2
  {
    assert all == {a, b} + (all - {a, b});
  }

  /** So the case-folded memo makes the walk wrong: it ends, having asked for both spellings, with twice the child's
      path sum. */
  lemma TwoSpellingsMisflatten(fold: Part -> Part, root: Part, upper: Part, lower: Part, child: Part)
    returns (links: seq<Link>, rounds: nat)
    requires Twins(fold, root, upper, lower, child)
    ensures Acyclic(FlattenNet(links, NoStops), Seeds(links, root))
    ensures var w := WalkAfter(links, fold, root, NoStops, rounds);
            && w.stack == [] && upper in w.asks && lower in w.asks
            && child in w.out && w.out[child] == 2.0
            && Quantity(FlattenNet(links, NoStops), Seeds(links, root), Parents(links), child) == 1.0
            && !IsFlattened(w.out, FlattenNet(links, NoStops), Seeds(links, root), Parents(links))
  {
    links := TwinLinks(root, upper, lower, child);
    var n := 0;
    rounds := n + 4;
    TwinStart(fold, root, upper, lower, child, links, n);
    LowerFirst(fold, root, upper, lower, child, links, n);
    ChildOnce(fold, root, upper, lower, child, links, n + 1);
    UpperMisled(fold, root, upper, lower, child, links, n + 2);
    ChildTwice(fold, root, upper, lower, child, links, n + 3);
    TwinPaths(fold, root, upper, lower, child, links);
    assert [root, lower, child, upper, child][1] == lower && [root, lower, child, upper, child][3] == upper;
  }
}
