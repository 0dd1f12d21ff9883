/** The flattened BOM: one quantity per part, accumulated by a stack walk that has no visited set
    (app/services/docpacks.py). */
module FlattenBom {
  import opened BomPaths
  import opened BomLinks
  import opened StackWalk

  /** The edges the walk is seeded with: the root's own rows, whatever the root's processes. */
  function Seeds(links: seq<Link>, root: Part): seq<Edge> {
    FlattenEdges(Query(links, root))
  }

  function Add(out: map<Part, real>, p: Part, qty: real): map<Part, real> {
    out[p := (if p in out then out[p] else 0.0) + qty]
  }

  /** What the finished map must say: every part a path leads to, each with the sum over all its paths. */
  ghost predicate IsFlattened(out: map<Part, real>, net: Net, start: seq<Edge>, parents: set<Part>) {
    && (forall t :: t in out <==> Reaches(net, start, t))
    && (forall t :: t in out ==> out[t] == Quantity(net, start, parents, t))
  }

  ghost function Booked(out: map<Part, real>, t: Part): real {
    if t in out then out[t] else 0.0
  }

  /** What the loop keeps: booked plus pending quantities are the path sums, and every reachable part is booked
      or still ahead. */
  ghost predicate Accounts(out: map<Part, real>, net: Net, start: seq<Edge>, stack: seq<Frame>, depths: seq<nat>, d: nat) {
    && Within(net, stack, depths)
    && (forall t :: Booked(out, t) + Pending(net, stack, depths, t) == Total(net, start, 0, t, d))
    && (forall t :: Reaches(net, start, t) <==> t in out || Ahead(net, stack, t))
  }

  lemma SeedsAccount(net: Net, start: seq<Edge>, parents: set<Part>, d: nat)
    requires Acyclic(net, start) && ExpandsWithin(net, parents) && d == |parents| + 1
    ensures Accounts(map[], net, start, Frames(start, |start|, 1.0), Levels(|start|, d - 1), d)
  {
    AcyclicIsBounded(net, start, parents);
    WithinPush(net, [], [], start, 1.0, d);
    var stack, depths := Frames(start, |start|, 1.0), Levels(|start|, d - 1);
    assert [] + stack == stack && [] + depths == depths;
    forall t ensures Pending(net, stack, depths, t) == Total(net, start, 0, t, d)
             ensures Reaches(net, start, t) <==> Ahead(net, stack, t)
    {
      PendingPush(net, [], [], start, 1.0, t, d);
      OwedIsTotal(net, start, 0, 1.0, t, d);
      AheadPush(net, [], start, 1.0, t);
      assert !Ahead(net, [], t);
    }
  }

  lemma RoundAccounts(out: map<Part, real>, net: Net, start: seq<Edge>, stack: seq<Frame>, depths: seq<nat>, d: nat)
    requires Accounts(out, net, start, stack, depths, d) && stack != []
    ensures var f := stack[|stack| - 1];
            Accounts(Add(out, f.part, f.qty), net, start, NextStack(net, stack), NextDepths(net, stack, depths), d)
  {
    var f := stack[|stack| - 1];
    RoundWithin(net, stack, depths);
    forall t
      ensures Booked(Add(out, f.part, f.qty), t) + Pending(net, NextStack(net, stack), NextDepths(net, stack, depths), t)
              == Total(net, start, 0, t, d)
      ensures Reaches(net, start, t) <==> t in Add(out, f.part, f.qty) || Ahead(net, NextStack(net, stack), t)
    {
      RoundKeepsTotals(net, stack, depths, t);
      RoundKeepsAhead(net, stack, t);
    }
  }

  lemma EmptyStackIsFlattened(out: map<Part, real>, net: Net, start: seq<Edge>, parents: set<Part>)
    requires Accounts(out, net, start, [], [], |parents| + 1)
    ensures IsFlattened(out, net, start, parents)
  {
    forall t
      ensures t in out <==> Reaches(net, start, t)
      ensures t in out ==> out[t] == Quantity(net, start, parents, t)
    {
      assert !Ahead(net, [], t);
      TotalIsPathSum(net, start, 0, t, |parents| + 1);
      assert Pending(net, [], [], t) == 0.0;
    }
  }

  /** Everything the main loop carries from one round to the next. */
  ghost predicate LoopState(out: map<Part, real>, links: seq<Link>, root: Part, stops: Part -> bool,
                            stack: seq<Frame>, depths: seq<nat>, rounds: nat)
  {
    var net, start := FlattenNet(links, stops), Seeds(links, root);
    && Accounts(out, net, start, stack, depths, |Parents(links)| + 1)
    && StackParts(stack) == Run(net, ChildParts(start), rounds)
  }

  lemma LoopStarts(links: seq<Link>, root: Part, stops: Part -> bool)
    requires Acyclic(FlattenNet(links, stops), Seeds(links, root))
    ensures var start := Seeds(links, root);
            LoopState(map[], links, root, stops, Frames(start, |start|, 1.0), Levels(|start|, |Parents(links)|), 0)
  {
    var start := Seeds(links, root);
    FlattenNetExpands(links, stops);
    SeedsAccount(FlattenNet(links, stops), start, Parents(links), |Parents(links)| + 1);
    assert StackParts(Frames(start, |start|, 1.0)) == ChildParts(start);
  }

  lemma LoopRound(out: map<Part, real>, links: seq<Link>, root: Part, stops: Part -> bool,
                  stack: seq<Frame>, depths: seq<nat>, rounds: nat)
    requires LoopState(out, links, root, stops, stack, depths, rounds) && stack != []
    ensures var net, f := FlattenNet(links, stops), stack[|stack| - 1];
            && LoopState(Add(out, f.part, f.qty), links, root, stops, NextStack(net, stack),
                         NextDepths(net, stack, depths), rounds + 1)
            && Work(net, NextStack(net, stack), NextDepths(net, stack, depths)) < Work(net, stack, depths)
            && Reaches(net, Seeds(links, root), f.part)
  {
    var net, f := FlattenNet(links, stops), stack[|stack| - 1];
    assert AtOrBelow(net, f.part, f.part);
    RoundAccounts(out, net, Seeds(links, root), stack, depths, |Parents(links)| + 1);
    RoundUsesWork(net, stack, depths);
    RoundIsStep(net, stack);
    if stops(f.part) {
      assert NextStack(net, stack) == stack[..|stack| - 1];
    } else {
      assert NextStack(net, stack) == stack[..|stack| - 1] + Frames(FlattenEdges(Query(links, f.part)), |Query(links, f.part)|, f.qty);
    }
  }

  /** On the empty stack all is booked. */
  lemma LoopEnds(out: map<Part, real>, links: seq<Link>, root: Part, stops: Part -> bool, depths: seq<nat>, rounds: nat)
    requires LoopState(out, links, root, stops, [], depths, rounds)
    ensures IsFlattened(out, FlattenNet(links, stops), Seeds(links, root), Parents(links))
  {
    assert depths == [];
    EmptyStackIsFlattened(out, FlattenNet(links, stops), Seeds(links, root), Parents(links));
  }

  /** Push one frame per row, the row's quantity multiplied into the quantity accumulated so far. */
  method PushRows(stack: seq<Frame>, rows: seq<Link>, qty: real) returns (pushed: seq<Frame>)
    ensures pushed == stack + Frames(FlattenEdges(rows), |rows|, qty)
  {
    pushed := stack;
    for i := 0 to |rows|
      invariant pushed == stack + Frames(FlattenEdges(rows), i, qty)
    {
      ghost var edges := FlattenEdges(rows);
      assert Frames(edges, i + 1, qty) == Frames(edges, i, qty) + [FrameFor(edges[i], qty)];
      assert FrameFor(edges[i], qty) == Frame(rows[i].child, FlattenQty(rows[i]) * qty);
      pushed := pushed + [Frame(rows[i].child, FlattenQty(rows[i]) * qty)];
    }
  }

  /** The parts whose rows the flattening walk asks for. */
  ghost function FlattenAsks(links: seq<Link>, root: Part, stops: Part -> bool): iset<Part> {
    Asked(FlattenNet(links, stops), Seeds(links, root), root, stops)
  }

  /** What a row of an asked part leads to is asked too, or ends the walk. */
  lemma AsksClosed(links: seq<Link>, root: Part, stops: Part -> bool, l: Link)
    requires l in links && l.parent in FlattenAsks(links, root, stops)
    ensures l.child in FlattenAsks(links, root, stops) || stops(l.child)
  {
    var net, start := FlattenNet(links, stops), Seeds(links, root);
    var rows := Query(links, l.parent);
    var k :| 0 <= k < |rows| && rows[k] == l;
    if l.parent == root {
      PathStep(net, start, k, []);
      assert EndsAt(net, start, [k], l.child);
    } else {
      var path: seq<nat> :| EndsAt(net, start, path, l.parent);
      assert net(l.parent) == FlattenEdges(rows);
      PathStep(net, net(l.parent), k, []);
      PathJoin(net, start, path, l.parent, [k]);
      assert EndsAt(net, net(l.parent), [k], l.child);
      assert EndsAt(net, start, path + [k], l.child);
    }
  }

  // ----- The walk with whatever the memo answers -----

  /** The stack, the questions asked so far and what is booked. */
  datatype Walk = Walk(stack: seq<Frame>, asks: seq<Part>, out: map<Part, real>)

  /** Put the frames of the rows the memo answers on the stack. */
  ghost function Ask(links: seq<Link>, fold: Part -> Part, stack: seq<Frame>, asks: seq<Part>, p: Part, qty: real): seq<Frame> {
    var rows := Answer(links, fold, AfterAsking(links, fold, asks), p);
    stack + Frames(FlattenEdges(rows), |rows|, qty)
  }

  /** One round: pop, book, and unless the part ends the walk ask for its rows. */
  ghost function WalkRound(links: seq<Link>, fold: Part -> Part, stops: Part -> bool, w: Walk): Walk
    requires w.stack != []
  {
    var n := |w.stack| - 1;
    var f := w.stack[n];
    var out := Add(w.out, f.part, f.qty);
    if stops(f.part) then Walk(w.stack[..n], w.asks, out)
    else Walk(Ask(links, fold, w.stack[..n], w.asks, f.part, f.qty), w.asks + [f.part], out)
  }

  /** Where the walk from a root is after some rounds. */
  ghost function WalkAfter(links: seq<Link>, fold: Part -> Part, root: Part, stops: Part -> bool, rounds: nat): Walk {
    if rounds == 0 then Walk(Ask(links, fold, [], [], root, 1.0), [root], map[])
    else
      var w := WalkAfter(links, fold, root, stops, rounds - 1);
      if w.stack == [] then w else WalkRound(links, fold, stops, w)
  }

  /** Push the rows of a part as the memo answers them. */
  method PushChildren(children: ChildrenCache, stack: seq<Frame>, p: Part, qty: real) returns (pushed: seq<Frame>)
    requires children.Valid() && p in children.known
    modifies children
    ensures children.Valid() && children.asked == old(children.asked) + [p]
    ensures pushed == Ask(children.links, children.fold, stack, old(children.asked), p, qty)
    ensures pushed == stack + Frames(FlattenEdges(Query(children.links, p)), |Query(children.links, p)|, qty)
  {
    var rows := children.Lookup(p);
    SameContentsSameEdges(rows, Query(children.links, p));
    pushed := PushRows(stack, rows, qty);
  }

  /** One round of the loop. */
  method PopOne(children: ChildrenCache, stops: Part -> bool, stack: seq<Frame>, out: map<Part, real>)
    returns (rest: seq<Frame>, booked: map<Part, real>)
    requires children.Valid() && stack != []
    requires !stops(stack[|stack| - 1].part) ==> stack[|stack| - 1].part in children.known
    modifies children
    ensures children.Valid()
    ensures children.asked == old(children.asked) + if stops(stack[|stack| - 1].part) then [] else [stack[|stack| - 1].part]
    ensures booked == Add(out, stack[|stack| - 1].part, stack[|stack| - 1].qty)
    ensures rest == NextStack(FlattenNet(children.links, stops), stack)
    ensures Walk(rest, children.asked, booked)
            == WalkRound(children.links, children.fold, stops, Walk(stack, old(children.asked), out))
  {
    var top := stack[|stack| - 1];
    rest := stack[..|stack| - 1];
    booked := Add(out, top.part, top.qty);
    ghost var net := FlattenNet(children.links, stops);
    assert net(top.part) == if stops(top.part) then [] else FlattenEdges(Query(children.links, top.part));
    if !stops(top.part) {
      rest := PushChildren(children, rest, top.part, top.qty);
    }
  }

  /** The walk without a depth limit. It follows the rounds of StackWalk, so acyclicity is exactly the condition under
      which it returns at all (FlattenHaltsIffAcyclic). It asks for the rows of exactly the parts in FlattenAsks, and
      such questions are all answered rightly exactly under SameRows (MemoRightIffSameRows). Stopping parts are booked
      but not expanded. */
  method FlattenFull(links: seq<Link>, fold: Part -> Part, root: Part, stops: Part -> bool)
    returns (out: map<Part, real>, ghost asks: seq<Part>)
    requires SameRows(links, fold, FlattenAsks(links, root, stops))
    requires Acyclic(FlattenNet(links, stops), Seeds(links, root))
    ensures IsFlattened(out, FlattenNet(links, stops), Seeds(links, root), Parents(links))
    ensures forall p :: p in asks <==> p in FlattenAsks(links, root, stops)
    ensures AllRight(links, fold, asks)
    ensures exists rounds :: WalkAfter(links, fold, root, stops, rounds) == Walk([], asks, out)
  {
    ghost var net := FlattenNet(links, stops);
    var children := new ChildrenCache(links, fold, FlattenAsks(links, root, stops));
    out := map[];
    var stack := PushChildren(children, [], root, 1.0);
    ghost var depths, rounds := Levels(|Seeds(links, root)|, |Parents(links)|), 0;
    LoopStarts(links, root, stops);
    assert stack == Frames(Seeds(links, root), |Seeds(links, root)|, 1.0);
    while stack != []
      invariant children.Valid() && fresh(children)
      invariant children.links == links && children.fold == fold && children.known == FlattenAsks(links, root, stops)
      invariant LoopState(out, links, root, stops, stack, depths, rounds)
      invariant forall p :: p in children.asked <==> p == root || (p in out && !stops(p))
      invariant WalkAfter(links, fold, root, stops, rounds) == Walk(stack, children.asked, out)
      decreases Work(net, stack, depths)
    {
      LoopRound(out, links, root, stops, stack, depths, rounds);
      depths, rounds := NextDepths(net, stack, depths), rounds + 1;
      stack, out := PopOne(children, stops, stack, out);
    }
    LoopEnds(out, links, root, stops, depths, rounds);
    asks := children.asked;
    MemoRightIffSameRows(links, fold, asks);
  }

  // ----- The entry point -----

  /** Which parts end the walk: all of them when only the top level is asked for, otherwise those with a terminal
      process when consumed components are hidden. */
  function Stops(full: bool, includeConsumed: bool, terminals: set<string>, processes: Part -> set<string>): Part -> bool {
    p => !full || (!includeConsumed && processes(p) * terminals != {})
  }

  ghost predicate OnlyEndings(net: Net) {
    forall p :: net(p) == []
  }

  lemma OneStepReach(net: Net, start: seq<Edge>, t: Part)
    requires OnlyEndings(net)
    ensures Reaches(net, start, t) <==> exists k :: 0 <= k < |start| && start[k].child == t
  {
    ReachesStep(net, start, t);
    forall p ensures AtOrBelow(net, p, t) <==> p == t {
      ReachesStep(net, net(p), t);
    }
  }

  lemma OneStepTotal(net: Net, start: seq<Edge>, i: nat, t: Part, d: nat)
    requires OnlyEndings(net) && i < |start| && d > 0
    ensures Total(net, start, i, t, d)
            == (if start[i].child == t then start[i].weight else 0.0) + Total(net, start, i + 1, t, d)
  {
    assert Total(net, net(start[i].child), 0, t, d - 1) == 0.0;
  }

  /** The walk that stops at the first level adds the root's own rows and pops nothing. */
  method FlattenTop(links: seq<Link>, root: Part, ghost stops: Part -> bool) returns (out: map<Part, real>)
    requires forall p :: stops(p)
    ensures IsFlattened(out, FlattenNet(links, stops), Seeds(links, root), Parents(links))
  {
    var rows := Query(links, root);
    ghost var net, start, d := FlattenNet(links, stops), Seeds(links, root), |Parents(links)| + 1;
    assert OnlyEndings(net);
    out := map[];
    for i := 0 to |rows|
      invariant forall t :: Booked(out, t) + Total(net, start, i, t, d) == Total(net, start, 0, t, d)
      invariant forall t :: t in out <==> exists k :: 0 <= k < i && start[k].child == t
    {
      ghost var before := out;
      out := Add(out, rows[i].child, FlattenQty(rows[i]));
      forall t
        ensures Booked(out, t) + Total(net, start, i + 1, t, d) == Booked(before, t) + Total(net, start, i, t, d)
      {
        OneStepTotal(net, start, i, t, d);
      }
    }
    forall t
      ensures t in out <==> Reaches(net, start, t)
      ensures t in out ==> out[t] == Quantity(net, start, Parents(links), t)
    {
      OneStepReach(net, start, t);
      TotalIsPathSum(net, start, 0, t, d);
    }
  }

  /** The walk goes along the path: one step when only the top level is asked for; and when consumed components are
      hidden, no part before its end has a terminal process. */
  ghost predicate Followed(links: seq<Link>, root: Part, full: bool, includeConsumed: bool, terminals: set<string>,
                           processes: Part -> set<string>, path: seq<nat>)
  {
    var net, start := FlattenNet(links, NoStops), Seeds(links, root);
    && path != [] && IsPath(net, start, path) && (full || |path| == 1)
    && (includeConsumed || forall k, x :: 0 <= k < |Visits(net, start, path)| - 1 && x in terminals
                                          ==> x !in processes(Visits(net, start, path)[k]))
  }

  lemma StopsWhere(full: bool, includeConsumed: bool, terminals: set<string>, processes: Part -> set<string>, p: Part)
    ensures Stops(full, includeConsumed, terminals, processes)(p)
            <==> !full || (!includeConsumed && exists x :: x in terminals && x in processes(p))
  {
    assert forall x :: x in processes(p) * terminals <==> x in terminals && x in processes(p);
  }

  /** The paths of the net with stops are the paths followed. */
  lemma StopsFollow(links: seq<Link>, root: Part, full: bool, includeConsumed: bool, terminals: set<string>,
                    processes: Part -> set<string>, path: seq<nat>)
    ensures var net := FlattenNet(links, Stops(full, includeConsumed, terminals, processes));
            path != [] && IsPath(net, Seeds(links, root), path)
            <==> Followed(links, root, full, includeConsumed, terminals, processes, path)
  {
    var all, start := FlattenNet(links, NoStops), Seeds(links, root);
    var stops := Stops(full, includeConsumed, terminals, processes);
    HidingPrunesAtStops(links, start, stops, path);
    forall p ensures stops(p) <==> !full || (!includeConsumed && exists x :: x in terminals && x in processes(p)) {
      StopsWhere(full, includeConsumed, terminals, processes, p);
    }
    if path != [] && IsPath(all, start, path) {
      VisitsLength(all, start, path);
    }
  }

  /** What a flattened map means in terms of the whole net: the paths followed, and the sums of products along them. */
  ghost predicate SumsFollowed(out: map<Part, real>, links: seq<Link>, root: Part, full: bool, includeConsumed: bool,
                               terminals: set<string>, processes: Part -> set<string>, paths: seq<seq<nat>>)
  {
    var net, start := FlattenNet(links, NoStops), Seeds(links, root);
    && NoRepeat(paths) && (forall p :: p in paths <==> Followed(links, root, full, includeConsumed, terminals, processes, p))
    && (forall t :: t in out <==> exists p :: p in paths && EndsAt(net, start, p, t))
    && (forall t :: t in out ==> out[t] == SumOver(net, start, paths, t))
  }

  lemma FlattenedSumsFollowed(out: map<Part, real>, links: seq<Link>, root: Part, full: bool, includeConsumed: bool,
                              terminals: set<string>, processes: Part -> set<string>, paths: seq<seq<nat>>)
    requires var net := FlattenNet(links, Stops(full, includeConsumed, terminals, processes));
             && IsFlattened(out, net, Seeds(links, root), Parents(links)) && Acyclic(net, Seeds(links, root))
             && paths == AllPaths(net, Seeds(links, root), Parents(links))
    ensures SumsFollowed(out, links, root, full, includeConsumed, terminals, processes, paths)
  {
    var stops := Stops(full, includeConsumed, terminals, processes);
    var all, net, start := FlattenNet(links, NoStops), FlattenNet(links, stops), Seeds(links, root);
    FlattenSumsAllPaths(links, root, stops);
    forall p ensures p in paths <==> Followed(links, root, full, includeConsumed, terminals, processes, p) {
      StopsFollow(links, root, full, includeConsumed, terminals, processes, p);
    }
    forall t ensures t in out <==> exists p :: p in paths && EndsAt(all, start, p, t) {
      ReachedByListed(links, start, stops, paths, t);
    }
    forall t | t in out ensures out[t] == SumOver(all, start, paths, t) {
      SameSums(links, start, stops, paths, t);
    }
  }

  lemma SameEnd(links: seq<Link>, start: seq<Edge>, stops: Part -> bool, path: seq<nat>, t: Part)
    requires IsPath(FlattenNet(links, stops), start, path)
    ensures EndsAt(FlattenNet(links, stops), start, path, t) <==> EndsAt(FlattenNet(links, NoStops), start, path, t)
    ensures Product(FlattenNet(links, stops), start, path) == Product(FlattenNet(links, NoStops), start, path)
  {
    HidingPrunesAtStops(links, start, stops, path);
    EndsAtMeaning(FlattenNet(links, stops), start, path, t);
    EndsAtMeaning(FlattenNet(links, NoStops), start, path, t);
  }

  lemma ReachedByListed(links: seq<Link>, start: seq<Edge>, stops: Part -> bool, paths: seq<seq<nat>>, t: Part)
    requires forall p :: p in paths <==> p != [] && IsPath(FlattenNet(links, stops), start, p)
    ensures Reaches(FlattenNet(links, stops), start, t)
            <==> exists p :: p in paths && EndsAt(FlattenNet(links, NoStops), start, p, t)
  {
    if path :| EndsAt(FlattenNet(links, stops), start, path, t) {
      EndsAtMeaning(FlattenNet(links, stops), start, path, t);
      SameEnd(links, start, stops, path, t);
    }
    if path :| path in paths && EndsAt(FlattenNet(links, NoStops), start, path, t) {
      SameEnd(links, start, stops, path, t);
    }
  }

  lemma {:induction false} SameSums(links: seq<Link>, start: seq<Edge>, stops: Part -> bool, paths: seq<seq<nat>>, t: Part)
    requires forall p :: p in paths ==> IsPath(FlattenNet(links, stops), start, p)
    ensures SumOver(FlattenNet(links, stops), start, paths, t) == SumOver(FlattenNet(links, NoStops), start, paths, t)
  {
    if paths != [] {
      assert paths[0] in paths;
      SameEnd(links, start, stops, paths[0], t);
      SameSums(links, start, stops, paths[1..], t);
    }
  }

  /** `_flatten_bom` for a resolved root. */
  method FlattenBom(links: seq<Link>, fold: Part -> Part, root: Part, full: bool, includeConsumed: bool,
                    terminals: set<string>, processes: Part -> set<string>)
    returns (out: map<Part, real>, ghost paths: seq<seq<nat>>)
    requires SameRows(links, fold, FlattenAsks(links, root, Stops(full, includeConsumed, terminals, processes)))
    requires full ==> Acyclic(FlattenNet(links, Stops(full, includeConsumed, terminals, processes)), Seeds(links, root))
    ensures SumsFollowed(out, links, root, full, includeConsumed, terminals, processes, paths)
    ensures IsFlattened(out, FlattenNet(links, Stops(full, includeConsumed, terminals, processes)),
                        Seeds(links, root), Parents(links))
  {
    var stops := Stops(full, includeConsumed, terminals, processes);
    if full {
      ghost var asks;
      out, asks := FlattenFull(links, fold, root, stops);
    } else {
      out := FlattenTop(links, root, stops);
      TopIsAcyclic(links, root, stops);
    }
    paths := AllPaths(FlattenNet(links, stops), Seeds(links, root), Parents(links));
    FlattenedSumsFollowed(out, links, root, full, includeConsumed, terminals, processes, paths);
  }

  lemma TopIsAcyclic(links: seq<Link>, root: Part, stops: Part -> bool)
    requires forall p :: stops(p)
    ensures Acyclic(FlattenNet(links, stops), Seeds(links, root))
  {
    forall p ensures FlattenNet(links, stops)(p) == [] {
    }
    NothingBelowIsAcyclic(FlattenNet(links, stops), Seeds(links, root));
  }

  /** The precondition is exact: the rounds FlattenFull runs come to an end if and only if no path enters a part
      twice. On a cyclic BOM the walk never returns. */
  lemma FlattenHaltsIffAcyclic(links: seq<Link>, root: Part, stops: Part -> bool)
    ensures Halts(FlattenNet(links, stops), Seeds(links, root))
            <==> Acyclic(FlattenNet(links, stops), Seeds(links, root))
  {
    FlattenNetExpands(links, stops);
    HaltsIffAcyclic(FlattenNet(links, stops), Seeds(links, root), Parents(links));
  }

  /** Reading the result: the paths summed over are all the paths there are, each once. */
  lemma FlattenSumsAllPaths(links: seq<Link>, root: Part, stops: Part -> bool)
    requires Acyclic(FlattenNet(links, stops), Seeds(links, root))
    ensures var net, start := FlattenNet(links, stops), Seeds(links, root);
            && NoRepeat(AllPaths(net, start, Parents(links)))
            && forall p :: p in AllPaths(net, start, Parents(links)) <==> p != [] && IsPath(net, start, p)
  {
    FlattenNetExpands(links, stops);
    AllPathsExact(FlattenNet(links, stops), Seeds(links, root), Parents(links));
  }

  lemma NoStopsAt(links: seq<Link>, p: Part)
    ensures FlattenNet(links, NoStops)(p) == FlattenEdges(Query(links, p))
  {
    var none: Part -> bool := NoStops;
    assert !none(p);
    assert FlattenNet(links, none)(p) == if none(p) then [] else FlattenEdges(Query(links, p));
  }

  /** With consumed components hidden, the paths are exactly the full walk's paths that pass no stopping part
      before their end. */
  lemma HidingPrunesAtStops(links: seq<Link>, start: seq<Edge>, stops: Part -> bool, path: seq<nat>)
    ensures var all, pruned := FlattenNet(links, NoStops), FlattenNet(links, stops);
            IsPath(pruned, start, path)
            <==> IsPath(all, start, path)
                 && forall k :: 0 <= k < |Visits(all, start, path)| - 1 ==> !stops(Visits(all, start, path)[k])
    ensures IsPath(FlattenNet(links, stops), start, path) ==>
              && Visits(FlattenNet(links, stops), start, path) == Visits(FlattenNet(links, NoStops), start, path)
              && Product(FlattenNet(links, stops), start, path) == Product(FlattenNet(links, NoStops), start, path)
  {
    forall p ensures FlattenNet(links, stops)(p) == if stops(p) then [] else FlattenNet(links, NoStops)(p) {
      NoStopsAt(links, p);
    }
    PrunedPaths(FlattenNet(links, NoStops), FlattenNet(links, stops), stops, start, path);
  }

  /** With consumed components included, or no terminal processes, the walk is the one over the net without stops. */
  lemma NothingHidden(links: seq<Link>, root: Part, includeConsumed: bool, terminals: set<string>,
                      processes: Part -> set<string>, out: map<Part, real>)
    requires includeConsumed || terminals == {}
    ensures Acyclic(FlattenNet(links, Stops(true, includeConsumed, terminals, processes)), Seeds(links, root))
            <==> Acyclic(FlattenNet(links, NoStops), Seeds(links, root))
    ensures IsFlattened(out, FlattenNet(links, Stops(true, includeConsumed, terminals, processes)), Seeds(links, root), Parents(links))
            <==> IsFlattened(out, FlattenNet(links, NoStops), Seeds(links, root), Parents(links))
    ensures FlattenAsks(links, root, Stops(true, includeConsumed, terminals, processes)) == FlattenAsks(links, root, NoStops)
  {
    var stops := Stops(true, includeConsumed, terminals, processes);
    forall p ensures FlattenNet(links, stops)(p) == FlattenNet(links, NoStops)(p) && !stops(p) {
      assert !stops(p);
      EndsNowhere(links, stops, p);
    }
    SameNetsAgree(FlattenNet(links, stops), FlattenNet(links, NoStops), Seeds(links, root), Parents(links));
    SameAsks(links, root, stops);
  }

  lemma EndsNowhere(links: seq<Link>, stops: Part -> bool, p: Part)
    requires !stops(p)
    ensures FlattenNet(links, stops)(p) == FlattenNet(links, NoStops)(p)
  {
    NoStopsAt(links, p);
    assert FlattenNet(links, stops)(p) == if stops(p) then [] else FlattenEdges(Query(links, p));
  }

  lemma SameAsks(links: seq<Link>, root: Part, stops: Part -> bool)
    requires forall p :: !stops(p)
    requires forall t :: Reaches(FlattenNet(links, stops), Seeds(links, root), t)
                         <==> Reaches(FlattenNet(links, NoStops), Seeds(links, root), t)
    ensures FlattenAsks(links, root, stops) == FlattenAsks(links, root, NoStops)
  {
  }

  /** Nets with the same edges everywhere have the same paths, parts and sums. */
  lemma SameNetsAgree(a: Net, b: Net, start: seq<Edge>, parents: set<Part>)
    requires forall p :: a(p) == b(p)
    ensures Acyclic(a, start) <==> Acyclic(b, start)
    ensures forall t :: Reaches(a, start, t) <==> Reaches(b, start, t)
    ensures forall t :: Quantity(a, start, parents, t) == Quantity(b, start, parents, t)
  {
    forall path: seq<nat> ensures IsPath(a, start, path) <==> IsPath(b, start, path)
                          ensures Visits(a, start, path) == Visits(b, start, path)
    {
      EqualNetsEqualPaths(a, b, start, path);
    }
    forall t ensures Quantity(a, start, parents, t) == Quantity(b, start, parents, t)
             ensures Reaches(a, start, t) <==> Reaches(b, start, t)
    {
      SameNetsSame(a, b, start, parents, t);
    }
  }

  lemma SameNetsSame(a: Net, b: Net, start: seq<Edge>, parents: set<Part>, t: Part)
    requires forall p :: a(p) == b(p)
    ensures Quantity(a, start, parents, t) == Quantity(b, start, parents, t)
    ensures Reaches(a, start, t) <==> Reaches(b, start, t)
  {
    forall path: seq<nat> ensures EndsAt(a, start, path, t) <==> EndsAt(b, start, path, t) {
      EqualNetsEqualPaths(a, b, start, path);
    }
    var d := |parents| + 1;
    TotalIsPathSum(a, start, 0, t, d);
    TotalIsPathSum(b, start, 0, t, d);
    EqualNetsEqualTotals(a, b, start, 0, t, d);
  }
}
