/** When the Arena export's total quantities agree with the flattened BOM. */
module ArenaAgreement {
  import opened Wrappers
  import opened BomPaths
  import opened BomLinks
  import opened ArenaWalk
  import opened FlattenBom

  // ----- Nets of one shape with different weights -----

  /** Same children in the same order; the second net's weights lie between zero and the first's, which are positive. */
  ghost predicate Below(high: seq<Edge>, low: seq<Edge>) {
    |high| == |low| && forall k :: 0 <= k < |high| ==>
      high[k].child == low[k].child && 0.0 <= low[k].weight <= high[k].weight && 0.0 < high[k].weight
  }

  ghost predicate SameChildren(a: seq<Edge>, b: seq<Edge>) {
    |a| == |b| && forall k :: 0 <= k < |a| ==> a[k].child == b[k].child
  }

  ghost predicate Into(parts: iset<Part>, edges: seq<Edge>) {
    forall k :: 0 <= k < |edges| ==> edges[k].child in parts
  }

  /** On a closed set of parts the nets have the same children. */
  ghost predicate SameShape(parts: iset<Part>, a: Net, b: Net) {
    forall p {:trigger SameChildren(a(p), b(p))} :: p in parts ==> Into(parts, a(p)) && SameChildren(a(p), b(p))
  }

  ghost predicate NetsBelow(parts: iset<Part>, high: Net, low: Net) {
    forall p {:trigger Below(high(p), low(p))} :: p in parts ==> Into(parts, high(p)) && Below(high(p), low(p))
  }

  lemma ScaleDown(w: real, v: real, x: real, y: real)
    requires 0.0 <= v <= w && 0.0 <= y <= x
    ensures 0.0 <= v * y <= w * x
  {
    assert v * y <= w * y;
    assert w * y <= w * x;
  }

  lemma ScaleDownStrictly(w: real, v: real, x: real, y: real)
    requires 0.0 <= v <= w && 0.0 <= y <= x && 0.0 < w && 0.0 < x
    requires v < w || y < x
    ensures v * y < w * x
  {
    if y < x {
      assert v * y <= w * y;
      assert w * y < w * x;
    } else {
      assert v * x < w * x;
    }
  }

  lemma TotalHead(net: Net, start: seq<Edge>, i: nat, t: Part, d: nat, inner: real, later: real)
    requires d > 0 && i < |start|
    requires inner == Hit(start[i].child, t) + Total(net, net(start[i].child), 0, t, d - 1)
    requires later == Total(net, start, i + 1, t, d)
    ensures Total(net, start, i, t, d) == start[i].weight * inner + later
  {
  }

  /** Smaller weights give smaller totals. */
  lemma {:induction false} TotalsBelow(parts: iset<Part>, high: Net, low: Net, hs: seq<Edge>, ls: seq<Edge>, i: nat, t: Part, d: nat)
    requires NetsBelow(parts, high, low) && Below(hs, ls) && Into(parts, hs) && i <= |hs|
    ensures 0.0 <= Total(low, ls, i, t, d) <= Total(high, hs, i, t, d)
    decreases d, |hs| - i
  {
    if d > 0 && i < |hs| {
      var c := hs[i].child;
      assert Below(high(c), low(c));
      TotalsBelow(parts, high, low, high(c), low(c), 0, t, d - 1);
      TotalsBelow(parts, high, low, hs, ls, i + 1, t, d);
      var x, y := Hit(c, t) + Total(high, high(c), 0, t, d - 1), Hit(c, t) + Total(low, low(c), 0, t, d - 1);
      ScaleDown(hs[i].weight, ls[i].weight, x, y);
      TotalHead(high, hs, i, t, d, x, Total(high, hs, i + 1, t, d));
      TotalHead(low, ls, i, t, d, y, Total(low, ls, i + 1, t, d));
    }
  }

  /** The path's last edge weighs less in the second net. */
  ghost predicate EndsLighter(high: Net, low: Net, hs: seq<Edge>, ls: seq<Edge>, path: seq<nat>, t: Part)
    decreases |path|
  {
    path != [] && path[0] < |hs| == |ls| &&
    if |path| == 1 then hs[path[0]].child == t && ls[path[0]].weight < hs[path[0]].weight
    else EndsLighter(high, low, high(hs[path[0]].child), low(hs[path[0]].child), path[1..], t)
  }

  /** One lighter edge, reached by a path, makes the total for the part it leads to strictly smaller. */
  lemma {:induction false} LighterEdgeShows(parts: iset<Part>, high: Net, low: Net, hs: seq<Edge>, ls: seq<Edge>, i: nat,
                                            path: seq<nat>, t: Part, d: nat)
    requires NetsBelow(parts, high, low) && Below(hs, ls) && Into(parts, hs) && i <= |hs|
    requires EndsLighter(high, low, hs, ls, path, t) && |path| <= d && i <= path[0]
    ensures Total(low, ls, i, t, d) < Total(high, hs, i, t, d)
    decreases d, |hs| - i
  {
    var c := hs[i].child;
    var hx, lx := Total(high, high(c), 0, t, d - 1), Total(low, low(c), 0, t, d - 1);
    var hl, ll := Total(high, hs, i + 1, t, d), Total(low, ls, i + 1, t, d);
    assert Below(high(c), low(c));
    TotalsBelow(parts, high, low, high(c), low(c), 0, t, d - 1);
    TotalsBelow(parts, high, low, hs, ls, i + 1, t, d);
    if i == path[0] {
      if |path| > 1 {
        LighterEdgeShows(parts, high, low, high(c), low(c), 0, path[1..], t, d - 1);
      }
      ScaleDownStrictly(hs[i].weight, ls[i].weight, Hit(c, t) + hx, Hit(c, t) + lx);
    } else {
      LighterEdgeShows(parts, high, low, hs, ls, i + 1, path, t, d);
      ScaleDown(hs[i].weight, ls[i].weight, Hit(c, t) + hx, Hit(c, t) + lx);
    }
    TotalHead(high, hs, i, t, d, Hit(c, t) + hx, hl);
    TotalHead(low, ls, i, t, d, Hit(c, t) + lx, ll);
  }

  /** Nets that agree on all that an edge leads to agree on all that the edges below it lead to. */
  lemma SameBelow(a: Net, b: Net, start: seq<Edge>, i: nat)
    requires i < |start|
    requires forall p :: Reaches(a, a(start[i].child), p) ==> a(p) == b(p)
    ensures var edges := a(start[i].child);
            forall k :: 0 <= k < |edges| ==> a(edges[k].child) == b(edges[k].child)
    ensures var edges := a(start[i].child);
            forall k, p :: 0 <= k < |edges| && Reaches(a, a(edges[k].child), p) ==> a(p) == b(p)
  {
    var edges := a(start[i].child);
    forall k | 0 <= k < |edges| ensures a(edges[k].child) == b(edges[k].child) {
      PathStep(a, edges, k, []);
      assert EndsAt(a, edges, [k], edges[k].child);
    }
    forall k, p | 0 <= k < |edges| && Reaches(a, a(edges[k].child), p) ensures a(p) == b(p) {
      var path :| EndsAt(a, a(edges[k].child), path, p);
      PathStep(a, edges, k, path);
      assert EndsAt(a, edges, [k] + path, p);
    }
  }

  /** Nets that agree on everything reached give the same totals. */
  lemma {:induction false} SameEdgesSameTotals(a: Net, b: Net, start: seq<Edge>, i: nat, t: Part, d: nat)
    requires i <= |start|
    requires forall k :: i <= k < |start| ==> a(start[k].child) == b(start[k].child)
    requires forall k, p :: i <= k < |start| && Reaches(a, a(start[k].child), p) ==> a(p) == b(p)
    ensures Total(a, start, i, t, d) == Total(b, start, i, t, d)
    decreases d, |start| - i
  {
    if d > 0 && i < |start| {
      var c := start[i].child;
      SameEdgesSameTotals(a, b, start, i + 1, t, d);
      SameBelow(a, b, start, i);
      SameEdgesSameTotals(a, b, a(c), 0, t, d - 1);
      EqualSteps(a, b, start, i, t, d, Total(a, a(c), 0, t, d - 1), Total(a, start, i + 1, t, d));
    }
  }

  // ----- The export's rows on an acyclic BOM are all the paths -----

  function SumTotals(rows: seq<Row>, t: Part): real {
    if rows == [] then 0.0 else (if rows[0].part == t then rows[0].total else 0.0) + SumTotals(rows[1..], t)
  }

  /** Rows that stand for these paths, one by one, add up to the sum over the paths. */
  lemma {:induction false} RowsSumPaths(rows: seq<Row>, net: Net, start: seq<Edge>, paths: seq<seq<nat>>, t: Part)
    requires |rows| == |paths|
    requires forall k :: 0 <= k < |rows| ==>
               EndsAt(net, start, paths[k], rows[k].part) && rows[k].total == Product(net, start, paths[k])
    ensures SumTotals(rows, t) == SumOver(net, start, paths, t)
  {
    if rows != [] {
      RowsSumPaths(rows[1..], net, start, paths[1..], t);
      EndsAtMeaning(net, start, paths[0], t);
      EndsAtMeaning(net, start, paths[0], rows[0].part);
    }
  }

  lemma NonEmptyHasMember(b: seq<seq<nat>>)
    ensures b == [] || exists p :: p in b
  {
    if b != [] {
      assert b[0] in b;
    }
  }

  /** A list is determined by its members once it is strictly ordered. */
  lemma {:induction false} PreorderIsUnique(a: seq<seq<nat>>, b: seq<seq<nat>>)
    requires InPreorder(a) && InPreorder(b)
    requires forall p :: p in a <==> p in b
    ensures a == b
    decreases |a|
  {
    if a == [] {
      NonEmptyHasMember(b);
    } else {
      assert a[0] in b;
      assert b[0] in a;
      var j :| 0 <= j < |b| && b[j] == a[0];
      var k :| 0 <= k < |a| && a[k] == b[0];
      if j > 0 && k > 0 {
        assert Before(b[0], b[j]) && Before(a[0], a[k]);
        BeforeAntisymmetric(a[0], b[0]);
      }
      assert a[0] == b[0];
      forall p ensures p in a[1..] <==> p in b[1..] {
        HeadNotInTail(a, p);
        HeadNotInTail(b, p);
      }
      PreorderIsUnique(a[1..], b[1..]);
      assert a == [a[0]] + a[1..] && b == [b[0]] + b[1..];
    }
  }

  lemma HeadNotInTail(a: seq<seq<nat>>, p: seq<nat>)
    requires InPreorder(a) && a != []
    ensures p in a[1..] <==> p in a && p != a[0]
  {
    if p in a[1..] {
      var k :| 0 <= k < |a[1..]| && a[1..][k] == p;
      assert a[k + 1] == p;
      BeforeIsStrict(a[0], a[k + 1]);
    }
    if p in a && p != a[0] {
      var k :| 0 <= k < |a| && a[k] == p;
      assert a[1..][k - 1] == p;
    }
  }

  lemma {:induction false} BeforeAntisymmetric(a: seq<nat>, b: seq<nat>)
    ensures !(Before(a, b) && Before(b, a))
    decreases |a|
  {
    if a != [] && b != [] && a[0] == b[0] {
      BeforeAntisymmetric(a[1..], b[1..]);
    }
  }

  // ----- The agreement -----

  /** The root and the parts reached from it. */
  ghost function UsedParts(links: seq<Link>, root: Part): iset<Part> {
    FlattenAsks(links, root, NoStops)
  }

  /** The link's parent is the root or is reached from it. */
  ghost predicate InUse(links: seq<Link>, root: Part, l: Link) {
    l in links && (l.parent == root || Reaches(FlattenNet(links, NoStops), Seeds(links, root), l.parent))
  }

  /** Children in use are stored under the revision their links name, and have a part number. */
  ghost predicate PlainIdentities(links: seq<Link>, effective: Part -> Part, root: Part) {
    forall l :: InUse(links, root, l) ==> effective(l.child) == l.child && l.child.pn != ""
  }

  ghost predicate NoNegatives(links: seq<Link>, root: Part) {
    forall l :: InUse(links, root, l) && l.qty.Some? ==> l.qty.value >= 0.0
  }

  /** Both walks read the same quantity from this link: neither null nor zero. */
  ghost predicate Quantified(l: Link) {
    l.qty.Some? && l.qty.value != 0.0
  }

  lemma {:induction false} NamedAll(rows: seq<Link>)
    requires forall l :: l in rows ==> l.child.pn != ""
    ensures Named(rows) == rows
  {
    if rows != [] {
      assert rows[0] in rows;
      NamedAll(rows[1..]);
    }
  }

  lemma RowsInUse(links: seq<Link>, root: Part, p: Part)
    requires p in UsedParts(links, root)
    ensures forall l :: l in Query(links, p) ==> InUse(links, root, l)
  {
  }

  /** The rows of a part in use as both walks read them. */
  lemma EdgesAt(links: seq<Link>, effective: Part -> Part, root: Part, p: Part, k: nat)
    requires PlainIdentities(links, effective, root) && p in UsedParts(links, root)
    ensures |ArenaEdges(Query(links, p))| == |FlattenEdges(Query(links, p))| == |Query(links, p)|
    ensures k < |Query(links, p)| ==>
              && FlattenEdges(Query(links, p))[k] == Edge(Query(links, p)[k].child, FlattenQty(Query(links, p)[k]))
              && ArenaEdges(Query(links, p))[k] == Edge(Query(links, p)[k].child, ArenaQty(Query(links, p)[k]))
              && InUse(links, root, Query(links, p)[k])
  {
    RowsInUse(links, root, p);
    NamedAll(Query(links, p));
  }

  lemma WeightsAt(l: Link)
    requires l.qty.Some? ==> l.qty.value >= 0.0
    ensures 0.0 <= ArenaQty(l) <= FlattenQty(l) && 0.0 < FlattenQty(l)
    ensures ArenaQty(l) == FlattenQty(l) <==> Quantified(l)
  {
  }

  lemma EdgesShape(links: seq<Link>, effective: Part -> Part, root: Part, p: Part)
    requires PlainIdentities(links, effective, root) && p in UsedParts(links, root)
    ensures SameChildren(FlattenEdges(Query(links, p)), ArenaEdges(Query(links, p)))
    ensures Into(UsedParts(links, root), FlattenEdges(Query(links, p)))
  {
    EdgesAt(links, effective, root, p, 0);
    forall k | 0 <= k < |Query(links, p)|
      ensures FlattenEdges(Query(links, p))[k].child == ArenaEdges(Query(links, p))[k].child
      ensures FlattenEdges(Query(links, p))[k].child in UsedParts(links, root)
    {
      EdgesAt(links, effective, root, p, k);
      AsksClosed(links, root, NoStops, Query(links, p)[k]);
    }
  }

  lemma EdgesBelow(links: seq<Link>, effective: Part -> Part, root: Part, p: Part)
    requires PlainIdentities(links, effective, root) && NoNegatives(links, root) && p in UsedParts(links, root)
    ensures Below(FlattenEdges(Query(links, p)), ArenaEdges(Query(links, p)))
    ensures Into(UsedParts(links, root), FlattenEdges(Query(links, p)))
  {
    EdgesShape(links, effective, root, p);
    forall k | 0 <= k < |Query(links, p)|
      ensures 0.0 <= ArenaEdges(Query(links, p))[k].weight <= FlattenEdges(Query(links, p))[k].weight
      ensures 0.0 < FlattenEdges(Query(links, p))[k].weight
    {
      EdgesAt(links, effective, root, p, k);
      WeightsAt(Query(links, p)[k]);
    }
  }

  // ----- The two nets side by side -----

  function Same(p: Part): Part {
    p
  }

  lemma SameRowsBelow(links: seq<Link>, effective: Part -> Part, c: Part)
    requires effective(c) == c
    ensures ArenaNet(links, effective)(c) == ArenaNet(links, Same)(c)
  {
    var same: Part -> Part := Same;
    assert same(c) == c;
    assert ArenaNet(links, effective)(c) == ArenaEdges(Query(links, effective(c)));
    assert ArenaNet(links, same)(c) == ArenaEdges(Query(links, same(c)));
  }

  /** The walk asks for effective revisions of children only. */
  lemma {:induction false} OnlyChildrenMatter(links: seq<Link>, effective: Part -> Part, root: Part, start: seq<Edge>, i: nat,
                                              ancestry: set<Part>, level: nat, total: real)
    requires i <= |start| && PlainIdentities(links, effective, root)
    requires forall k :: 0 <= k < |start| ==> start[k].child in UsedParts(links, root) && effective(start[k].child) == start[k].child
    ensures WalkRows(ArenaNet(links, effective), start, i, ancestry, Children(links), level, total)
            == WalkRows(ArenaNet(links, Same), start, i, ancestry, Children(links), level, total)
    decreases |Children(links) - ancestry|, |start| - i
  {
    if i < |start| {
      var e := start[i];
      OnlyChildrenMatter(links, effective, root, start, i + 1, ancestry, level, total);
      WalkRowsStep(ArenaNet(links, effective), start, i, ancestry, Children(links), level, total);
      WalkRowsStep(ArenaNet(links, Same), start, i, ancestry, Children(links), level, total);
      if e.child !in ancestry && e.child in Children(links) {
        Shrinks(Children(links), ancestry, e.child);
        SameRowsBelow(links, effective, e.child);
        ChildrenPlain(links, effective, root, e.child);
        OnlyChildrenMatter(links, effective, root, ArenaNet(links, Same)(e.child), 0, ancestry + {e.child}, level + 1,
                           Times(total, e.weight));
      }
    }
  }

  lemma ChildrenPlain(links: seq<Link>, effective: Part -> Part, root: Part, p: Part)
    requires PlainIdentities(links, effective, root) && p in UsedParts(links, root)
    ensures ArenaNet(links, Same)(p) == ArenaEdges(Query(links, p))
    ensures forall k :: 0 <= k < |ArenaEdges(Query(links, p))| ==>
              var c := ArenaEdges(Query(links, p))[k].child; c in UsedParts(links, root) && effective(c) == c
  {
    NetsAt(links, p);
    EdgesShape(links, effective, root, p);
    forall k | 0 <= k < |ArenaEdges(Query(links, p))|
      ensures var c := ArenaEdges(Query(links, p))[k].child; c in UsedParts(links, root) && effective(c) == c
    {
      EdgesAt(links, effective, root, p, k);
    }
  }

  lemma NetsAt(links: seq<Link>, p: Part)
    ensures FlattenNet(links, NoStops)(p) == FlattenEdges(Query(links, p))
    ensures ArenaNet(links, Same)(p) == ArenaEdges(Query(links, p))
  {
    var effective: Part -> Part := Same;
    assert effective(p) == p;
    NoStopsAt(links, p);
    assert ArenaNet(links, effective)(p) == ArenaEdges(Query(links, effective(p)));
  }

  lemma NetsSideBySide(links: seq<Link>, effective: Part -> Part, root: Part)
    requires PlainIdentities(links, effective, root)
    ensures SameShape(UsedParts(links, root), FlattenNet(links, NoStops), ArenaNet(links, Same))
    ensures NoNegatives(links, root) ==> NetsBelow(UsedParts(links, root), FlattenNet(links, NoStops), ArenaNet(links, Same))
  {
    forall p | p in UsedParts(links, root)
      ensures Into(UsedParts(links, root), FlattenNet(links, NoStops)(p))
      ensures SameChildren(FlattenNet(links, NoStops)(p), ArenaNet(links, Same)(p))
      ensures NoNegatives(links, root) ==> Below(FlattenNet(links, NoStops)(p), ArenaNet(links, Same)(p))
    {
      NetsAt(links, p);
      EdgesShape(links, effective, root, p);
      if NoNegatives(links, root) {
        EdgesBelow(links, effective, root, p);
      }
    }
  }

  lemma {:induction false} SameShapeSamePaths(parts: iset<Part>, high: Net, low: Net, hs: seq<Edge>, ls: seq<Edge>, p: seq<nat>)
    requires SameShape(parts, high, low) && SameChildren(hs, ls) && Into(parts, hs)
    ensures IsPath(high, hs, p) <==> IsPath(low, ls, p)
    ensures Visits(high, hs, p) == Visits(low, ls, p)
    decreases |p|
  {
    if p != [] && p[0] < |hs| {
      var c := hs[p[0]].child;
      assert SameChildren(high(c), low(c));
      SameShapeSamePaths(parts, high, low, high(c), low(c), p[1..]);
    }
  }

  lemma RootNotReached(net: Net, start: seq<Edge>, root: Part, p: seq<nat>)
    requires Acyclic(net, start) && net(root) == start && IsPath(net, start, p)
    ensures Avoids(Visits(net, start, p), {root})
  {
    var v := Visits(net, start, p);
    if k :| 0 <= k < |v| && v[k] == root {
      VisitsLength(net, start, p);
      PathSplit(net, start, p, k + 1);
      var loop := p[..k + 1];
      EndsAtMeaning(net, start, loop, root);
      PathJoin(net, start, loop, root, loop);
      EndsAtMeaning(net, start, loop + loop, root);
      PathSplit(net, start, loop + loop, k + 1);
      assert (loop + loop)[..k + 1] == loop;
      var w := Visits(net, start, loop + loop);
      EndsAtMeaning(net, start, loop, w[k]);
      EndsAtMeaning(net, start, loop, root);
      assert false;
    }
  }

  lemma ArenaNetExpands(links: seq<Link>)
    ensures ExpandsWithin(ArenaNet(links, Same), Parents(links))
  {
    forall p ensures p !in Parents(links) ==> |ArenaNet(links, Same)(p)| == 0 {
      NoRows(links, p);
      NetsAt(links, p);
    }
  }

  /** On an acyclic BOM the export's rows stand for all the paths there are. */
  lemma ExportListsAllPaths(links: seq<Link>, effective: Part -> Part, root: Part)
    requires PlainIdentities(links, effective, root)
    requires Acyclic(FlattenNet(links, NoStops), Seeds(links, root))
    ensures ExportPaths(links, Same, root) == AllPaths(ArenaNet(links, Same), ArenaEdges(Query(links, root)), Parents(links))
    ensures Bounded(ArenaNet(links, Same), ArenaEdges(Query(links, root)), |Parents(links)| + 1)
  {
    var high, low := FlattenNet(links, NoStops), ArenaNet(links, Same);
    var hs, ls := Seeds(links, root), ArenaEdges(Query(links, root));
    NetsSideBySide(links, effective, root);
    EdgesShape(links, effective, root, root);
    forall p ensures IsPath(high, hs, p) <==> IsPath(low, ls, p)
             ensures Visits(high, hs, p) == Visits(low, ls, p)
    {
      SameShapeSamePaths(UsedParts(links, root), high, low, hs, ls, p);
    }
    assert Acyclic(low, ls);
    ArenaNetExpands(links);
    AcyclicIsBounded(low, ls, Parents(links));
    AllPathsExact(low, ls, Parents(links));
    ExportMeaning(links, Same, root);
    forall p ensures p in ExportPaths(links, Same, root) <==> p in AllPaths(low, ls, Parents(links)) {
      if IsPath(low, ls, p) {
        RootNotReached(low, ls, root, p);
      }
    }
    PreorderIsUnique(ExportPaths(links, Same, root), AllPaths(low, ls, Parents(links)));
  }

  /** A part's total quantities in the export add up to the path sum over the Arena net. */
  lemma ExportSumsPaths(links: seq<Link>, effective: Part -> Part, root: Part, t: Part)
    requires PlainIdentities(links, effective, root)
    requires Acyclic(FlattenNet(links, NoStops), Seeds(links, root))
    ensures SumTotals(ExportRows(links, effective, root), t)
            == Quantity(ArenaNet(links, Same), ArenaEdges(Query(links, root)), Parents(links), t)
  {
    OnlyChildrenMatterAtRoot(links, effective, root);
    ExportListsAllPaths(links, effective, root);
    ExportMeaning(links, Same, root);
    RowsSumPaths(ExportRows(links, Same, root), ArenaNet(links, Same), ArenaEdges(Query(links, root)),
                 ExportPaths(links, Same, root), t);
  }

  lemma OnlyChildrenMatterAtRoot(links: seq<Link>, effective: Part -> Part, root: Part)
    requires PlainIdentities(links, effective, root)
    ensures ExportRows(links, effective, root) == ExportRows(links, Same, root)
  {
    ChildrenPlain(links, effective, root, root);
    OnlyChildrenMatter(links, effective, root, ArenaEdges(Query(links, root)), 0, {root}, 0, 1.0);
  }

  lemma {:induction false} LighterAtEnd(parts: iset<Part>, high: Net, low: Net, hs: seq<Edge>, ls: seq<Edge>, p: seq<nat>,
                                        parent: Part, k: nat)
    requires EndsAt(high, hs, p, parent) && NetsBelow(parts, high, low) && Below(hs, ls) && Into(parts, hs)
    requires k < |low(parent)| == |high(parent)| && low(parent)[k].weight < high(parent)[k].weight
    ensures EndsLighter(high, low, hs, ls, p + [k], high(parent)[k].child) && IsPath(high, hs, p + [k])
    decreases |p|
  {
    var c := hs[p[0]].child;
    assert Below(high(c), low(c));
    assert (p + [k])[1..] == p[1..] + [k];
    if |p| == 1 {
      assert p[1..] + [k] == [k];
      PathStep(high, high(parent), k, []);
      assert [k] + [] == [k];
    } else {
      LighterAtEnd(parts, high, low, high(c), low(c), p[1..], parent, k);
    }
  }

  lemma UnquantifiedPath(links: seq<Link>, effective: Part -> Part, root: Part, l: Link) returns (path: seq<nat>)
    requires PlainIdentities(links, effective, root) && NoNegatives(links, root)
    requires InUse(links, root, l) && !Quantified(l)
    ensures EndsLighter(FlattenNet(links, NoStops), ArenaNet(links, Same), Seeds(links, root), ArenaEdges(Query(links, root)),
                        path, l.child)
    ensures IsPath(FlattenNet(links, NoStops), Seeds(links, root), path)
  {
    var high := FlattenNet(links, NoStops);
    var hs, ls := Seeds(links, root), ArenaEdges(Query(links, root));
    assert l in Query(links, l.parent);
    var k :| 0 <= k < |Query(links, l.parent)| && Query(links, l.parent)[k] == l;
    EdgesAt(links, effective, root, l.parent, k);
    WeightsAt(l);
    if l.parent == root {
      path := [k];
      PathStep(high, hs, k, []);
      assert [k] + [] == [k];
    } else {
      var p: seq<nat> :| EndsAt(high, hs, p, l.parent);
      UnquantifiedBelow(links, effective, root, l.parent, p, k);
      path := p + [k];
    }
  }

  lemma UnquantifiedBelow(links: seq<Link>, effective: Part -> Part, root: Part, parent: Part, p: seq<nat>, k: nat)
    requires PlainIdentities(links, effective, root) && NoNegatives(links, root)
    requires EndsAt(FlattenNet(links, NoStops), Seeds(links, root), p, parent)
    requires k < |Query(links, parent)| && !Quantified(Query(links, parent)[k])
    ensures EndsLighter(FlattenNet(links, NoStops), ArenaNet(links, Same), Seeds(links, root), ArenaEdges(Query(links, root)),
                        p + [k], Query(links, parent)[k].child)
    ensures IsPath(FlattenNet(links, NoStops), Seeds(links, root), p + [k])
  {
    EdgesAt(links, effective, root, parent, k);
    WeightsAt(Query(links, parent)[k]);
    NetsAt(links, parent);
    NetsSideBySide(links, effective, root);
    EdgesBelow(links, effective, root, root);
    LighterAtEnd(UsedParts(links, root), FlattenNet(links, NoStops), ArenaNet(links, Same), Seeds(links, root),
                 ArenaEdges(Query(links, root)), p, parent, k);
  }

  /** A link in use that is not quantified makes the two walks differ on its child. */
  lemma UnquantifiedShows(links: seq<Link>, effective: Part -> Part, root: Part, l: Link)
    requires PlainIdentities(links, effective, root) && NoNegatives(links, root)
    requires Acyclic(FlattenNet(links, NoStops), Seeds(links, root))
    requires InUse(links, root, l) && !Quantified(l)
    ensures SumTotals(ExportRows(links, effective, root), l.child)
            < Quantity(FlattenNet(links, NoStops), Seeds(links, root), Parents(links), l.child)
  {
    var d := |Parents(links)| + 1;
    var path := UnquantifiedPath(links, effective, root, l);
    assert |path| <= d by {
      FlattenNetExpands(links, NoStops);
      AcyclicIsBounded(FlattenNet(links, NoStops), Seeds(links, root), Parents(links));
    }
    UnquantifiedTotals(links, effective, root, l.child, path, d);
    ExportSumsPaths(links, effective, root, l.child);
    TotalIsPathSum(FlattenNet(links, NoStops), Seeds(links, root), 0, l.child, d);
    TotalIsPathSum(ArenaNet(links, Same), ArenaEdges(Query(links, root)), 0, l.child, d);
  }

  lemma UnquantifiedTotals(links: seq<Link>, effective: Part -> Part, root: Part, t: Part, path: seq<nat>, d: nat)
    requires PlainIdentities(links, effective, root) && NoNegatives(links, root)
    requires EndsLighter(FlattenNet(links, NoStops), ArenaNet(links, Same), Seeds(links, root), ArenaEdges(Query(links, root)),
                         path, t)
    requires |path| <= d
    ensures Total(ArenaNet(links, Same), ArenaEdges(Query(links, root)), 0, t, d)
            < Total(FlattenNet(links, NoStops), Seeds(links, root), 0, t, d)
  {
    NetsSideBySide(links, effective, root);
    EdgesBelow(links, effective, root, root);
    LighterEdgeShows(UsedParts(links, root), FlattenNet(links, NoStops), ArenaNet(links, Same), Seeds(links, root), ArenaEdges(Query(links, root)),
                     0, path, t, d);
  }

  lemma QuantifiedAgree(links: seq<Link>, effective: Part -> Part, root: Part, t: Part)
    requires PlainIdentities(links, effective, root) && NoNegatives(links, root)
    requires Acyclic(FlattenNet(links, NoStops), Seeds(links, root))
    requires forall l :: InUse(links, root, l) ==> Quantified(l)
    ensures SumTotals(ExportRows(links, effective, root), t)
            == Quantity(FlattenNet(links, NoStops), Seeds(links, root), Parents(links), t)
  {
    var high, low, d := FlattenNet(links, NoStops), ArenaNet(links, Same), |Parents(links)| + 1;
    var hs, ls := Seeds(links, root), ArenaEdges(Query(links, root));
    RowsInUseAgree(links, effective, root, root);
    assert hs == ls;
    forall p | p == root || Reaches(high, hs, p) ensures high(p) == low(p) {
      RowsInUseAgree(links, effective, root, p);
      NetsAt(links, p);
    }
    forall k | 0 <= k < |hs|
      ensures high(hs[k].child) == low(hs[k].child)
      ensures forall p :: Reaches(high, high(hs[k].child), p) ==> high(p) == low(p)
    {
      PathStep(high, hs, k, []);
      assert EndsAt(high, hs, [k], hs[k].child);
      forall p | Reaches(high, high(hs[k].child), p) ensures high(p) == low(p) {
        var path :| EndsAt(high, high(hs[k].child), path, p);
        PathStep(high, hs, k, path);
        assert EndsAt(high, hs, [k] + path, p);
      }
    }
    SameEdgesSameTotals(high, low, hs, 0, t, d);
    ExportSumsPaths(links, effective, root, t);
    TotalIsPathSum(high, hs, 0, t, d);
    TotalIsPathSum(low, ls, 0, t, d);
  }

  lemma RowsInUseAgree(links: seq<Link>, effective: Part -> Part, root: Part, p: Part)
    requires PlainIdentities(links, effective, root) && NoNegatives(links, root)
    requires forall l :: InUse(links, root, l) ==> Quantified(l)
    requires p == root || Reaches(FlattenNet(links, NoStops), Seeds(links, root), p)
    ensures FlattenEdges(Query(links, p)) == ArenaEdges(Query(links, p))
  {
    EdgesAt(links, effective, root, p, 0);
    forall k | 0 <= k < |Query(links, p)|
      ensures FlattenEdges(Query(links, p))[k] == ArenaEdges(Query(links, p))[k]
    {
      EdgesAt(links, effective, root, p, k);
      WeightsAt(Query(links, p)[k]);
    }
  }

  /** The Arena export and the flattened BOM agree on every part's quantity if and only if no link in use has a null
      or zero quantity: the flattening walk reads those as one, the Arena walk as zero. */
  lemma ArenaAgreesIffQuantified(links: seq<Link>, effective: Part -> Part, root: Part)
    requires PlainIdentities(links, effective, root) && NoNegatives(links, root)
    requires Acyclic(FlattenNet(links, NoStops), Seeds(links, root))
    ensures (forall t :: SumTotals(ExportRows(links, effective, root), t)
                         == Quantity(FlattenNet(links, NoStops), Seeds(links, root), Parents(links), t))
            <==> (forall l :: InUse(links, root, l) ==> Quantified(l))
  {
    if forall l :: InUse(links, root, l) ==> Quantified(l) {
      forall t ensures SumTotals(ExportRows(links, effective, root), t)
                       == Quantity(FlattenNet(links, NoStops), Seeds(links, root), Parents(links), t) {
        QuantifiedAgree(links, effective, root, t);
      }
    } else {
      var l :| InUse(links, root, l) && !Quantified(l);
      UnquantifiedShows(links, effective, root, l);
    }
  }
}
