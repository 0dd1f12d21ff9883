/** The Arena BOM export: one row per path that repeats no part (app/services/arena_export.py). */
module ArenaWalk {
  import opened Wrappers
  import opened BomPaths
  import opened BomLinks

  datatype Row = Row(part: Part, level: nat, quantity: real, total: real)

  /** The rows the walk looks at: a child without a part number is passed over. */
  function Named(rows: seq<Link>): seq<Link> {
    if rows == [] then []
    else if rows[0].child.pn == "" then Named(rows[1..])
    else [rows[0]] + Named(rows[1..])
  }

  function ArenaEdges(rows: seq<Link>): seq<Edge> {
    var named := Named(rows);
    seq(|named|, i requires 0 <= i < |named| => Edge(named[i].child, ArenaQty(named[i])))
  }

  /** Below a part the walk follows the rows stored under the part's effective revision. */
  function ArenaNet(links: seq<Link>, effective: Part -> Part): Net {
    p => ArenaEdges(Query(links, effective(p)))
  }

  /** What the export reads: an edge for each row whose child has a part number, in stored order, a null quantity as
      zero. */
  lemma ArenaReads(a: seq<Link>, b: seq<Link>, l: Link, q: real)
    ensures ArenaEdges(a + b) == ArenaEdges(a) + ArenaEdges(b)
    ensures l.child.pn == "" ==> ArenaEdges([l]) == []
    ensures l.child.pn != "" && l.qty == None ==> ArenaEdges([l]) == [Edge(l.child, 0.0)]
    ensures l.child.pn != "" && l.qty == Some(q) ==> ArenaEdges([l]) == [Edge(l.child, q)]
  {
    NamedConcat(a, b);
    assert Named([l][1..]) == [];
    assert Named([l]) == if l.child.pn == "" then [] else [l];
  }

  // ----- The specification: paths that repeat no part -----

  ghost predicate Avoids(visits: seq<Part>, ancestry: set<Part>) {
    forall p :: p in visits ==> p !in ancestry
  }

  /** A non-empty path that enters no part twice and none of the ancestry. */
  ghost predicate IsSimple(net: Net, start: seq<Edge>, ancestry: set<Part>, path: seq<nat>) {
    && path != [] && IsPath(net, start, path)
    && NoRepeat(Visits(net, start, path)) && Avoids(Visits(net, start, path), ancestry)
  }

  /** Every child in the net is one of these parts. */
  ghost predicate ChildrenWithin(net: Net, start: seq<Edge>, all: set<Part>) {
    && (forall e :: e in start ==> e.child in all)
    && (forall p, e :: e in net(p) ==> e.child in all)
  }

  /** All simple paths whose first step is at index i or later, in preorder. */
  ghost function SimplePaths(net: Net, start: seq<Edge>, i: nat, ancestry: set<Part>, all: set<Part>): seq<seq<nat>>
    requires i <= |start|
    decreases |all - ancestry|, |start| - i
  {
    if i == |start| then []
    else if start[i].child in ancestry || start[i].child !in all then SimplePaths(net, start, i + 1, ancestry, all)
    else
      var c := start[i].child;
      Shrinks(all, ancestry, c);
      [[i]] + Under(i, SimplePaths(net, net(c), 0, ancestry + {c}, all)) + SimplePaths(net, start, i + 1, ancestry, all)
  }

  lemma Shrinks(all: set<Part>, ancestry: set<Part>, c: Part)
    requires c in all && c !in ancestry
    ensures |all - (ancestry + {c})| < |all - ancestry|
  {
    assert all - ancestry == (all - (ancestry + {c})) + {c};
  }

  lemma SimpleStep(net: Net, start: seq<Edge>, ancestry: set<Part>, i: nat, q: seq<nat>)
    requires i < |start|
    ensures var c := start[i].child;
            IsSimple(net, start, ancestry, [i] + q)
            <==> c !in ancestry && (q == [] || IsSimple(net, net(c), ancestry + {c}, q))
  {
    var c := start[i].child;
    var v, w := Visits(net, start, [i] + q), Visits(net, net(c), q);
    PathStep(net, start, i, q);
    assert ([i] + q)[1..] == q;
    assert v == [c] + w;
    if IsSimple(net, start, ancestry, [i] + q) {
      assert v[0] == c;
      assert forall k :: 0 <= k < |w| ==> w[k] == v[k + 1] && w[k] in v;
    }
    if c !in ancestry && IsSimple(net, net(c), ancestry + {c}, q) {
      assert forall k :: 0 <= k < |w| ==> w[k] in w;
    }
  }

  /** The list holds exactly the simple paths. */
  lemma {:induction false} SimplePathsMember(net: Net, start: seq<Edge>, i: nat, ancestry: set<Part>, all: set<Part>, p: seq<nat>)
    requires i <= |start| && ChildrenWithin(net, start, all)
    ensures p in SimplePaths(net, start, i, ancestry, all) <==> IsSimple(net, start, ancestry, p) && i <= p[0]
    decreases |all - ancestry|, |start| - i
  {
    if i < |start| {
      var c := start[i].child;
      SimplePathsMember(net, start, i + 1, ancestry, all, p);
      if p != [] && p[0] == i {
        assert p == [i] + p[1..];
        SimpleStep(net, start, ancestry, i, p[1..]);
      }
      if c !in ancestry {
        Shrinks(all, ancestry, c);
        var inner := SimplePaths(net, net(c), 0, ancestry + {c}, all);
        var later := SimplePaths(net, start, i + 1, ancestry, all);
        InUnder(i, inner, p);
        if p != [] {
          SimplePathsMember(net, net(c), 0, ancestry + {c}, all, p[1..]);
        }
        assert p in SimplePaths(net, start, i, ancestry, all) <==> p == [i] || p in Under(i, inner) || p in later;
      }
    }
  }

  lemma {:induction false} SimplePathsInPreorder(net: Net, start: seq<Edge>, i: nat, ancestry: set<Part>, all: set<Part>)
    requires i <= |start| && ChildrenWithin(net, start, all)
    ensures InPreorder(SimplePaths(net, start, i, ancestry, all))
    decreases |all - ancestry|, |start| - i
  {
    if i < |start| {
      var c := start[i].child;
      SimplePathsInPreorder(net, start, i + 1, ancestry, all);
      if c !in ancestry {
        Shrinks(all, ancestry, c);
        var inner := SimplePaths(net, net(c), 0, ancestry + {c}, all);
        var later := SimplePaths(net, start, i + 1, ancestry, all);
        SimplePathsInPreorder(net, net(c), 0, ancestry + {c}, all);
        forall p | p in inner ensures p != [] {
          SimplePathsMember(net, net(c), 0, ancestry + {c}, all, p);
        }
        forall p | p in later ensures p != [] && i < p[0] {
          SimplePathsMember(net, start, i + 1, ancestry, all, p);
        }
        PreorderJoin(i, inner, later);
      }
    }
  }

  /** Multiplication under a name, so that equal factors are seen to give equal products. */
  function Times(a: real, b: real): real {
    a * b
  }

  /** The row a path stands for: the part it ends at, its length as the level, the last edge's quantity, and the
      product along it. */
  ghost function RowFor(net: Net, start: seq<Edge>, path: seq<nat>, level: nat, total: real): Row
    decreases |path|
  {
    if path == [] || |start| <= path[0] then Row(Part("", ""), level, 0.0, total)
    else
      var e := start[path[0]];
      if |path| == 1 then Row(e.child, level + 1, e.weight, Times(total, e.weight))
      else RowFor(net, net(e.child), path[1..], level + 1, Times(total, e.weight))
  }

  lemma {:induction false} RowMeaning(net: Net, start: seq<Edge>, path: seq<nat>, level: nat, total: real)
    requires path != [] && IsPath(net, start, path)
    ensures var r := RowFor(net, start, path, level, total);
            && EndsAt(net, start, path, r.part)
            && r.level == level + |path|
            && r.total == total * Product(net, start, path)
    decreases |path|
  {
    var e := start[path[0]];
    if |path| > 1 {
      var extended := Times(total, e.weight);
      RowMeaning(net, net(e.child), path[1..], level + 1, extended);
      assert RowFor(net, start, path, level, total) == RowFor(net, net(e.child), path[1..], level + 1, extended);
      Associate(total, e.weight, Product(net, net(e.child), path[1..]));
    } else {
      assert Product(net, net(e.child), path[1..]) == 1.0;
    }
  }

  lemma Associate(a: real, b: real, c: real)
    ensures (a * b) * c == a * (b * c)
  {
  }

  ghost function RowsFor(net: Net, start: seq<Edge>, paths: seq<seq<nat>>, level: nat, total: real): seq<Row> {
    seq(|paths|, k requires 0 <= k < |paths| => RowFor(net, start, paths[k], level, total))
  }

  // ----- The walk -----

  /** The rows of the walk from index i on, written as the walk produces them. */
  ghost function WalkRows(net: Net, start: seq<Edge>, i: nat, ancestry: set<Part>, all: set<Part>, level: nat, total: real): seq<Row>
    requires i <= |start|
    decreases |all - ancestry|, |start| - i
  {
    if i == |start| then []
    else if start[i].child in ancestry || start[i].child !in all then
      WalkRows(net, start, i + 1, ancestry, all, level, total)
    else
      var e := start[i];
      Shrinks(all, ancestry, e.child);
      [Row(e.child, level + 1, e.weight, Times(total, e.weight))]
      + WalkRows(net, net(e.child), 0, ancestry + {e.child}, all, level + 1, Times(total, e.weight))
      + WalkRows(net, start, i + 1, ancestry, all, level, total)
  }

  lemma RowForUnder(net: Net, start: seq<Edge>, i: nat, q: seq<nat>, level: nat, total: real, extended: real)
    requires i < |start| && q != [] && extended == Times(total, start[i].weight)
    ensures RowFor(net, start, [i] + q, level, total) == RowFor(net, net(start[i].child), q, level + 1, extended)
  {
    assert ([i] + q)[1..] == q;
  }

  lemma RowsForUnder(net: Net, start: seq<Edge>, i: nat, inner: seq<seq<nat>>, later: seq<seq<nat>>, level: nat,
                     total: real, extended: real)
    requires i < |start| && forall k :: 0 <= k < |inner| ==> inner[k] != []
    requires extended == Times(total, start[i].weight)
    ensures var e := start[i];
            RowsFor(net, start, [[i]] + Under(i, inner) + later, level, total)
            == [Row(e.child, level + 1, e.weight, extended)]
               + RowsFor(net, net(e.child), inner, level + 1, extended)
               + RowsFor(net, start, later, level, total)
  {
    var below := Under(i, inner);
    forall k | 0 <= k < |inner|
      ensures RowsFor(net, start, below, level, total)[k]
              == RowsFor(net, net(start[i].child), inner, level + 1, extended)[k]
    {
      assert below[k] == [i] + inner[k];
      RowForUnder(net, start, i, inner[k], level, total, extended);
    }
    assert RowsFor(net, start, below, level, total) == RowsFor(net, net(start[i].child), inner, level + 1, extended);
    assert RowsFor(net, start, [[i]], level, total) == [Row(start[i].child, level + 1, start[i].weight, extended)];
    RowsForAppend(net, start, [[i]], below, level, total);
    RowsForAppend(net, start, [[i]] + below, later, level, total);
  }

  lemma RowsForAppend(net: Net, start: seq<Edge>, a: seq<seq<nat>>, b: seq<seq<nat>>, level: nat, total: real)
    ensures RowsFor(net, start, a + b, level, total) == RowsFor(net, start, a, level, total) + RowsFor(net, start, b, level, total)
  {
  }

  lemma {:induction false} WalkRowsArePaths(net: Net, start: seq<Edge>, i: nat, ancestry: set<Part>, all: set<Part>,
                                            level: nat, total: real)
    requires i <= |start| && ChildrenWithin(net, start, all)
    ensures WalkRows(net, start, i, ancestry, all, level, total)
            == RowsFor(net, start, SimplePaths(net, start, i, ancestry, all), level, total)
    decreases |all - ancestry|, |start| - i
  {
    if i < |start| {
      var e := start[i];
      WalkRowsArePaths(net, start, i + 1, ancestry, all, level, total);
      if e.child !in ancestry {
        Shrinks(all, ancestry, e.child);
        var inner := SimplePaths(net, net(e.child), 0, ancestry + {e.child}, all);
        var extended := Times(total, e.weight);
        WalkRowsArePaths(net, net(e.child), 0, ancestry + {e.child}, all, level + 1, extended);
        forall k | 0 <= k < |inner| ensures inner[k] != [] {
          SimplePathsMember(net, net(e.child), 0, ancestry + {e.child}, all, inner[k]);
        }
        RowsForUnder(net, start, i, inner, SimplePaths(net, start, i + 1, ancestry, all), level, total, extended);
        assert WalkRows(net, start, i, ancestry, all, level, total)
               == [Row(e.child, level + 1, e.weight, extended)]
                  + WalkRows(net, net(e.child), 0, ancestry + {e.child}, all, level + 1, extended)
                  + WalkRows(net, start, i + 1, ancestry, all, level, total);
      }
    }
  }

  /** The rows one edge contributes: none if it leads back into the ancestry, else its own and those below. */
  ghost function EdgeRows(net: Net, e: Edge, ancestry: set<Part>, all: set<Part>, level: nat, total: real): seq<Row> {
    if e.child in ancestry || e.child !in all then []
    else
      [Row(e.child, level + 1, e.weight, Times(total, e.weight))]
      + WalkRows(net, net(e.child), 0, ancestry + {e.child}, all, level + 1, Times(total, e.weight))
  }

  lemma WalkRowsStep(net: Net, start: seq<Edge>, i: nat, ancestry: set<Part>, all: set<Part>, level: nat, total: real)
    requires i < |start|
    ensures WalkRows(net, start, i, ancestry, all, level, total)
            == EdgeRows(net, start[i], ancestry, all, level, total) + WalkRows(net, start, i + 1, ancestry, all, level, total)
  {
  }

  lemma EdgeAllowed(row: Row, rest: seq<Row>, allowed: Part -> bool)
    ensures AllAllowed([row] + rest, allowed) <==> allowed(row.part) && AllAllowed(rest, allowed)
  {
    AllowedConcat([row], rest, allowed);
    assert [row][0] == row;
  }

  lemma Regroup(a: seq<Row>, b: seq<Row>, c: seq<Row>)
    ensures (a + b) + c == a + (b + c)
  {
  }

  lemma SetOfPush(parts: seq<Part>, p: Part)
    ensures SetOf(parts + [p]) == SetOf(parts) + {p}
  {
  }

  ghost predicate AllAllowed(rows: seq<Row>, allowed: Part -> bool) {
    forall k :: 0 <= k < |rows| ==> allowed(rows[k].part)
  }

  lemma AllowedConcat(a: seq<Row>, b: seq<Row>, allowed: Part -> bool)
    ensures AllAllowed(a + b, allowed) <==> AllAllowed(a, allowed) && AllAllowed(b, allowed)
  {
    if AllAllowed(a + b, allowed) {
      assert forall k :: 0 <= k < |a| ==> a[k] == (a + b)[k];
      assert forall k :: 0 <= k < |b| ==> b[k] == (a + b)[|a| + k];
    }
  }

  /** One export in progress; the recursion appends to the row list. */
  class ArenaExport {
    const links: seq<Link>
    const effective: Part -> Part
    const allowed: Part -> bool
    var rows: seq<Row>

    constructor (links: seq<Link>, effective: Part -> Part, allowed: Part -> bool)
      ensures this.links == links && this.effective == effective && this.allowed == allowed && rows == []
    {
      this.links, this.effective, this.allowed := links, effective, allowed;
      rows := [];
    }

    /** Walk below one parent. The result is false when a part outside the export's scope was met, which ends
        the export. */
    method Walk(parent: Part, level: nat, ancestry: seq<Part>, total: real) returns (ok: bool)
      modifies this
      ensures var below := WalkRows(ArenaNet(links, effective), ArenaEdges(Query(links, parent)), 0, SetOf(ancestry),
                                    Children(links), level, total);
              && (ok <==> AllAllowed(below, allowed))
              && (ok ==> rows == old(rows) + below)
      decreases |Children(links) - SetOf(ancestry)|, 1
    {
      var found := Query(links, parent);
      ghost var left := WalkRows(ArenaNet(links, effective), ArenaEdges(found), 0, SetOf(ancestry), Children(links), level, total);
      ghost var here := left;
      for n := 0 to |found|
        invariant |Named(found[..n])| <= |ArenaEdges(found)|
        invariant left == WalkRows(ArenaNet(links, effective), ArenaEdges(found), |Named(found[..n])|, SetOf(ancestry),
                                   Children(links), level, total)
        invariant old(rows) + here == rows + left && (AllAllowed(here, allowed) <==> AllAllowed(left, allowed))
      {
        NamedStep(found, n);
        if found[n].child.pn != "" {
          ghost var below, rest := NextRow(found, n, SetOf(ancestry), level, total, left);
          AllowedConcat(below, rest, allowed);
          Regroup(rows, below, rest);
          var inScope := Visit(found[n], level, ancestry, total);
          if !inScope {
            return false;
          }
          left := rest;
        }
      }
      WalkEnds(found, SetOf(ancestry), level, total);
      ok := true;
    }

    /** What is left to write splits into the rows of the next edge and the rest. */
    lemma NextRow(found: seq<Link>, n: nat, above: set<Part>, level: nat, total: real, left: seq<Row>)
      returns (below: seq<Row>, rest: seq<Row>)
      requires n < |found| && found[n].child.pn != "" && |Named(found[..n])| <= |ArenaEdges(found)|
      requires left == WalkRows(ArenaNet(links, effective), ArenaEdges(found), |Named(found[..n])|, above, Children(links),
                                level, total)
      ensures |Named(found[..n + 1])| == |Named(found[..n])| + 1 <= |ArenaEdges(found)|
      ensures left == below + rest
      ensures below == EdgeRows(ArenaNet(links, effective), Edge(found[n].child, ArenaQty(found[n])), above, Children(links),
                                level, total)
      ensures rest == WalkRows(ArenaNet(links, effective), ArenaEdges(found), |Named(found[..n + 1])|, above, Children(links),
                               level, total)
    {
      NamedStep(found, n);
      var net, start, i := ArenaNet(links, effective), ArenaEdges(found), |Named(found[..n])|;
      WalkRowsStep(net, start, i, above, Children(links), level, total);
      below := EdgeRows(net, start[i], above, Children(links), level, total);
      rest := WalkRows(net, start, i + 1, above, Children(links), level, total);
    }

    lemma WalkEnds(found: seq<Link>, above: set<Part>, level: nat, total: real)
      ensures found[..|found|] == found && |Named(found)| == |ArenaEdges(found)|
      ensures WalkRows(ArenaNet(links, effective), ArenaEdges(found), |Named(found)|, above, Children(links), level, total) == []
    {
    }

    /** Follow one row: a child already in the ancestry is passed over, which is what makes the walk end on cycles. */
    method Visit(l: Link, level: nat, ancestry: seq<Part>, total: real) returns (ok: bool)
      requires l in links
      modifies this
      ensures var below := EdgeRows(ArenaNet(links, effective), Edge(l.child, ArenaQty(l)), SetOf(ancestry), Children(links),
                                    level, total);
              && (ok <==> AllAllowed(below, allowed))
              && (ok ==> rows == old(rows) + below)
      decreases |Children(links) - SetOf(ancestry)|, 0
    {
      if l.child in ancestry {
        return true;
      }
      ghost var net, above := ArenaNet(links, effective), SetOf(ancestry);
      var quantity := ArenaQty(l);
      var extended := Times(total, quantity);
      ghost var row := Row(l.child, level + 1, quantity, extended);
      ghost var rest := WalkRows(net, net(l.child), 0, above + {l.child}, Children(links), level + 1, extended);
      EdgeAllowed(row, rest, allowed);
      ghost var below := EdgeRows(net, Edge(l.child, quantity), above, Children(links), level, total);
      assert below == [row] + rest;
      if !allowed(l.child) {
        return false;
      }
      rows := rows + [Row(l.child, level + 1, quantity, extended)];
      Shrinks(Children(links), above, l.child);
      SetOfPush(ancestry, l.child);
      Regroup(old(rows), [row], rest);
      ok := Walk(effective(l.child), level + 1, ancestry + [l.child], extended);
    }
  }

  function SetOf(parts: seq<Part>): set<Part> {
    set p | p in parts
  }

  lemma {:induction false} NamedConcat(a: seq<Link>, b: seq<Link>)
    ensures Named(a + b) == Named(a) + Named(b)
    decreases |a|
  {
    if a == [] {
      assert a + b == b;
    } else {
      assert (a + b)[1..] == a[1..] + b;
      NamedConcat(a[1..], b);
    }
  }

  lemma NamedStep(rows: seq<Link>, n: nat)
    requires n < |rows|
    ensures Named(rows[..n + 1]) == Named(rows[..n]) + (if rows[n].child.pn == "" then [] else [rows[n]])
    ensures |Named(rows[..n + 1])| <= |Named(rows)|
    ensures rows[n].child.pn != "" ==> ArenaEdges(rows)[|Named(rows[..n])|] == Edge(rows[n].child, ArenaQty(rows[n]))
  {
    assert rows[..n + 1] == rows[..n] + [rows[n]];
    assert rows == rows[..n + 1] + rows[n + 1..];
    NamedConcat(rows[..n], [rows[n]]);
    NamedConcat(rows[..n + 1], rows[n + 1..]);
    assert [rows[n]][1..] == [];
  }

  // ----- What the export returns -----

  lemma {:induction false} NamedIn(rows: seq<Link>, l: Link)
    ensures l in Named(rows) <==> l in rows && l.child.pn != ""
  {
    if rows != [] {
      NamedIn(rows[1..], l);
    }
  }

  lemma ArenaChildrenWithin(links: seq<Link>, effective: Part -> Part, root: Part)
    ensures ChildrenWithin(ArenaNet(links, effective), ArenaEdges(Query(links, root)), Children(links))
  {
    forall p, e | e in ArenaEdges(Query(links, p)) ensures e.child in Children(links) {
      var named := Named(Query(links, p));
      var k :| 0 <= k < |named| && e == Edge(named[k].child, ArenaQty(named[k]));
      NamedIn(Query(links, p), named[k]);
      assert named[k] in links;
    }
    forall p, e | e in ArenaNet(links, effective)(p) ensures e.child in Children(links) {
      assert e in ArenaEdges(Query(links, effective(p)));
    }
  }

  /** What the rows of a finished export must be: one for every path that repeats no part and does not re-enter the
      root, in preorder, with the path's length as level and the product along it as total quantity. */
  ghost predicate IsArenaExport(rows: seq<Row>, net: Net, start: seq<Edge>, root: Part, paths: seq<seq<nat>>) {
    && InPreorder(paths) && NoRepeat(paths)
    && (forall p :: p in paths <==> IsSimple(net, start, {root}, p))
    && |rows| == |paths|
    && (forall k :: 0 <= k < |rows| ==>
          && EndsAt(net, start, paths[k], rows[k].part)
          && rows[k].level == |paths[k]|
          && rows[k].total == Product(net, start, paths[k]))
  }

  /** A path the export would follow leads to this part. */
  ghost predicate Follows(net: Net, start: seq<Edge>, root: Part, t: Part) {
    exists p :: IsSimple(net, start, {root}, p) && EndsAt(net, start, p, t)
  }

  /** `build_arena_bom_csv` below the root row. It ends on every finite link list, cyclic ones included; it fails
      exactly when a path it follows leads to a part outside the scope. */
  method ExportArena(links: seq<Link>, effective: Part -> Part, allowed: Part -> bool, root: Part)
    returns (r: Option<seq<Row>>, ghost paths: seq<seq<nat>>)
    ensures r.None? <==> exists t :: Follows(ArenaNet(links, effective), ArenaEdges(Query(links, root)), root, t) && !allowed(t)
    ensures r.Some? ==> IsArenaExport(r.value, ArenaNet(links, effective), ArenaEdges(Query(links, root)), root, paths)
    ensures r.Some? ==> r.value == ExportRows(links, effective, root)
  {
    paths := ExportPaths(links, effective, root);
    assert SetOf([root]) == {root};
    ExportMeaning(links, effective, root);
    forall t {
      ExportFollows(links, effective, root, t);
    }
    var walk := new ArenaExport(links, effective, allowed);
    var ok := walk.Walk(root, 0, [root], 1.0);
    if ok {
      assert walk.rows == ExportRows(links, effective, root);
      r := Some(walk.rows);
    } else {
      r := None;
    }
  }

  ghost function ExportPaths(links: seq<Link>, effective: Part -> Part, root: Part): seq<seq<nat>> {
    SimplePaths(ArenaNet(links, effective), ArenaEdges(Query(links, root)), 0, {root}, Children(links))
  }

  ghost function ExportRows(links: seq<Link>, effective: Part -> Part, root: Part): seq<Row> {
    WalkRows(ArenaNet(links, effective), ArenaEdges(Query(links, root)), 0, {root}, Children(links), 0, 1.0)
  }

  lemma ExportMeaning(links: seq<Link>, effective: Part -> Part, root: Part)
    ensures IsArenaExport(ExportRows(links, effective, root), ArenaNet(links, effective), ArenaEdges(Query(links, root)),
                          root, ExportPaths(links, effective, root))
  {
    var net, start := ArenaNet(links, effective), ArenaEdges(Query(links, root));
    var paths, rows := ExportPaths(links, effective, root), ExportRows(links, effective, root);
    ArenaChildrenWithin(links, effective, root);
    WalkRowsArePaths(net, start, 0, {root}, Children(links), 0, 1.0);
    SimplePathsInPreorder(net, start, 0, {root}, Children(links));
    PreorderIsDistinct(paths);
    forall p ensures p in paths <==> IsSimple(net, start, {root}, p) {
      SimplePathsMember(net, start, 0, {root}, Children(links), p);
    }
    forall k | 0 <= k < |rows|
      ensures EndsAt(net, start, paths[k], rows[k].part)
      ensures rows[k].level == |paths[k]|
      ensures rows[k].total == Product(net, start, paths[k])
    {
      assert paths[k] in paths;
      RowMeaning(net, start, paths[k], 0, 1.0);
    }
  }

  lemma ExportRow(links: seq<Link>, effective: Part -> Part, root: Part, k: nat)
    ensures |ExportRows(links, effective, root)| == |ExportPaths(links, effective, root)|
    ensures k < |ExportRows(links, effective, root)| ==>
              && IsSimple(ArenaNet(links, effective), ArenaEdges(Query(links, root)), {root}, ExportPaths(links, effective, root)[k])
              && EndsAt(ArenaNet(links, effective), ArenaEdges(Query(links, root)), ExportPaths(links, effective, root)[k],
                        ExportRows(links, effective, root)[k].part)
  {
    ExportMeaning(links, effective, root);
    if k < |ExportRows(links, effective, root)| {
      assert ExportPaths(links, effective, root)[k] in ExportPaths(links, effective, root);
    }
  }

  lemma ExportPath(links: seq<Link>, effective: Part -> Part, root: Part, p: seq<nat>) returns (k: nat)
    requires IsSimple(ArenaNet(links, effective), ArenaEdges(Query(links, root)), {root}, p)
    ensures k < |ExportPaths(links, effective, root)| && ExportPaths(links, effective, root)[k] == p
  {
    ArenaChildrenWithin(links, effective, root);
    SimplePathsMember(ArenaNet(links, effective), ArenaEdges(Query(links, root)), 0, {root}, Children(links), p);
    k :| 0 <= k < |ExportPaths(links, effective, root)| && ExportPaths(links, effective, root)[k] == p;
  }

  /** Every part the export follows has a row, and every row is of such a part. */
  lemma ExportFollows(links: seq<Link>, effective: Part -> Part, root: Part, t: Part)
    ensures Follows(ArenaNet(links, effective), ArenaEdges(Query(links, root)), root, t)
            <==> exists k :: 0 <= k < |ExportRows(links, effective, root)| && ExportRows(links, effective, root)[k].part == t
  {
    var net, start := ArenaNet(links, effective), ArenaEdges(Query(links, root));
    var rows := ExportRows(links, effective, root);
    if k :| 0 <= k < |rows| && rows[k].part == t {
      ExportRow(links, effective, root, k);
    }
    if p :| IsSimple(net, start, {root}, p) && EndsAt(net, start, p, t) {
      var k := ExportPath(links, effective, root, p);
      ExportRow(links, effective, root, k);
      EndsAtMeaning(net, start, p, t);
      EndsAtMeaning(net, start, p, rows[k].part);
    }
  }
}
