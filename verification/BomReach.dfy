/** The walks that collect a set of parts: the level-batched search that bounds an export
    (app/services/export_security.py) and the depth-first collection (app/services/arena_export.py). */
module BomReach {
  import opened Wrappers
  import opened BomPaths
  import opened BomLinks
  import opened StackWalk
  import opened ArenaWalk
  import opened ArenaAgreement
  import opened FlattenBom

  /** Every row leads on from its parent to its child, except rows whose child has no part number. */
  function NamedNet(links: seq<Link>): Net {
    p => ArenaEdges(Query(links, p))
  }

  /** The root and everything below it. */
  ghost predicate InTree(links: seq<Link>, root: Part, t: Part) {
    AtOrBelow(NamedNet(links), root, t)
  }

  ghost predicate Leads(links: seq<Link>, p: Part, c: Part) {
    exists l :: l in links && l.parent == p && l.child == c && c.pn != ""
  }

  ghost predicate ClosedAt(links: seq<Link>, p: Part, found: set<Part>) {
    forall c :: Leads(links, p, c) ==> c in found
  }

  lemma LeadsEdge(links: seq<Link>, p: Part, c: Part)
    ensures Leads(links, p, c) <==> exists k :: 0 <= k < |NamedNet(links)(p)| && NamedNet(links)(p)[k].child == c
  {
    var rows := Named(Query(links, p));
    assert NamedNet(links)(p) == ArenaEdges(Query(links, p));
    if l :| l in links && l.parent == p && l.child == c && c.pn != "" {
      NamedIn(Query(links, p), l);
      var k :| 0 <= k < |rows| && rows[k] == l;
      assert NamedNet(links)(p)[k].child == c;
    }
    if k :| 0 <= k < |NamedNet(links)(p)| && NamedNet(links)(p)[k].child == c {
      NamedIn(Query(links, p), rows[k]);
      assert Leads(links, p, c);
    }
  }

  lemma ChildInTree(links: seq<Link>, p: Part, c: Part)
    requires Leads(links, p, c)
    ensures exists k :: EndsAt(NamedNet(links), NamedNet(links)(p), [k], c)
    ensures InTree(links, p, c)
  {
    var net := NamedNet(links);
    LeadsEdge(links, p, c);
    var k :| 0 <= k < |net(p)| && net(p)[k].child == c;
    PathStep(net, net(p), k, []);
    assert EndsAt(net, net(p), [k], c);
  }

  /** The tree of a part in the tree is in the tree. */
  lemma TreeTransitive(links: seq<Link>, root: Part, p: Part, c: Part)
    requires InTree(links, root, p) && InTree(links, p, c)
    ensures InTree(links, root, c)
  {
    var net := NamedNet(links);
    if p != root && c != p {
      var a :| EndsAt(net, net(root), a, p);
      var b :| EndsAt(net, net(p), b, c);
      EndsAtMeaning(net, net(p), b, c);
      PathJoin(net, net(root), a, p, b);
      assert EndsAt(net, net(root), a + b, c);
    }
  }

  /** What is in the tree stays in the tree one step further down. */
  lemma TreeGrows(links: seq<Link>, root: Part, p: Part, c: Part)
    requires InTree(links, root, p) && Leads(links, p, c)
    ensures InTree(links, root, c)
  {
    ChildInTree(links, p, c);
    TreeTransitive(links, root, p, c);
  }

  /** A set that holds the root and is closed under rows holds the whole tree. */
  lemma {:induction false} ClosedHoldsPath(links: seq<Link>, start: Part, path: seq<nat>, t: Part, found: set<Part>)
    requires start in found && forall p :: p in found ==> ClosedAt(links, p, found)
    requires EndsAt(NamedNet(links), NamedNet(links)(start), path, t)
    ensures t in found
    decreases |path|
  {
    var c := NamedNet(links)(start)[path[0]].child;
    LeadsEdge(links, start, c);
    if |path| > 1 {
      ClosedHoldsPath(links, c, path[1..], t, found);
    }
  }

  lemma ClosedHoldsTree(links: seq<Link>, root: Part, found: set<Part>)
    requires root in found && forall p :: p in found ==> ClosedAt(links, p, found)
    ensures forall t :: InTree(links, root, t) ==> t in found
  {
    forall t | InTree(links, root, t) ensures t in found {
      if t != root {
        var path :| EndsAt(NamedNet(links), NamedNet(links)(root), path, t);
        ClosedHoldsPath(links, root, path, t, found);
      }
    }
  }

  // ----- Breadth first, one query per level -----

  /** What one level of the search leaves behind: found grew by children of the frontier only, and everything new is
      on the next frontier when the search goes on. */
  ghost predicate LevelDone(links: seq<Link>, n: nat, wanted: set<Part>, before: set<Part>, found: set<Part>, next: seq<Part>,
                            full: bool)
  {
    && n <= |links| && before <= found
    && (forall c :: c in found ==> c in before || exists p :: p in wanted && Leads(links, p, c))
    && (forall k :: 0 <= k < n && links[k].parent in wanted && links[k].child.pn != "" ==> links[k].child in found)
    && (full ==> forall c :: c in next <==> c in found && c !in before)
    && (!full ==> next == [])
  }

  /** Expand one level. The batched query returns the rows of every revision of the frontier's part numbers; the
      exact pair is checked row by row. */
  method ExpandLevel(links: seq<Link>, frontier: seq<Part>, before: set<Part>, full: bool)
    returns (found: set<Part>, next: seq<Part>)
    requires forall p :: p in frontier ==> p.pn != ""
    ensures LevelDone(links, |links|, SetOf(frontier), before, found, next, full)
  {
    var names := set p | p in frontier :: p.pn;
    var wanted := SetOf(frontier);
    found, next := before, [];
    for n := 0 to |links|
      invariant LevelDone(links, n, wanted, before, found, next, full)
    {
      var l := links[n];
      if l.parent.pn !in names || l.parent !in wanted || l.child.pn == "" || l.child in found {
        continue;
      }
      assert Leads(links, l.parent, l.child);
      found := found + {l.child};
      if full {
        next := next + [l.child];
      }
    }
  }

  /** What the search keeps: only the tree is found, and everything found is either expanded or on the frontier. */
  ghost predicate Searching(links: seq<Link>, root: Part, found: set<Part>, frontier: seq<Part>) {
    && root in found && (forall p :: p in frontier ==> p in found && p.pn != "")
    && found <= {root} + Children(links)
    && (forall p :: p in found ==> InTree(links, root, p))
    && (forall p :: p in found && p !in frontier ==> ClosedAt(links, p, found))
  }

  lemma LevelKeepsSearching(links: seq<Link>, root: Part, found: set<Part>, frontier: seq<Part>, found': set<Part>,
                            next: seq<Part>)
    requires Searching(links, root, found, frontier)
    requires LevelDone(links, |links|, SetOf(frontier), found, found', next, true)
    ensures Searching(links, root, found', next)
    ensures next != [] ==> |{root} + Children(links) - found'| < |{root} + Children(links) - found|
  {
    forall c | c in found' && c !in found
      ensures InTree(links, root, c) && c in Children(links) && c.pn != ""
    {
      var p :| p in SetOf(frontier) && Leads(links, p, c);
      TreeGrows(links, root, p, c);
    }
    forall p | p in found' && p !in next ensures ClosedAt(links, p, found') {
      if p in frontier {
        LevelCloses(links, SetOf(frontier), found, found', next, p);
      }
    }
    if next != [] {
      assert next[0] in next;
      MoreFound({root} + Children(links), found, found', next[0]);
    }
  }

  lemma LevelCloses(links: seq<Link>, wanted: set<Part>, found: set<Part>, found': set<Part>, next: seq<Part>, p: Part)
    requires LevelDone(links, |links|, wanted, found, found', next, true) && p in wanted
    ensures ClosedAt(links, p, found')
  {
    forall c | Leads(links, p, c) ensures c in found' {
      var l :| l in links && l.parent == p && l.child == c && c.pn != "";
      var k :| 0 <= k < |links| && links[k] == l;
    }
  }

  lemma MoreFound(all: set<Part>, found: set<Part>, found': set<Part>, p: Part)
    requires found <= found' && p in all && p in found' && p !in found
    ensures |all - found'| < |all - found|
  {
    Fewer(all - found', all - found, p);
  }

  /** `exact_bom_pairs`: with `full`, exactly the root and everything below it; without, the root and its own
      children. A root without a part number is refused. */
  method ExactBomPairs(links: seq<Link>, root: Part, full: bool) returns (r: Result<set<Part>, string>)
    ensures r.Err? <==> root.pn == ""
    ensures r.Ok? && full ==> forall t :: t in r.value <==> InTree(links, root, t)
    ensures r.Ok? && !full ==> forall t :: t in r.value <==> t == root || Leads(links, root, t)
  {
    if root.pn == "" {
      return Err("export unavailable");
    }
    var found, frontier := {root}, [root];
    if !full {
      var next;
      found, next := ExpandLevel(links, frontier, found, false);
      forall t ensures t in found <==> t == root || Leads(links, root, t) {
        if Leads(links, root, t) {
          var l :| l in links && l.parent == root && l.child == t && t.pn != "";
          var k :| 0 <= k < |links| && links[k] == l;
        }
      }
      return Ok(found);
    }
    while frontier != []
      invariant Searching(links, root, found, frontier)
      decreases |{root} + Children(links) - found|, |frontier|
    {
      ghost var before, level := found, frontier;
      found, frontier := ExpandLevel(links, frontier, found, true);
      LevelKeepsSearching(links, root, before, level, found, frontier);
      assert frontier == [] ==> |{root} + Children(links) - found| <= |{root} + Children(links) - before| by {
        Subsets({root} + Children(links) - found, {root} + Children(links) - before);
      }
    }
    ClosedHoldsTree(links, root, found);
    r := Ok(found);
  }

  lemma Subsets<T>(a: set<T>, b: set<T>)
    requires a <= b
    ensures |a| <= |b|
  {
    assert b == a + (b - a);
  }

  // ----- Depth first -----

  /** The collection in progress. */
  class PartCollector {
    const links: seq<Link>
    const allowed: Part -> bool
    var seen: set<Part>
    var out: seq<Part>

    constructor (links: seq<Link>, allowed: Part -> bool)
      ensures this.links == links && this.allowed == allowed && seen == {} && out == []
    {
      this.links, this.allowed := links, allowed;
      seen, out := {}, [];
    }

    ghost predicate Valid()
      reads this
    {
      NoRepeat(out) && forall p :: p in out <==> p in seen
    }

    /** Everything newly collected lies below this parent, is closed under rows and within the scope. */
    twostate predicate Collected(parent: Part)
      reads this
    {
      NewlyCollected(links, allowed, parent, old(seen), seen)
    }

    /** Collect a part not seen before and all that is below it. The result is false when a part outside the scope
        was met, which ends the collection. */
    method Walk(parent: Part) returns (ok: bool)
      requires Valid() && parent !in seen
      modifies this
      ensures ok ==> Valid() && old(seen) + {parent} <= seen && Collected(parent) && ClosedAt(links, parent, seen)
      ensures !ok ==> exists t :: InTree(links, parent, t) && !allowed(t)
      decreases |{parent} + Children(links) - seen|, 0
    {
      ghost var was := seen;
      seen, out := seen + {parent}, out + [parent];
      var rows := Query(links, parent);
      for n := 0 to |rows|
        invariant Valid() && was + {parent} <= seen && NewlyCollected(links, allowed, parent, was, seen)
        invariant RowsSeen(rows, n, seen)
      {
        var c := rows[n].child;
        if c.pn == "" || c in seen {
          continue;
        }
        RowLeads(links, parent, n);
        ghost var before := seen;
        LessRoom(links, parent, was, seen);
        var inScope := WalkChild(parent, c);
        if !inScope {
          return false;
        }
        CollectedMore(links, allowed, parent, c, was, before, seen);
      }
      RowsSeenClosed(links, parent, seen);
      ok := true;
    }

    /** Collect a child not seen before, if it is within the scope. */
    method WalkChild(parent: Part, c: Part) returns (ok: bool)
      requires Valid() && c !in seen && Leads(links, parent, c)
      modifies this
      ensures ok ==> Valid() && old(seen) + {c} <= seen && Collected(c) && ClosedAt(links, c, seen)
      ensures ok ==> InTree(links, parent, c) && allowed(c)
      ensures !ok ==> exists t :: InTree(links, parent, t) && !allowed(t)
      decreases |Children(links) - seen|, 1
    {
      ChildInTree(links, parent, c);
      if !allowed(c) {
        return false;
      }
      assert {c} + Children(links) - seen == Children(links) - seen;
      ok := Walk(c);
      if !ok {
        ghost var t :| InTree(links, c, t) && !allowed(t);
        TreeTransitive(links, parent, c, t);
      }
    }
  }

  /** Everything collected since `was` lies below the parent, is closed under rows and within the scope. */
  ghost predicate NewlyCollected(links: seq<Link>, allowed: Part -> bool, parent: Part, was: set<Part>, seen: set<Part>) {
    forall t :: t in seen && t !in was && t != parent ==> ClosedAt(links, t, seen) && InTree(links, parent, t) && allowed(t)
  }

  /** Once a part is collected, fewer are left to collect. */
  lemma LessRoom(links: seq<Link>, parent: Part, was: set<Part>, seen: set<Part>)
    requires parent !in was && was + {parent} <= seen
    ensures |Children(links) - seen| < |{parent} + Children(links) - was|
  {
    Fewer(Children(links) - seen, {parent} + Children(links) - was, parent);
  }

  ghost predicate RowsSeen(rows: seq<Link>, n: nat, seen: set<Part>)
    requires n <= |rows|
  {
    forall k :: 0 <= k < n && rows[k].child.pn != "" ==> rows[k].child in seen
  }

  lemma RowLeads(links: seq<Link>, parent: Part, n: nat)
    requires n < |Query(links, parent)| && Query(links, parent)[n].child.pn != ""
    ensures Leads(links, parent, Query(links, parent)[n].child)
  {
    assert Query(links, parent)[n] in links;
  }

  lemma RowsSeenClosed(links: seq<Link>, parent: Part, seen: set<Part>)
    requires RowsSeen(Query(links, parent), |Query(links, parent)|, seen)
    ensures ClosedAt(links, parent, seen)
  {
    var rows := Query(links, parent);
    forall c | Leads(links, parent, c) ensures c in seen {
      var l :| l in links && l.parent == parent && l.child == c && c.pn != "";
      var k :| 0 <= k < |rows| && rows[k] == l;
    }
  }

  /** What was collected below a child was collected below the parent. */
  lemma CollectedMore(links: seq<Link>, allowed: Part -> bool, parent: Part, c: Part, was: set<Part>, before: set<Part>, seen: set<Part>)
    requires NewlyCollected(links, allowed, parent, was, before) && NewlyCollected(links, allowed, c, before, seen)
    requires was <= before <= seen && InTree(links, parent, c) && allowed(c) && ClosedAt(links, c, seen)
    ensures NewlyCollected(links, allowed, parent, was, seen)
  {
    forall t | t in seen && t !in was && t != parent
      ensures ClosedAt(links, t, seen) && InTree(links, parent, t) && allowed(t)
    {
      if t in before {
        assert ClosedAt(links, t, before);
      } else if t != c {
        TreeTransitive(links, parent, c, t);
      }
    }
  }

  lemma Fewer(a: set<Part>, b: set<Part>, extra: Part)
    requires a <= b && extra in b && extra !in a
    ensures |a| < |b|
  {
    Subsets(a, b - {extra});
  }

  /** `_collect_unique_parts`: a root outside the scope gives nothing; otherwise the collection fails exactly when the
      tree holds a part outside the scope, and else lists every part of the tree once. */
  method CollectUniqueParts(links: seq<Link>, root: Part, allowed: Part -> bool) returns (r: Option<seq<Part>>)
    ensures !allowed(root) ==> r == Some([])
    ensures allowed(root) ==> (r.None? <==> exists t :: InTree(links, root, t) && !allowed(t))
    ensures allowed(root) && r.Some? ==> NoRepeat(r.value) && forall t :: t in r.value <==> InTree(links, root, t)
  {
    if !allowed(root) {
      return Some([]);
    }
    var collector := new PartCollector(links, allowed);
    var ok := collector.Walk(root);
    if !ok {
      return None;
    }
    ClosedHoldsTree(links, root, collector.seen);
    r := Some(collector.out);
  }

  // ----- The set walks and the flattened BOM find the same parts -----

  /** No link in use leads to a child without a part number. */
  ghost predicate BlankFree(links: seq<Link>, root: Part) {
    forall l :: InUse(links, root, l) ==> l.child.pn != ""
  }

  lemma FlatAt(links: seq<Link>, p: Part)
    ensures FlattenNet(links, NoStops)(p) == FlattenEdges(Query(links, p))
  {
    NetsAt(links, p);
  }

  /** What the flattening walk reaches in one step is exactly the children of the part's rows. */
  lemma FlatStep(links: seq<Link>, p: Part, k: nat) returns (l: Link)
    requires k < |FlattenNet(links, NoStops)(p)|
    ensures l in links && l.parent == p && l.child == FlattenNet(links, NoStops)(p)[k].child
  {
    FlatAt(links, p);
    l := Query(links, p)[k];
    assert l in Query(links, p);
  }

  lemma FlatEdge(links: seq<Link>, l: Link) returns (k: nat)
    requires l in links
    ensures k < |FlattenNet(links, NoStops)(l.parent)| && FlattenNet(links, NoStops)(l.parent)[k].child == l.child
  {
    FlatAt(links, l.parent);
    assert l in Query(links, l.parent);
    k :| 0 <= k < |Query(links, l.parent)| && Query(links, l.parent)[k] == l;
  }

  lemma FlatReachGrows(links: seq<Link>, root: Part, l: Link)
    requires InUse(links, root, l)
    ensures Reaches(FlattenNet(links, NoStops), Seeds(links, root), l.child)
  {
    var net, start := FlattenNet(links, NoStops), Seeds(links, root);
    var k := FlatEdge(links, l);
    FlatAt(links, root);
    PathStep(net, net(l.parent), k, []);
    assert EndsAt(net, net(l.parent), [k], l.child);
    if l.parent != root {
      var path: seq<nat> :| EndsAt(net, start, path, l.parent);
      PathJoin(net, start, path, l.parent, [k]);
      assert EndsAt(net, start, path + [k], l.child);
    }
  }

  /** Every flattened part is in the tree, as long as no blank child is met on the way. */
  lemma {:induction false} FlatPathInTree(links: seq<Link>, root: Part, from: Part, path: seq<nat>, t: Part)
    requires BlankFree(links, root)
    requires from == root || Reaches(FlattenNet(links, NoStops), Seeds(links, root), from)
    requires EndsAt(FlattenNet(links, NoStops), FlattenNet(links, NoStops)(from), path, t)
    ensures InTree(links, from, t)
    decreases |path|
  {
    var l := FlatStep(links, from, path[0]);
    assert InUse(links, root, l);
    FlatReachGrows(links, root, l);
    assert Leads(links, from, l.child);
    ChildInTree(links, from, l.child);
    if |path| > 1 {
      FlatPathInTree(links, root, l.child, path[1..], t);
      TreeTransitive(links, from, l.child, t);
    }
  }

  /** Every part of the tree but the root is flattened. */
  lemma {:induction false} TreePathInFlat(links: seq<Link>, root: Part, from: Part, path: seq<nat>, t: Part)
    requires from == root || Reaches(FlattenNet(links, NoStops), Seeds(links, root), from)
    requires EndsAt(NamedNet(links), NamedNet(links)(from), path, t)
    ensures Reaches(FlattenNet(links, NoStops), Seeds(links, root), t) && t.pn != ""
    decreases |path|
  {
    var c := NamedNet(links)(from)[path[0]].child;
    LeadsEdge(links, from, c);
    var l :| l in links && l.parent == from && l.child == c && c.pn != "";
    FlatReachGrows(links, root, l);
    if |path| > 1 {
      TreePathInFlat(links, root, c, path[1..], t);
    }
  }

  /** The search set is the flattened BOM's parts and the root, if and only if no link in use has a child without a
      part number: the set walks pass such rows over, the flattening walk lists them. */
  lemma SearchIsFlattenedPartsIffBlankFree(links: seq<Link>, root: Part, out: map<Part, real>)
    requires root.pn != ""
    requires IsFlattened(out, FlattenNet(links, NoStops), Seeds(links, root), Parents(links))
    ensures (forall t :: InTree(links, root, t) <==> t == root || t in out) <==> BlankFree(links, root)
  {
    var net, start := FlattenNet(links, NoStops), Seeds(links, root);
    FlatAt(links, root);
    forall t | InTree(links, root, t) ensures t == root || t in out
                                      ensures t.pn != ""
    {
      if t != root {
        var path :| EndsAt(NamedNet(links), NamedNet(links)(root), path, t);
        TreePathInFlat(links, root, root, path, t);
      }
    }
    if BlankFree(links, root) {
      forall t | t in out ensures InTree(links, root, t) {
        var path: seq<nat> :| EndsAt(net, start, path, t);
        FlatPathInTree(links, root, root, path, t);
      }
    } else {
      var l :| InUse(links, root, l) && l.child.pn == "";
      FlatReachGrows(links, root, l);
      assert l.child in out && !InTree(links, root, l.child);
    }
  }

  /** Hiding consumed components only leaves parts out. */
  lemma HidingOnlyLeavesOut(links: seq<Link>, root: Part, stops: Part -> bool, shown: map<Part, real>, all: map<Part, real>)
    requires IsFlattened(all, FlattenNet(links, NoStops), Seeds(links, root), Parents(links))
    requires IsFlattened(shown, FlattenNet(links, stops), Seeds(links, root), Parents(links))
    ensures shown.Keys <= all.Keys
  {
    forall t | t in shown ensures t in all {
      var path: seq<nat> :| EndsAt(FlattenNet(links, stops), Seeds(links, root), path, t);
      EndsAtMeaning(FlattenNet(links, stops), Seeds(links, root), path, t);
      HidingPrunesAtStops(links, Seeds(links, root), stops, path);
      EndsAtMeaning(FlattenNet(links, NoStops), Seeds(links, root), path, t);
    }
  }
}
