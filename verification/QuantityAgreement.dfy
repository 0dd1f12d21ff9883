/** When the walks over one BOM agree on quantities. */
module QuantityAgreement {
  import opened Wrappers
  import opened BomPaths
  import opened StackWalk
  import opened BomLinks
  import opened Occurrences
  import opened FlattenBom

  // ----- Summing a list of entries -----

  lemma {:induction false} SumQtyAppend(a: seq<Entry>, b: seq<Entry>)
    ensures SumQty(a + b) == SumQty(a) + SumQty(b)
    decreases |a|
  {
    if a == [] {
      assert a + b == b;
    } else {
      assert (a + b)[1..] == a[1..] + b;
      SumQtyAppend(a[1..], b);
    }
  }

  lemma RestReordered(e: Entry, rest: seq<Entry>, front: seq<Entry>, back: seq<Entry>)
    requires multiset([e] + rest) == multiset(front + ([e] + back))
    ensures multiset(rest) == multiset(front + back)
  {
    assert multiset(rest) == multiset([e] + rest) - multiset{e};
    assert multiset(front + back) == multiset(front + ([e] + back)) - multiset{e};
  }

  lemma TakeOutSum(front: seq<Entry>, e: Entry, back: seq<Entry>)
    ensures SumQty(front + ([e] + back)) == e.qty + SumQty(front + back)
  {
    assert ([e] + back)[1..] == back;
    SumQtyAppend(front, [e] + back);
    SumQtyAppend(front, back);
  }

  /** Split a sequence around one of its items. */
  lemma SplitAround(e: Entry, b: seq<Entry>) returns (front: seq<Entry>, back: seq<Entry>)
    requires e in multiset(b)
    ensures b == front + ([e] + back)
  {
    var k :| 0 <= k < |b| && b[k] == e;
    front, back := b[..k], b[k + 1..];
  }

  /** The sum does not depend on the order of the entries. */
  lemma {:induction false} SumQtyReordered(a: seq<Entry>, b: seq<Entry>)
    requires multiset(a) == multiset(b)
    ensures SumQty(a) == SumQty(b)
    decreases |a|
  {
    if a == [] {
      assert |multiset(b)| == 0;
    } else {
      assert a == [a[0]] + a[1..] && a[0] in multiset(a);
      var front, back := SplitAround(a[0], b);
      RestReordered(a[0], a[1..], front, back);
      TakeOutSum(front, a[0], back);
      SumQtyReordered(a[1..], front + back);
    }
  }

  lemma {:induction false} EntriesSum(net: PlaceNet, start: seq<Place>, paths: seq<seq<nat>>, t: Part)
    ensures SumQty(EntriesOf(net, start, paths, t)) == SumOver(Plain(net), Edges(start), paths, t)
  {
    if paths != [] {
      EntriesSum(net, start, paths[1..], t);
      var first := if EndsAt(Plain(net), Edges(start), paths[0], t) then [EntryAt(net, start, paths[0])] else [];
      SumQtyAppend(first, EntriesOf(net, start, paths[1..], t));
      assert first != [] ==> first[1..] == [];
    }
  }

  /** A part's occurrence quantities add up to the path sum over the occurrence net. */
  lemma OccurrencesSumPaths(occ: map<Part, seq<Entry>>, net: PlaceNet, start: seq<Place>, parents: set<Part>, t: Part)
    requires IsOccurrenceMap(occ, net, start, parents) && t in occ
    ensures SumQty(occ[t]) == Quantity(Plain(net), Edges(start), parents, t)
  {
    var entries := EntriesOf(net, start, AllPaths(Plain(net), Edges(start), parents), t);
    SumQtyReordered(occ[t], entries);
    EntriesSum(net, start, AllPaths(Plain(net), Edges(start), parents), t);
  }

  // ----- Totals over edge lists put together -----

  lemma {:induction false} TotalShift(net: Net, a: seq<Edge>, b: seq<Edge>, j: nat, t: Part, d: nat)
    requires j <= |b|
    ensures Total(net, a + b, |a| + j, t, d) == Total(net, b, j, t, d)
    decreases |b| - j
  {
    if d > 0 && j < |b| {
      assert (a + b)[|a| + j] == b[j];
      assert Total(net, a + b, |a| + (j + 1), t, d) == Total(net, b, j + 1, t, d) by {
        TotalShift(net, a, b, j + 1, t, d);
      }
    }
  }

  lemma {:induction false} TotalConcat(net: Net, a: seq<Edge>, b: seq<Edge>, i: nat, t: Part, d: nat)
    requires i <= |a|
    ensures Total(net, a + b, i, t, d) == Total(net, a, i, t, d) + Total(net, b, 0, t, d)
    decreases |a| - i
  {
    if d > 0 {
      if i == |a| {
        TotalShift(net, a, b, 0, t, d);
      } else {
        TotalConcat(net, a, b, i + 1, t, d);
      }
    }
  }

  function SumReals(s: seq<real>): real {
    if s == [] then 0.0 else s[0] + SumReals(s[1..])
  }

  /** Edges to one child weigh in together. */
  lemma {:induction false} TotalOneChild(net: Net, edges: seq<Edge>, c: Part, i: nat, weights: seq<real>, t: Part, d: nat,
                                         below: real)
    requires i <= |edges| && |weights| == |edges| - i && d > 0
    requires forall k :: i <= k < |edges| ==> edges[k] == Edge(c, weights[k - i])
    requires below == Hit(c, t) + Total(net, net(c), 0, t, d - 1)
    ensures Total(net, edges, i, t, d) == SumReals(weights) * below
    decreases |edges| - i
  {
    if i < |edges| {
      TotalOneChild(net, edges, c, i + 1, weights[1..], t, d, below);
      AddWeights(weights[0], SumReals(weights[1..]), below);
    }
  }

  lemma AddWeights(a: real, b: real, x: real)
    ensures (a + b) * x == a * x + b * x
  {
  }

  // ----- Flattened quantity = sum of occurrences -----

  /** For every link below these parts the occurrences add up to the quantity the flattening walk reads from it. */
  ghost predicate OccurrencesAddUp(links: seq<Link>, parts: iset<Part>) {
    forall l :: l in links && l.parent in parts ==> SumReals(OccurrenceQtys(l)) == FlattenQty(l)
  }

  /** The same, for parts that hold whatever is below them up to where the walk stops. */
  ghost predicate ClosedAddingUp(links: seq<Link>, stops: Part -> bool, parts: iset<Part>) {
    forall l :: Fits(links, stops, parts, l)
  }

  ghost predicate Fits(links: seq<Link>, stops: Part -> bool, parts: iset<Part>, l: Link) {
    l in links && l.parent in parts ==> SumReals(OccurrenceQtys(l)) == FlattenQty(l) && (l.child in parts || stops(l.child))
  }

  lemma NetsAt(links: seq<Link>, stops: Part -> bool, p: Part)
    ensures var rows := Query(links, p);
            && Plain(OccurrenceNet(links, stops))(p) == (if stops(p) then [] else Edges(Places(rows, |rows|)))
            && FlattenNet(links, stops)(p) == (if stops(p) then [] else FlattenEdges(rows))
  {
    assert OccurrenceNet(links, stops)(p) == if stops(p) then [] else AllPlaces(links, p);
    assert Plain(OccurrenceNet(links, stops))(p) == Edges(OccurrenceNet(links, stops)(p));
    assert FlattenNet(links, stops)(p) == if stops(p) then [] else FlattenEdges(Query(links, p));
  }

  /** One row weighs the same in both nets, if what is below it does. */
  lemma RowTotals(occ: Net, flat: Net, l: Link, n: nat, t: Part, d: nat)
    requires d > 0 && SumReals(OccurrenceQtys(l)) == FlattenQty(l)
    requires Total(occ, occ(l.child), 0, t, d - 1) == Total(flat, flat(l.child), 0, t, d - 1)
    ensures Total(occ, Edges(PlacesOf(l, n)), 0, t, d) == Total(flat, FlattenEdges([l]), 0, t, d)
  {
    var below := Hit(l.child, t) + Total(flat, flat(l.child), 0, t, d - 1);
    TotalOneChild(occ, Edges(PlacesOf(l, n)), l.child, 0, OccurrenceQtys(l), t, d, below);
    TotalOneRow(flat, l, t, d, below);
  }

  lemma TotalOneRow(flat: Net, l: Link, t: Part, d: nat, below: real)
    requires d > 0 && below == Hit(l.child, t) + Total(flat, flat(l.child), 0, t, d - 1)
    ensures Total(flat, FlattenEdges([l]), 0, t, d) == FlattenQty(l) * below
  {
    OneWeight(FlattenQty(l));
    TotalOneChild(flat, FlattenEdges([l]), l.child, 0, [FlattenQty(l)], t, d, below);
  }

  lemma OneWeight(w: real)
    ensures SumReals([w]) == w
  {
    assert [w][1..] == [];
  }

  lemma RowsAppend(rows: seq<Link>, n: nat)
    requires 0 < n <= |rows|
    ensures Edges(Places(rows, n)) == Edges(Places(rows, n - 1)) + Edges(PlacesOf(rows[n - 1], n))
    ensures FlattenEdges(rows[..n]) == FlattenEdges(rows[..n - 1]) + FlattenEdges([rows[n - 1]])
  {
  }

  /** The two nets at a part: its occurrences, and its rows. */
  ghost predicate NetsMatch(occ: Net, flat: Net, links: seq<Link>, stops: Part -> bool, p: Part) {
    && occ(p) == (if stops(p) then [] else Edges(Places(Query(links, p), |Query(links, p)|)))
    && flat(p) == (if stops(p) then [] else FlattenEdges(Query(links, p)))
  }

  /** What is below a part weighs the same in both nets. */
  lemma {:induction false} NetsTotal(occ: Net, flat: Net, links: seq<Link>, stops: Part -> bool, parts: iset<Part>, p: Part,
                                     t: Part, d: nat)
    requires ClosedAddingUp(links, stops, parts) && (p in parts || stops(p))
    requires forall x :: NetsMatch(occ, flat, links, stops, x)
    ensures Total(occ, occ(p), 0, t, d) == Total(flat, flat(p), 0, t, d)
    decreases d, 1, 0
  {
    assert NetsMatch(occ, flat, links, stops, p);
    if !stops(p) {
      var rows := Query(links, p);
      RowsTotal(occ, flat, links, stops, parts, rows, |rows|, t, d);
      assert rows[..|rows|] == rows;
    }
  }

  /** So do the first n rows of a part. */
  lemma {:induction false} RowsTotal(occ: Net, flat: Net, links: seq<Link>, stops: Part -> bool, parts: iset<Part>,
                                     rows: seq<Link>, n: nat, t: Part, d: nat)
    requires ClosedAddingUp(links, stops, parts) && n <= |rows|
    requires forall x :: NetsMatch(occ, flat, links, stops, x)
    requires forall l :: l in rows ==> l in links && l.parent in parts
    ensures Total(occ, Edges(Places(rows, n)), 0, t, d) == Total(flat, FlattenEdges(rows[..n]), 0, t, d)
    decreases d, 0, n
  {
    if d > 0 && n > 0 {
      var l := rows[n - 1];
      assert l in rows && Fits(links, stops, parts, l);
      RowsTotal(occ, flat, links, stops, parts, rows, n - 1, t, d);
      NetsTotal(occ, flat, links, stops, parts, l.child, t, d - 1);
      RowTotals(occ, flat, l, n, t, d);
      OneRowMore(occ, flat, rows, n, t, d);
    }
  }

  lemma OneRowMore(occ: Net, flat: Net, rows: seq<Link>, n: nat, t: Part, d: nat)
    requires 0 < n <= |rows|
    requires Total(occ, Edges(Places(rows, n - 1)), 0, t, d) == Total(flat, FlattenEdges(rows[..n - 1]), 0, t, d)
    requires Total(occ, Edges(PlacesOf(rows[n - 1], n)), 0, t, d) == Total(flat, FlattenEdges([rows[n - 1]]), 0, t, d)
    ensures Total(occ, Edges(Places(rows, n)), 0, t, d) == Total(flat, FlattenEdges(rows[..n]), 0, t, d)
  {
    RowsAppend(rows, n);
    TotalConcat(occ, Edges(Places(rows, n - 1)), Edges(PlacesOf(rows[n - 1], n)), 0, t, d);
    TotalConcat(flat, FlattenEdges(rows[..n - 1]), FlattenEdges([rows[n - 1]]), 0, t, d);
  }

  lemma SameStep(a: Net, start: seq<Edge>, b: Net, other: seq<Edge>, path: seq<nat>, k: nat, rest: seq<nat>)
    requires path != [] && IsPath(a, start, path) && k < |other| && other[k].child == start[path[0]].child
    requires var c := other[k].child;
             IsPath(b, b(c), rest) && |rest| == |path| - 1 && Visits(b, b(c), rest) == Visits(a, a(c), path[1..])
    ensures IsPath(b, other, [k] + rest) && Visits(b, other, [k] + rest) == Visits(a, start, path)
  {
    assert ([k] + rest)[1..] == rest;
  }

  /** Both nets lead to the same parts along the same sequences of parts. */
  lemma {:induction false} OccurrencePathInFlat(links: seq<Link>, stops: Part -> bool, rows: seq<Link>, path: seq<nat>) returns (flat: seq<nat>)
    requires IsPath(Plain(OccurrenceNet(links, stops)), Edges(Places(rows, |rows|)), path)
    ensures IsPath(FlattenNet(links, stops), FlattenEdges(rows), flat) && |flat| == |path|
    ensures Visits(FlattenNet(links, stops), FlattenEdges(rows), flat)
            == Visits(Plain(OccurrenceNet(links, stops)), Edges(Places(rows, |rows|)), path)
    decreases |path|
  {
    flat := [];
    if path != [] {
      var k := RowForPlace(rows, |rows|, path[0]);
      var c := rows[k].child;
      var rest := [];
      NetsAt(links, stops, c);
      if !stops(c) {
        rest := OccurrencePathInFlat(links, stops, Query(links, c), path[1..]);
      }
      flat := [k] + rest;
      SameStep(Plain(OccurrenceNet(links, stops)), Edges(Places(rows, |rows|)), FlattenNet(links, stops), FlattenEdges(rows),
               path, k, rest);
    }
  }

  lemma {:induction false} FlatPathInOccurrences(links: seq<Link>, stops: Part -> bool, rows: seq<Link>, path: seq<nat>) returns (occ: seq<nat>)
    requires IsPath(FlattenNet(links, stops), FlattenEdges(rows), path)
    ensures IsPath(Plain(OccurrenceNet(links, stops)), Edges(Places(rows, |rows|)), occ) && |occ| == |path|
    ensures Visits(Plain(OccurrenceNet(links, stops)), Edges(Places(rows, |rows|)), occ)
            == Visits(FlattenNet(links, stops), FlattenEdges(rows), path)
    decreases |path|
  {
    occ := [];
    if path != [] {
      var k := PlaceForRow(rows, |rows|, path[0]);
      var c := rows[path[0]].child;
      var rest := [];
      NetsAt(links, stops, c);
      if !stops(c) {
        rest := FlatPathInOccurrences(links, stops, Query(links, c), path[1..]);
      }
      occ := [k] + rest;
      SameStep(FlattenNet(links, stops), FlattenEdges(rows), Plain(OccurrenceNet(links, stops)), Edges(Places(rows, |rows|)),
               path, k, rest);
    }
  }

  lemma {:induction false} RowForPlace(rows: seq<Link>, n: nat, i: nat) returns (k: nat)
    requires n <= |rows| && i < |Places(rows, n)|
    ensures k < n && rows[k].child == Places(rows, n)[i].child
  {
    if i < |Places(rows, n - 1)| {
      k := RowForPlace(rows, n - 1, i);
    } else {
      k := n - 1;
    }
  }

  lemma {:induction false} PlaceForRow(rows: seq<Link>, n: nat, i: nat) returns (k: nat)
    requires i < n <= |rows|
    ensures k < |Places(rows, n)| && Places(rows, n)[k].child == rows[i].child
  {
    if i == n - 1 {
      k := |Places(rows, n - 1)|;
    } else {
      k := PlaceForRow(rows, n - 1, i);
    }
  }

  lemma SameReach(links: seq<Link>, stops: Part -> bool, rows: seq<Link>, t: Part)
    ensures Reaches(Plain(OccurrenceNet(links, stops)), Edges(Places(rows, |rows|)), t)
            <==> Reaches(FlattenNet(links, stops), FlattenEdges(rows), t)
  {
    var occ, start := Plain(OccurrenceNet(links, stops)), Edges(Places(rows, |rows|));
    var flat, from := FlattenNet(links, stops), FlattenEdges(rows);
    if path :| EndsAt(occ, start, path, t) {
      EndsAtMeaning(occ, start, path, t);
      var other := OccurrencePathInFlat(links, stops, rows, path);
      EndsAtMeaning(flat, from, other, t);
    }
    if path :| EndsAt(flat, from, path, t) {
      EndsAtMeaning(flat, from, path, t);
      var other := FlatPathInOccurrences(links, stops, rows, path);
      EndsAtMeaning(occ, start, other, t);
    }
  }

  /** The occurrence walk returns exactly on the BOMs the flattening walk returns on. */
  lemma SameAcyclic(links: seq<Link>, stops: Part -> bool, root: Part)
    ensures Acyclic(Plain(OccurrenceNet(links, stops)), Edges(AllPlaces(links, root)))
            <==> Acyclic(FlattenNet(links, stops), Seeds(links, root))
  {
    var rows := Query(links, root);
    var occ, start := Plain(OccurrenceNet(links, stops)), Edges(AllPlaces(links, root));
    var flat, from := FlattenNet(links, stops), Seeds(links, root);
    if Acyclic(flat, from) {
      forall path | IsPath(occ, start, path) ensures NoRepeat(Visits(occ, start, path)) {
        var other := OccurrencePathInFlat(links, stops, rows, path);
      }
    }
    if Acyclic(occ, start) {
      forall path | IsPath(flat, from, path) ensures NoRepeat(Visits(flat, from, path)) {
        var other := FlatPathInOccurrences(links, stops, rows, path);
      }
    }
  }

  /** The rounds of `_bom_occurrences` come to an end exactly on the BOMs on which those of `_flatten_bom` do: the
      acyclic ones. */
  lemma OccurrencesHaltIffAcyclic(links: seq<Link>, stops: Part -> bool, root: Part)
    ensures Halts(Plain(OccurrenceNet(links, stops)), Edges(AllPlaces(links, root)))
            <==> Acyclic(FlattenNet(links, stops), Seeds(links, root))
    ensures Halts(Plain(OccurrenceNet(links, stops)), Edges(AllPlaces(links, root)))
            <==> Halts(FlattenNet(links, stops), Seeds(links, root))
  {
    OccurrenceNetExpands(links, stops);
    HaltsIffAcyclic(Plain(OccurrenceNet(links, stops)), Edges(AllPlaces(links, root)), Parents(links));
    FlattenHaltsIffAcyclic(links, root, stops);
    SameAcyclic(links, stops, root);
  }

  /** A part listed under itself: neither walk ends. */
  lemma SelfLinkRunsOn(p: Part, qty: Option<real>)
    ensures var links := [Link(p, p, qty, [])];
            && !Halts(FlattenNet(links, NoStops), Seeds(links, p))
            && !Halts(Plain(OccurrenceNet(links, NoStops)), Edges(AllPlaces(links, p)))
  {
    var links := [Link(p, p, qty, [])];
    var net, start := FlattenNet(links, NoStops), Seeds(links, p);
    assert links[1..] == [];
    assert Query(links, p) == links;
    assert |start| == 1 && start[0].child == p;
    NoStopsAt(links, p);
    assert net(p) == start;
    PathStep(net, start, 0, []);
    assert IsPath(net, start, [0]) && Visits(net, start, [0]) == [p];
    PathStep(net, start, 0, [0]);
    assert IsPath(net, start, [0] + [0]);
    assert Visits(net, start, [0] + [0]) == [p, p];
    assert [p, p][0] == [p, p][1];
    OccurrencesHaltIffAcyclic(links, NoStops, p);
  }

  /** When the occurrences of each link in use add up to its quantity, the occurrence sheet and the flattened sheet list the
      same parts, and each part's occurrence quantities add up to its flattened quantity. */
  lemma FlattenedIsSumOfOccurrences(links: seq<Link>, root: Part, stops: Part -> bool,
                                    out: map<Part, real>, occ: map<Part, seq<Entry>>)
    requires OccurrencesAddUp(links, FlattenAsks(links, root, stops))
    requires IsFlattened(out, FlattenNet(links, stops), Seeds(links, root), Parents(links))
    requires IsOccurrenceMap(occ, OccurrenceNet(links, stops), AllPlaces(links, root), Parents(links))
    ensures occ.Keys == out.Keys
    ensures forall t :: t in out ==> out[t] == SumQty(occ[t])
  {
    var rows := Query(links, root);
    var net, d := OccurrenceNet(links, stops), |Parents(links)| + 1;
    forall t ensures t in occ <==> t in out {
      SameReach(links, stops, rows, t);
    }
    assert ClosedAddingUp(links, stops, FlattenAsks(links, root, stops)) by {
      forall l ensures Fits(links, stops, FlattenAsks(links, root, stops), l) {
        if l in links && l.parent in FlattenAsks(links, root, stops) {
          AsksClosed(links, root, stops, l);
        }
      }
    }
    forall p ensures NetsMatch(Plain(net), FlattenNet(links, stops), links, stops, p) {
      NetsAt(links, stops, p);
    }
    forall t | t in out ensures out[t] == SumQty(occ[t]) {
      assert t in occ;
      OccurrencesSumPaths(occ, net, AllPlaces(links, root), Parents(links), t);
      TotalIsPathSum(Plain(net), Edges(AllPlaces(links, root)), 0, t, d);
      TotalIsPathSum(FlattenNet(links, stops), Seeds(links, root), 0, t, d);
      RowsTotal(Plain(net), FlattenNet(links, stops), links, stops, FlattenAsks(links, root, stops), rows, |rows|, t, d);
      assert rows[..|rows|] == rows;
    }
  }
}
