/** The compile sheet: uploaded rows, each expanded like a top-level BOM line (app/services/excel_compile.py). */
module CompileSheet {
  import opened Wrappers
  import opened BomPaths
  import opened BomLinks
  import opened FlattenBom

  /** A row of the sheet whose part was found. */
  datatype SheetRow = SheetRow(part: Part, qty: real)

  /** How much of t one unit of a part brings in: itself, and everything flattened below it. */
  ghost function PerUnit(links: seq<Link>, expand: bool, p: Part, t: Part): real {
    Hit(p, t) + if expand then Quantity(FlattenNet(links, NoStops), Seeds(links, p), Parents(links), t) else 0.0
  }

  ghost function RowShare(links: seq<Link>, expand: bool, row: SheetRow, t: Part): real {
    row.qty * PerUnit(links, expand, row.part, t)
  }

  /** The row-weighted sum of the rows' flattened BOMs. */
  ghost function Weighted(links: seq<Link>, expand: bool, rows: seq<SheetRow>, t: Part): real {
    if rows == [] then 0.0 else RowShare(links, expand, rows[0], t) + Weighted(links, expand, rows[1..], t)
  }

  ghost predicate Brings(links: seq<Link>, expand: bool, row: SheetRow, t: Part) {
    t == row.part || (expand && Reaches(FlattenNet(links, NoStops), Seeds(links, row.part), t))
  }

  ghost predicate IsSheet(agg: map<Part, real>, links: seq<Link>, expand: bool, rows: seq<SheetRow>) {
    && (forall t :: t in agg <==> exists k :: 0 <= k < |rows| && Brings(links, expand, rows[k], t))
    && (forall t :: t in agg ==> agg[t] == Weighted(links, expand, rows, t))
  }

  lemma {:induction false} WeightedAppend(links: seq<Link>, expand: bool, a: seq<SheetRow>, b: seq<SheetRow>, t: Part)
    ensures Weighted(links, expand, a + b, t) == Weighted(links, expand, a, t) + Weighted(links, expand, b, t)
    decreases |a|
  {
    if a == [] {
      assert a + b == b;
    } else {
      assert (a + b)[1..] == a[1..] + b;
      WeightedAppend(links, expand, a[1..], b, t);
    }
  }

  lemma WeightedLast(links: seq<Link>, expand: bool, rows: seq<SheetRow>, n: nat, t: Part)
    requires n < |rows|
    ensures Weighted(links, expand, rows[..n + 1], t) == Weighted(links, expand, rows[..n], t) + RowShare(links, expand, rows[n], t)
  {
    assert rows[..n + 1] == rows[..n] + [rows[n]];
    WeightedAppend(links, expand, rows[..n], [rows[n]], t);
    assert [rows[n]][1..] == [];
  }

  /** The order of the sheet's rows does not matter. */
  lemma {:induction false} RowOrderIrrelevant(links: seq<Link>, expand: bool, a: seq<SheetRow>, b: seq<SheetRow>, t: Part)
    requires multiset(a) == multiset(b)
    ensures Weighted(links, expand, a, t) == Weighted(links, expand, b, t)
    decreases |a|
  {
    if a == [] {
      assert |multiset(b)| == 0;
    } else {
      assert a[0] in multiset(a);
      var k :| 0 <= k < |b| && b[k] == a[0];
      var rest := b[..k] + b[k + 1..];
      SplitRow(b, k);
      SplitRow(a, 0);
      assert a[..0] + a[1..] == a[1..];
      RowOrderIrrelevant(links, expand, a[1..], rest, t);
      WeightedAppend(links, expand, b[..k], [b[k]] + b[k + 1..], t);
      WeightedAppend(links, expand, b[..k], b[k + 1..], t);
      assert ([b[k]] + b[k + 1..])[1..] == b[k + 1..];
    }
  }

  lemma SplitRow(b: seq<SheetRow>, k: nat)
    requires k < |b|
    ensures b == b[..k] + ([b[k]] + b[k + 1..])
    ensures multiset(b[..k] + b[k + 1..]) == multiset(b) - multiset{b[k]}
  {
    assert b == b[..k] + ([b[k]] + b[k + 1..]);
  }

  /** What one flattened map contributes once the parts in `done` have been added. */
  ghost function Scaled(flat: map<Part, real>, done: set<Part>, qty: real, t: Part): real {
    if t in flat && t in done then flat[t] * qty else 0.0
  }

  /** Add every flattened part of one row, scaled by the row's quantity, in whatever order the map is read. */
  method AddScaled(agg: map<Part, real>, flat: map<Part, real>, qty: real) returns (sum: map<Part, real>)
    ensures sum.Keys == agg.Keys + flat.Keys
    ensures forall t :: Booked(sum, t) == Booked(agg, t) + Scaled(flat, flat.Keys, qty, t)
  {
    sum := agg;
    var left := flat.Keys;
    while left != {}
      invariant left <= flat.Keys && sum.Keys == agg.Keys + (flat.Keys - left)
      invariant forall t :: Booked(sum, t) == Booked(agg, t) + Scaled(flat, flat.Keys - left, qty, t)
      decreases left
    {
      var p :| p in left;
      left := left - {p};
      sum := Add(sum, p, flat[p] * qty);
    }
  }

  lemma ShareParts(qty: real, same: bool, below: real)
    ensures qty * ((if same then 1.0 else 0.0) + below) == (if same then qty else 0.0) + below * qty
  {
    if same {
      assert qty * (1.0 + below) == qty + below * qty;
    }
  }

  function Added(row: SheetRow, t: Part, below: real): real {
    (if row.part == t then row.qty else 0.0) + below * row.qty
  }

  lemma ShareOf(links: seq<Link>, row: SheetRow, t: Part, below: real)
    requires below == Quantity(FlattenNet(links, NoStops), Seeds(links, row.part), Parents(links), t)
    ensures RowShare(links, true, row, t) == Added(row, t, below)
  {
    assert PerUnit(links, true, row.part, t) == (if row.part == t then 1.0 else 0.0) + below;
    ShareParts(row.qty, row.part == t, below);
  }

  lemma ScaledIsShare(links: seq<Link>, row: SheetRow, flat: map<Part, real>, t: Part)
    requires IsFlattened(flat, FlattenNet(links, NoStops), Seeds(links, row.part), Parents(links))
    ensures (if row.part == t then row.qty else 0.0) + Scaled(flat, flat.Keys, row.qty, t) == RowShare(links, true, row, t)
  {
    var below := Booked(flat, t);
    if t !in flat {
      UnreachedIsZero(links, row.part, t);
    }
    ShareOf(links, row, t, below);
    ScaledHere(flat, row, t);
  }

  lemma ScaledHere(flat: map<Part, real>, row: SheetRow, t: Part)
    ensures (if row.part == t then row.qty else 0.0) + Scaled(flat, flat.Keys, row.qty, t) == Added(row, t, Booked(flat, t))
  {
  }

  /** A part no path leads to has quantity zero. */
  lemma UnreachedIsZero(links: seq<Link>, p: Part, t: Part)
    requires !Reaches(FlattenNet(links, NoStops), Seeds(links, p), t)
    ensures Quantity(FlattenNet(links, NoStops), Seeds(links, p), Parents(links), t) == 0.0
  {
    NoContribution(FlattenNet(links, NoStops), Seeds(links, p),
                   AllPaths(FlattenNet(links, NoStops), Seeds(links, p), Parents(links)), t);
  }

  lemma {:induction false} NoContribution(net: Net, start: seq<Edge>, paths: seq<seq<nat>>, t: Part)
    requires !Reaches(net, start, t)
    ensures SumOver(net, start, paths, t) == 0.0
  {
    if paths != [] {
      NoContribution(net, start, paths[1..], t);
    }
  }

  // ----- Adding up a list of lines -----

  /** A line as handed over: the revision not cleaned yet, the quantity possibly missing. */
  datatype Line = Line(pn: string, rev: string, qty: Option<real>)

  function AsRows(clean: string -> string, lines: seq<Line>): seq<SheetRow> {
    seq(|lines|, i requires 0 <= i < |lines| => SheetRow(Part(lines[i].pn, clean(lines[i].rev)), lines[i].qty.GetOr(0.0)))
  }

  /** `_aggregate_qty`: one total for every part named, the sum over its lines. */
  method AggregateQty(clean: string -> string, lines: seq<Line>) returns (totals: map<Part, real>)
    ensures IsSheet(totals, [], false, AsRows(clean, lines))
  {
    totals := map[];
    ghost var rows := AsRows(clean, lines);
    for n := 0 to |lines|
      invariant IsSheet(totals, [], false, rows[..n])
    {
      var part := Part(lines[n].pn, clean(lines[n].rev));
      AggregateStep(totals, rows, n);
      totals := totals[part := (if part in totals then totals[part] else 0.0) + lines[n].qty.GetOr(0.0)];
    }
    assert rows[..|lines|] == rows;
  }

  lemma AggregateStep(totals: map<Part, real>, rows: seq<SheetRow>, n: nat)
    requires n < |rows| && IsSheet(totals, [], false, rows[..n])
    ensures var p := rows[n].part;
            IsSheet(totals[p := (if p in totals then totals[p] else 0.0) + rows[n].qty], [], false, rows[..n + 1])
  {
    var p := rows[n].part;
    var sum := totals[p := (if p in totals then totals[p] else 0.0) + rows[n].qty];
    if p !in totals {
      NothingYet(rows[..n], p);
    }
    var next := rows[..n + 1];
    forall t ensures t in sum <==> exists k :: 0 <= k < n + 1 && Brings([], false, next[k], t) {
      assert forall k :: 0 <= k < n ==> rows[..n][k] == next[k];
      assert next[n] == rows[n];
      if t in totals {
        var k :| 0 <= k < n && Brings([], false, rows[..n][k], t);
      }
    }
    forall t | t in sum ensures sum[t] == Weighted([], false, rows[..n + 1], t) {
      WeightedLast([], false, rows, n, t);
    }
  }

  lemma {:induction false} NothingYet(rows: seq<SheetRow>, t: Part)
    requires forall k :: 0 <= k < |rows| ==> rows[k].part != t
    ensures Weighted([], false, rows, t) == 0.0
  {
    if rows != [] {
      NothingYet(rows[1..], t);
    }
  }

  /** The same lines in another order give the same totals. */
  lemma AggregateReordered(a: map<Part, real>, b: map<Part, real>, clean: string -> string, x: seq<Line>, y: seq<Line>)
    requires IsSheet(a, [], false, AsRows(clean, x)) && IsSheet(b, [], false, AsRows(clean, y))
    requires multiset(AsRows(clean, x)) == multiset(AsRows(clean, y))
    ensures a == b
  {
    var xs, ys := AsRows(clean, x), AsRows(clean, y);
    forall t ensures t in a <==> t in b {
      assert forall r :: r in xs <==> r in multiset(xs);
      assert forall r :: r in ys <==> r in multiset(ys);
      assert t in a <==> exists r :: r in xs && Brings([], false, r, t);
      assert t in b <==> exists r :: r in ys && Brings([], false, r, t);
    }
    forall t | t in a ensures a[t] == b[t] {
      RowOrderIrrelevant([], false, xs, ys, t);
    }
  }

  /** `_expand_with_children`: the sheet's quantities are the row-weighted sum of the rows' flattened BOMs. */
  method ExpandWithChildren(links: seq<Link>, fold: Part -> Part, rows: seq<SheetRow>, expand: bool)
    returns (agg: map<Part, real>)
    requires expand ==> forall r :: r in rows ==> SameRows(links, fold, FlattenAsks(links, r.part, NoStops))
    requires expand ==> forall r :: r in rows ==> Acyclic(FlattenNet(links, NoStops), Seeds(links, r.part))
    ensures IsSheet(agg, links, expand, rows)
  {
    agg := map[];
    for n := 0 to |rows|
      invariant SheetSoFar(agg, links, expand, rows, n)
    {
      assert rows[n] in rows;
      ghost var before := agg;
      agg := AddRow(links, fold, agg, rows[n], expand);
      SheetStep(before, agg, links, expand, rows, n);
    }
    assert rows[..|rows|] == rows;
  }

  ghost predicate SheetSoFar(agg: map<Part, real>, links: seq<Link>, expand: bool, rows: seq<SheetRow>, n: nat)
    requires n <= |rows|
  {
    && (forall t :: Booked(agg, t) == Weighted(links, expand, rows[..n], t))
    && (forall t :: t in agg <==> exists k :: 0 <= k < n && Brings(links, expand, rows[k], t))
  }

  lemma SheetStep(agg: map<Part, real>, sum: map<Part, real>, links: seq<Link>, expand: bool, rows: seq<SheetRow>, n: nat)
    requires n < |rows| && SheetSoFar(agg, links, expand, rows, n)
    requires forall t :: Booked(sum, t) == Booked(agg, t) + RowShare(links, expand, rows[n], t)
    requires forall t :: t in sum <==> t in agg || Brings(links, expand, rows[n], t)
    ensures SheetSoFar(sum, links, expand, rows, n + 1)
  {
    forall t ensures Booked(sum, t) == Weighted(links, expand, rows[..n + 1], t) {
      WeightedLast(links, expand, rows, n, t);
    }
  }

  /** `_flatten_bom` as the sheet calls it: full depth, nothing hidden. */
  method FlattenAll(links: seq<Link>, fold: Part -> Part, p: Part) returns (flat: map<Part, real>)
    requires SameRows(links, fold, FlattenAsks(links, p, NoStops))
    requires Acyclic(FlattenNet(links, NoStops), Seeds(links, p))
    ensures IsFlattened(flat, FlattenNet(links, NoStops), Seeds(links, p), Parents(links))
  {
    var none: Part -> set<string> := _ => {};
    NothingHidden(links, p, true, {}, none, map[]);
    ghost var paths;
    flat, paths := FlattenBom.FlattenBom(links, fold, p, true, true, {}, none);
    NothingHidden(links, p, true, {}, none, flat);
  }

  method AddRow(links: seq<Link>, fold: Part -> Part, agg: map<Part, real>, row: SheetRow, expand: bool)
    returns (sum: map<Part, real>)
    requires expand ==> SameRows(links, fold, FlattenAsks(links, row.part, NoStops))
    requires expand ==> Acyclic(FlattenNet(links, NoStops), Seeds(links, row.part))
    ensures forall t :: Booked(sum, t) == Booked(agg, t) + RowShare(links, expand, row, t)
    ensures forall t :: t in sum <==> t in agg || Brings(links, expand, row, t)
  {
    sum := Add(agg, row.part, row.qty);
    if expand {
      var flat := FlattenAll(links, fold, row.part);
      sum := AddScaled(sum, flat, row.qty);
      forall t ensures Booked(sum, t) == Booked(agg, t) + RowShare(links, true, row, t) {
        ScaledIsShare(links, row, flat, t);
      }
    }
  }

  // ----- A sheet of an assembly's own lines is the assembly -----

  /** The sheet that lists an assembly's own rows. */
  function LinesOf(rows: seq<Link>): seq<SheetRow> {
    seq(|rows|, i requires 0 <= i < |rows| => SheetRow(rows[i].child, FlattenQty(rows[i])))
  }

  /** Beyond the bound, more depth adds nothing. */
  lemma {:induction false} DeeperIsSame(net: Net, start: seq<Edge>, i: nat, t: Part, d: nat)
    requires i <= |start| && Bounded(net, start, d)
    ensures Total(net, start, i, t, d) == Total(net, start, i, t, d + 1)
    decreases d, |start| - i
  {
    if i < |start| {
      BoundedStep(net, start, d, i);
      DeeperIsSame(net, net(start[i].child), 0, t, d - 1);
      DeeperIsSame(net, start, i + 1, t, d);
      TotalStep(net, start, i, t, d, Total(net, net(start[i].child), 0, t, d - 1), Total(net, start, i + 1, t, d));
      TotalStep(net, start, i, t, d + 1, Total(net, net(start[i].child), 0, t, d - 1), Total(net, start, i + 1, t, d));
    }
  }

  /** One line's share is what its edge adds to the total. */
  lemma LineShare(links: seq<Link>, rows: seq<Link>, i: nat, t: Part, below: real, later: real)
    requires i < |rows|
    requires below == Total(FlattenNet(links, NoStops), FlattenNet(links, NoStops)(rows[i].child), 0, t, |Parents(links)|)
    requires below == Quantity(FlattenNet(links, NoStops), Seeds(links, rows[i].child), Parents(links), t)
    requires later == Total(FlattenNet(links, NoStops), FlattenEdges(rows), i + 1, t, |Parents(links)| + 1)
    ensures RowShare(links, true, LinesOf(rows)[i], t) + later
            == Total(FlattenNet(links, NoStops), FlattenEdges(rows), i, t, |Parents(links)| + 1)
  {
    var line := SheetRow(rows[i].child, FlattenQty(rows[i]));
    assert LinesOf(rows)[i] == line;
    ShareOf(links, line, t, below);
    EdgeTotal(FlattenNet(links, NoStops), FlattenEdges(rows), i, t, |Parents(links)| + 1, below, later, line);
  }

  lemma BelowLine(links: seq<Link>, rows: seq<Link>, i: nat, t: Part) returns (below: real)
    requires i < |rows|
    requires Bounded(FlattenNet(links, NoStops), FlattenEdges(rows), |Parents(links)| + 1)
    ensures below == Total(FlattenNet(links, NoStops), FlattenNet(links, NoStops)(rows[i].child), 0, t, |Parents(links)|)
    ensures below == Quantity(FlattenNet(links, NoStops), Seeds(links, rows[i].child), Parents(links), t)
  {
    var net, d, c := FlattenNet(links, NoStops), |Parents(links)| + 1, rows[i].child;
    BoundedStep(net, FlattenEdges(rows), d, i);
    NoStopsAt(links, c);
    DeeperIsSame(net, net(c), 0, t, d - 1);
    TotalIsPathSum(net, net(c), 0, t, d);
    below := Total(net, net(c), 0, t, d - 1);
  }

  lemma EdgeTotal(net: Net, edges: seq<Edge>, i: nat, t: Part, d: nat, below: real, later: real,
                  line: SheetRow)
    requires d > 0 && i < |edges| && edges[i] == Edge(line.part, line.qty)
    requires below == Total(net, net(edges[i].child), 0, t, d - 1) && later == Total(net, edges, i + 1, t, d)
    ensures Total(net, edges, i, t, d)
            == Added(line, t, below) + later
  {
    TotalStep(net, edges, i, t, d, below, later);
    ShareParts(line.qty, line.part == t, below);
    assert Hit(edges[i].child, t) == if line.part == t then 1.0 else 0.0;
  }

  lemma {:induction false} LinesTotal(links: seq<Link>, rows: seq<Link>, i: nat, t: Part)
    requires i <= |rows|
    requires Bounded(FlattenNet(links, NoStops), FlattenEdges(rows), |Parents(links)| + 1)
    ensures Weighted(links, true, LinesOf(rows)[i..], t)
            == Total(FlattenNet(links, NoStops), FlattenEdges(rows), i, t, |Parents(links)| + 1)
    decreases |rows| - i
  {
    if i < |rows| {
      LinesTotal(links, rows, i + 1, t);
      assert LinesOf(rows)[i..][1..] == LinesOf(rows)[i + 1..];
      var below := BelowLine(links, rows, i, t);
      LineShare(links, rows, i, t, below, Weighted(links, true, LinesOf(rows)[i + 1..], t));
    }
  }

  lemma LinesAreTotal(links: seq<Link>, root: Part, t: Part)
    requires Acyclic(FlattenNet(links, NoStops), Seeds(links, root))
    ensures Weighted(links, true, LinesOf(Query(links, root)), t)
            == Total(FlattenNet(links, NoStops), Seeds(links, root), 0, t, |Parents(links)| + 1)
  {
    FlattenNetExpands(links, NoStops);
    AcyclicIsBounded(FlattenNet(links, NoStops), Seeds(links, root), Parents(links));
    assert LinesOf(Query(links, root))[0..] == LinesOf(Query(links, root));
    LinesTotal(links, Query(links, root), 0, t);
  }

  /** A sheet that lists an assembly's own lines comes out as the assembly's flattened BOM. */
  lemma SheetOfLinesIsFlattened(links: seq<Link>, root: Part, t: Part)
    requires Acyclic(FlattenNet(links, NoStops), Seeds(links, root))
    ensures Weighted(links, true, LinesOf(Query(links, root)), t)
            == Quantity(FlattenNet(links, NoStops), Seeds(links, root), Parents(links), t)
  {
    LinesAreTotal(links, root, t);
    TotalIsPathSum(FlattenNet(links, NoStops), Seeds(links, root), 0, t, |Parents(links)| + 1);
  }
}
