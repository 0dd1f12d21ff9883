/** Paths through a bill of materials.

    Every BOM walker in the repository follows child edges from some starting list of edges. This module says
    what a path is, what a path multiplies up to, lists all paths, and characterises the nets on which there are
    only finitely many of them. A path is an address: its first entry is an index into the starting list, the next
    an index into the edges of the part just entered, and so on, so two link rows between the same two parts give
    two different paths. */
module BomPaths {
  datatype Part = Part(pn: string, rev: string)

  datatype Edge = Edge(child: Part, weight: real)

  /** The edges a walker follows out of a part. */
  type Net = Part -> seq<Edge>

  ghost predicate IsPath(net: Net, start: seq<Edge>, path: seq<nat>)
    decreases |path|
  {
    path == [] || (path[0] < |start| && IsPath(net, net(start[path[0]].child), path[1..]))
  }

  /** The parts a path enters, in order. */
  ghost function Visits(net: Net, start: seq<Edge>, path: seq<nat>): seq<Part>
    decreases |path|
  {
    if path == [] || |start| <= path[0] then []
    else [start[path[0]].child] + Visits(net, net(start[path[0]].child), path[1..])
  }

  /** The product of the edge weights along a path. */
  ghost function Product(net: Net, start: seq<Edge>, path: seq<nat>): real
    decreases |path|
  {
    if path == [] || |start| <= path[0] then 1.0
    else start[path[0]].weight * Product(net, net(start[path[0]].child), path[1..])
  }

  /** A non-empty path whose last step enters t. */
  ghost predicate EndsAt(net: Net, start: seq<Edge>, path: seq<nat>, t: Part)
    decreases |path|
  {
    path != [] && path[0] < |start| &&
    var c := start[path[0]].child;
    if |path| == 1 then c == t else EndsAt(net, net(c), path[1..], t)
  }

  ghost predicate Reaches(net: Net, start: seq<Edge>, t: Part) {
    exists path :: EndsAt(net, start, path, t)
  }

  lemma {:induction false} VisitsLength(net: Net, start: seq<Edge>, path: seq<nat>)
    requires IsPath(net, start, path)
    ensures |Visits(net, start, path)| == |path|
    decreases |path|
  {
    if path != [] {
      VisitsLength(net, net(start[path[0]].child), path[1..]);
    }
  }

  lemma {:induction false} EndsAtMeaning(net: Net, start: seq<Edge>, path: seq<nat>, t: Part)
    ensures EndsAt(net, start, path, t) <==>
            && path != [] && IsPath(net, start, path)
            && |Visits(net, start, path)| == |path| && Visits(net, start, path)[|path| - 1] == t
    decreases |path|
  {
    if path != [] && path[0] < |start| {
      var c := start[path[0]].child;
      var v := Visits(net, start, path);
      var w := Visits(net, net(c), path[1..]);
      assert v == [c] + w;
      if |path| > 1 {
        EndsAtMeaning(net, net(c), path[1..], t);
        assert |v| == |path| ==> v[|path| - 1] == w[|path| - 2];
      } else {
        assert path[1..] == [];
      }
    }
  }

  /** Two paths, the second leaving from where the first ends, join into one. */
  lemma {:induction false} PathJoin(net: Net, start: seq<Edge>, a: seq<nat>, mid: Part, b: seq<nat>)
    requires EndsAt(net, start, a, mid)
    requires IsPath(net, net(mid), b)
    ensures IsPath(net, start, a + b)
    ensures forall t :: b != [] && EndsAt(net, net(mid), b, t) ==> EndsAt(net, start, a + b, t)
    decreases |a|
  {
    var c := start[a[0]].child;
    assert (a + b)[0] == a[0] && (a + b)[1..] == a[1..] + b;
    if |a| == 1 {
      assert a[1..] + b == b;
    } else {
      PathJoin(net, net(c), a[1..], mid, b);
    }
  }

  /** A path splits at any point into a path and a path from the part reached there. */
  lemma {:induction false} PathSplit(net: Net, start: seq<Edge>, path: seq<nat>, k: nat)
    requires IsPath(net, start, path) && 1 <= k <= |path|
    ensures |Visits(net, start, path)| == |path|
    ensures EndsAt(net, start, path[..k], Visits(net, start, path)[k - 1])
    ensures IsPath(net, net(Visits(net, start, path)[k - 1]), path[k..])
    ensures Visits(net, net(Visits(net, start, path)[k - 1]), path[k..]) == Visits(net, start, path)[k..]
    decreases |path|
  {
    VisitsLength(net, start, path);
    var c := start[path[0]].child;
    var v := Visits(net, start, path);
    var w := Visits(net, net(c), path[1..]);
    assert v == [c] + w;
    assert path[..k][1..] == path[1..][..k - 1];
    if k > 1 {
      PathSplit(net, net(c), path[1..], k - 1);
      assert path[1..][k - 1..] == path[k..];
      assert w[k - 1..] == v[k..];
    }
  }

  // ----- Acyclic nets are the ones with bounded paths -----

  ghost predicate NoRepeat<T>(s: seq<T>) {
    forall i, j :: 0 <= i < j < |s| ==> s[i] != s[j]
  }

  /** No path enters a part twice. */
  ghost predicate Acyclic(net: Net, start: seq<Edge>) {
    forall path :: IsPath(net, start, path) ==> NoRepeat(Visits(net, start, path))
  }

  ghost predicate Bounded(net: Net, start: seq<Edge>, d: nat) {
    forall path :: IsPath(net, start, path) ==> |path| <= d
  }

  /** Only the parts in this set have edges. */
  ghost predicate ExpandsWithin(net: Net, parents: set<Part>) {
    forall p :: net(p) != [] ==> p in parents
  }

  lemma {:induction false} DistinctWithin(s: seq<Part>, all: set<Part>)
    requires NoRepeat(s)
    requires forall x :: x in s ==> x in all
    ensures |s| <= |all|
    decreases |s|
  {
    if s != [] {
      var rest := s[1..];
      forall x | x in rest ensures x in all - {s[0]} {
        var k :| 0 <= k < |rest| && rest[k] == x;
        assert s[k + 1] == x;
      }
      DistinctWithin(rest, all - {s[0]});
    }
  }

  lemma AcyclicIsBounded(net: Net, start: seq<Edge>, parents: set<Part>)
    requires Acyclic(net, start) && ExpandsWithin(net, parents)
    ensures Bounded(net, start, |parents| + 1)
  {
    forall path | IsPath(net, start, path) ensures |path| <= |parents| + 1 {
      if path != [] {
        var v := Visits(net, start, path);
        VisitsLength(net, start, path);
        var inner := v[..|v| - 1];
        forall x | x in inner ensures x in parents {
          var k :| 0 <= k < |inner| && inner[k] == x;
          PathSplit(net, start, path, k + 1);
          assert path[k + 1..] != [] && IsPath(net, net(x), path[k + 1..]);
        }
        DistinctWithin(inner, parents);
      }
    }
  }

  ghost function Repeated(loop: seq<nat>, n: nat): seq<nat> {
    if n == 0 then [] else loop + Repeated(loop, n - 1)
  }

  lemma {:induction false} PumpLoop(net: Net, c: Part, loop: seq<nat>, n: nat)
    requires EndsAt(net, net(c), loop, c)
    ensures IsPath(net, net(c), Repeated(loop, n))
    ensures |Repeated(loop, n)| >= n
  {
    if n > 0 {
      PumpLoop(net, c, loop, n - 1);
      PathJoin(net, net(c), loop, c, Repeated(loop, n - 1));
    }
  }

  lemma NothingBelowIsAcyclic(net: Net, start: seq<Edge>)
    requires forall p :: net(p) == []
    ensures Acyclic(net, start)
  {
    forall path | IsPath(net, start, path) ensures NoRepeat(Visits(net, start, path)) {
      if path != [] && path[0] < |start| {
        assert Visits(net, net(start[path[0]].child), path[1..]) == [];
      }
    }
  }

  /** Going round a loop any number of times. */
  lemma PumpedPath(net: Net, start: seq<Edge>, front: seq<nat>, c: Part, loop: seq<nat>, n: nat) returns (long: seq<nat>)
    requires EndsAt(net, start, front, c) && EndsAt(net, net(c), loop, c)
    ensures IsPath(net, start, long) && |long| > n
  {
    PumpLoop(net, c, loop, n);
    PathJoin(net, start, front, c, Repeated(loop, n));
    long := front + Repeated(loop, n);
  }

  /** Once a part can be entered twice, paths of every length exist. */
  lemma CyclicIsUnbounded(net: Net, start: seq<Edge>, n: nat) returns (long: seq<nat>)
    requires !Acyclic(net, start)
    ensures IsPath(net, start, long) && |long| > n
  {
    var path :| IsPath(net, start, path) && !NoRepeat(Visits(net, start, path));
    var v := Visits(net, start, path);
    VisitsLength(net, start, path);
    var i, j :| 0 <= i < j < |v| && v[i] == v[j];
    PathSplit(net, start, path, i + 1);
    var c := v[i];
    var tail := path[i + 1..];
    PathSplit(net, net(c), tail, j - i);
    var loop := tail[..j - i];
    assert Visits(net, net(c), tail)[j - i - 1] == v[i + 1..][j - i - 1] == v[j] == c;
    assert EndsAt(net, net(c), loop, c);
    long := PumpedPath(net, start, path[..i + 1], c, loop, n);
  }

  /** Bounded and acyclic are the same thing on a finite net. */
  lemma AcyclicIffBounded(net: Net, start: seq<Edge>, parents: set<Part>)
    requires ExpandsWithin(net, parents)
    ensures Acyclic(net, start) <==> exists d: nat :: Bounded(net, start, d)
    ensures Acyclic(net, start) ==> Bounded(net, start, |parents| + 1)
  {
    if Acyclic(net, start) {
      AcyclicIsBounded(net, start, parents);
    } else {
      forall d: nat ensures !Bounded(net, start, d) {
        var long := CyclicIsUnbounded(net, start, d);
      }
    }
  }

  /** Stepping along an edge uses up one unit of the bound. */
  lemma BoundedStep(net: Net, start: seq<Edge>, d: nat, i: nat)
    requires Bounded(net, start, d) && i < |start|
    ensures d > 0 && Bounded(net, net(start[i].child), d - 1)
  {
    assert IsPath(net, net(start[i].child), []);
    assert IsPath(net, start, [i]) by {
      assert [i][1..] == [];
    }
    forall path | IsPath(net, net(start[i].child), path) ensures |path| <= d - 1 {
      assert ([i] + path)[1..] == path;
      assert IsPath(net, start, [i] + path);
    }
  }

  // ----- The list of all paths -----

  ghost function Under(i: nat, paths: seq<seq<nat>>): seq<seq<nat>> {
    seq(|paths|, k requires 0 <= k < |paths| => [i] + paths[k])
  }

  /** All non-empty paths of at most d steps whose first step is at index i or later, in preorder. */
  ghost function Paths(net: Net, start: seq<Edge>, i: nat, d: nat): seq<seq<nat>>
    requires i <= |start|
    decreases d, |start| - i
  {
    if d == 0 || i == |start| then []
    else [[i]] + Under(i, Paths(net, net(start[i].child), 0, d - 1)) + Paths(net, start, i + 1, d)
  }

  /** Preorder: a path comes before its extensions, and those before anything branching off later. */
  ghost predicate Before(a: seq<nat>, b: seq<nat>)
    decreases |a|
  {
    b != [] && (a == [] || a[0] < b[0] || (a[0] == b[0] && Before(a[1..], b[1..])))
  }

  ghost predicate InPreorder(paths: seq<seq<nat>>) {
    forall x, y :: 0 <= x < y < |paths| ==> Before(paths[x], paths[y])
  }

  lemma {:induction false} BeforeIsStrict(a: seq<nat>, b: seq<nat>)
    requires Before(a, b)
    ensures a != b
    decreases |a|
  {
    if a != [] && a[0] == b[0] {
      BeforeIsStrict(a[1..], b[1..]);
    }
  }

  lemma PreorderIsDistinct(paths: seq<seq<nat>>)
    requires InPreorder(paths)
    ensures NoRepeat(paths)
  {
    forall x, y | 0 <= x < y < |paths| ensures paths[x] != paths[y] {
      BeforeIsStrict(paths[x], paths[y]);
    }
  }

  /** Putting together the paths through one edge and the paths through later edges keeps preorder. */
  lemma PreorderJoin(i: nat, inner: seq<seq<nat>>, later: seq<seq<nat>>)
    requires InPreorder(inner) && InPreorder(later)
    requires forall p :: p in inner ==> p != []
    requires forall p :: p in later ==> p != [] && i < p[0]
    ensures InPreorder([[i]] + Under(i, inner) + later)
  {
    var all := [[i]] + Under(i, inner) + later;
    forall x, y | 0 <= x < y < |all| ensures Before(all[x], all[y]) {
      if y <= |inner| {
        assert all[y] == [i] + inner[y - 1];
        assert all[y][1..] == inner[y - 1];
        assert inner[y - 1] in inner;
        if x > 0 {
          assert all[x][1..] == inner[x - 1];
        } else {
          assert all[x][1..] == [];
        }
      } else {
        assert all[y] == later[y - 1 - |inner|] && all[y] in later;
        if x > |inner| {
          assert all[x] == later[x - 1 - |inner|];
        } else if x > 0 {
          assert all[x] == [i] + inner[x - 1];
        }
      }
    }
  }

  lemma PathStep(net: Net, start: seq<Edge>, i: nat, q: seq<nat>)
    requires i < |start|
    ensures IsPath(net, start, [i] + q) <==> IsPath(net, net(start[i].child), q)
    ensures q != [] ==> forall t :: EndsAt(net, start, [i] + q, t) <==> EndsAt(net, net(start[i].child), q, t)
    ensures forall t :: EndsAt(net, start, [i], t) <==> start[i].child == t
    ensures Product(net, start, [i] + q) == start[i].weight * Product(net, net(start[i].child), q)
  {
    assert ([i] + q)[1..] == q;
  }

  lemma InUnder(i: nat, inner: seq<seq<nat>>, p: seq<nat>)
    ensures p in Under(i, inner) <==> p != [] && p[0] == i && p[1..] in inner
  {
    var all := Under(i, inner);
    if p in all {
      var k :| 0 <= k < |all| && all[k] == p;
      assert p == [i] + inner[k];
      assert p[1..] == inner[k];
    }
    if p != [] && p[0] == i && p[1..] in inner {
      var k :| 0 <= k < |inner| && inner[k] == p[1..];
      assert all[k] == [i] + p[1..] == p;
    }
  }

  /** The list holds every non-empty path of at most d steps and nothing else. */
  lemma {:induction false} PathsMember(net: Net, start: seq<Edge>, i: nat, d: nat, p: seq<nat>)
    requires i <= |start|
    ensures p in Paths(net, start, i, d) <==> p != [] && IsPath(net, start, p) && |p| <= d && i <= p[0]
    decreases d, |start| - i
  {
    if d > 0 && i < |start| {
      var inner := Paths(net, net(start[i].child), 0, d - 1);
      var later := Paths(net, start, i + 1, d);
      InUnder(i, inner, p);
      PathsMember(net, start, i + 1, d, p);
      if p != [] {
        PathsMember(net, net(start[i].child), 0, d - 1, p[1..]);
      }
      assert p in Paths(net, start, i, d) <==> p == [i] || p in Under(i, inner) || p in later;
      if p != [] && p[0] == i {
        assert p == [i] + p[1..];
        PathStep(net, start, i, p[1..]);
      }
    }
  }

  /** It holds each path once, in preorder. */
  lemma {:induction false} PathsInPreorder(net: Net, start: seq<Edge>, i: nat, d: nat)
    requires i <= |start|
    ensures InPreorder(Paths(net, start, i, d)) && NoRepeat(Paths(net, start, i, d))
    decreases d, |start| - i
  {
    if d > 0 && i < |start| {
      var inner := Paths(net, net(start[i].child), 0, d - 1);
      var later := Paths(net, start, i + 1, d);
      PathsInPreorder(net, net(start[i].child), 0, d - 1);
      PathsInPreorder(net, start, i + 1, d);
      forall p | p in inner ensures p != [] {
        PathsMember(net, net(start[i].child), 0, d - 1, p);
      }
      forall p | p in later ensures p != [] && i < p[0] {
        PathsMember(net, start, i + 1, d, p);
      }
      PreorderJoin(i, inner, later);
    }
    PreorderIsDistinct(Paths(net, start, i, d));
  }

  // ----- Sums over paths -----

  /** What one path contributes to part t: the product of its weights if it ends there. */
  ghost function Contribution(net: Net, start: seq<Edge>, path: seq<nat>, t: Part): real {
    if EndsAt(net, start, path, t) then Product(net, start, path) else 0.0
  }

  ghost function SumOver(net: Net, start: seq<Edge>, paths: seq<seq<nat>>, t: Part): real {
    if paths == [] then 0.0
    else Contribution(net, start, paths[0], t) + SumOver(net, start, paths[1..], t)
  }

  ghost function Hit(c: Part, t: Part): real {
    if c == t then 1.0 else 0.0
  }

  /** The same sum, computed edge by edge. */
  ghost function Total(net: Net, start: seq<Edge>, i: nat, t: Part, d: nat): real
    requires i <= |start|
    decreases d, |start| - i
  {
    if d == 0 || i == |start| then 0.0
    else
      start[i].weight * (Hit(start[i].child, t) + Total(net, net(start[i].child), 0, t, d - 1))
      + Total(net, start, i + 1, t, d)
  }

  lemma {:induction false} SumOverAppend(net: Net, start: seq<Edge>, a: seq<seq<nat>>, b: seq<seq<nat>>, t: Part)
    ensures SumOver(net, start, a + b, t) == SumOver(net, start, a, t) + SumOver(net, start, b, t)
    decreases |a|
  {
    if a == [] {
      assert a + b == b;
    } else {
      assert (a + b)[1..] == a[1..] + b;
      SumOverAppend(net, start, a[1..], b, t);
    }
  }

  lemma Distribute(w: real, a: real, b: real)
    ensures w * (a + b) == w * a + w * b
  {
  }

  lemma {:induction false} SumOverUnder(net: Net, start: seq<Edge>, i: nat, paths: seq<seq<nat>>, t: Part)
    requires i < |start|
    requires forall k :: 0 <= k < |paths| ==> paths[k] != []
    ensures SumOver(net, start, Under(i, paths), t)
            == start[i].weight * SumOver(net, net(start[i].child), paths, t)
    decreases |paths|
  {
    if paths != [] {
      var c := start[i].child;
      var p := paths[0];
      var w := start[i].weight;
      assert Under(i, paths)[1..] == Under(i, paths[1..]);
      SumOverUnder(net, start, i, paths[1..], t);
      assert Under(i, paths)[0] == [i] + p;
      PathStep(net, start, i, p);
      assert Contribution(net, start, [i] + p, t) == w * Contribution(net, net(c), p, t);
      Distribute(w, Contribution(net, net(c), p, t), SumOver(net, net(c), paths[1..], t));
    }
  }

  lemma SumOverOne(net: Net, start: seq<Edge>, i: nat, t: Part)
    requires i < |start|
    ensures SumOver(net, start, [[i]], t) == start[i].weight * Hit(start[i].child, t)
  {
    PathStep(net, start, i, []);
    assert [i] + [] == [i];
    assert [[i]][1..] == [];
  }

  lemma SumOverStep(net: Net, start: seq<Edge>, i: nat, t: Part, inner: seq<seq<nat>>, later: seq<seq<nat>>)
    requires i < |start|
    requires forall k :: 0 <= k < |inner| ==> inner[k] != []
    ensures SumOver(net, start, [[i]] + Under(i, inner) + later, t)
            == start[i].weight * (Hit(start[i].child, t) + SumOver(net, net(start[i].child), inner, t))
               + SumOver(net, start, later, t)
  {
    SumOverUnder(net, start, i, inner, t);
    SumOverOne(net, start, i, t);
    SumOverAppend(net, start, [[i]] + Under(i, inner), later, t);
    SumOverAppend(net, start, [[i]], Under(i, inner), t);
    Distribute(start[i].weight, Hit(start[i].child, t), SumOver(net, net(start[i].child), inner, t));
  }

  lemma TotalStep(net: Net, start: seq<Edge>, i: nat, t: Part, d: nat, inner: real, later: real)
    requires d > 0 && i < |start|
    requires Total(net, net(start[i].child), 0, t, d - 1) == inner && Total(net, start, i + 1, t, d) == later
    ensures Total(net, start, i, t, d) == start[i].weight * (Hit(start[i].child, t) + inner) + later
  {
  }

  lemma PathsStep(net: Net, start: seq<Edge>, i: nat, d: nat)
    requires d > 0 && i < |start|
    ensures Paths(net, start, i, d) == [[i]] + Under(i, Paths(net, net(start[i].child), 0, d - 1)) + Paths(net, start, i + 1, d)
  {
  }

  lemma NoEmptyPath(net: Net, start: seq<Edge>, i: nat, d: nat)
    requires i <= |start|
    ensures forall k :: 0 <= k < |Paths(net, start, i, d)| ==> Paths(net, start, i, d)[k] != []
  {
    forall k | 0 <= k < |Paths(net, start, i, d)| ensures Paths(net, start, i, d)[k] != [] {
      PathsMember(net, start, i, d, Paths(net, start, i, d)[k]);
    }
  }

  lemma PathSumStep(net: Net, start: seq<Edge>, i: nat, t: Part, d: nat, inner: seq<seq<nat>>, later: seq<seq<nat>>)
    requires d > 0 && i < |start| && forall k :: 0 <= k < |inner| ==> inner[k] != []
    requires Total(net, net(start[i].child), 0, t, d - 1) == SumOver(net, net(start[i].child), inner, t)
    requires Total(net, start, i + 1, t, d) == SumOver(net, start, later, t)
    ensures Total(net, start, i, t, d) == SumOver(net, start, [[i]] + Under(i, inner) + later, t)
  {
    SumOverStep(net, start, i, t, inner, later);
    TotalStep(net, start, i, t, d, SumOver(net, net(start[i].child), inner, t), SumOver(net, start, later, t));
  }

  /** The edge-by-edge total is the sum over the list of all paths. */
  lemma {:induction false} TotalIsPathSum(net: Net, start: seq<Edge>, i: nat, t: Part, d: nat)
    requires i <= |start|
    ensures Total(net, start, i, t, d) == SumOver(net, start, Paths(net, start, i, d), t)
    decreases d, |start| - i
  {
    if d > 0 && i < |start| {
      TotalIsPathSum(net, net(start[i].child), 0, t, d - 1);
      TotalIsPathSum(net, start, i + 1, t, d);
      NoEmptyPath(net, net(start[i].child), 0, d - 1);
      PathSumStep(net, start, i, t, d, Paths(net, net(start[i].child), 0, d - 1), Paths(net, start, i + 1, d));
      PathsStep(net, start, i, d);
    }
  }

  /** All non-empty paths of a net in which only these parts have edges. */
  ghost function AllPaths(net: Net, start: seq<Edge>, parents: set<Part>): seq<seq<nat>> {
    Paths(net, start, 0, |parents| + 1)
  }

  /** On an acyclic net the list is complete: every non-empty path is in it, once, in preorder. */
  lemma AllPathsExact(net: Net, start: seq<Edge>, parents: set<Part>)
    requires Acyclic(net, start) && ExpandsWithin(net, parents)
    ensures forall p :: p in AllPaths(net, start, parents) <==> p != [] && IsPath(net, start, p)
    ensures InPreorder(AllPaths(net, start, parents)) && NoRepeat(AllPaths(net, start, parents))
  {
    AcyclicIsBounded(net, start, parents);
    PathsInPreorder(net, start, 0, |parents| + 1);
    forall p ensures p in AllPaths(net, start, parents) <==> p != [] && IsPath(net, start, p) {
      PathsMember(net, start, 0, |parents| + 1, p);
    }
  }

  /** How much of part t the start list calls for: the sum, over all paths ending at t, of the product of the
      weights along the path. */
  ghost function Quantity(net: Net, start: seq<Edge>, parents: set<Part>, t: Part): real {
    SumOver(net, start, AllPaths(net, start, parents), t)
  }

  /** The number of paths, the empty one not counted. */
  ghost function Count(net: Net, start: seq<Edge>, i: nat, d: nat): nat
    requires i <= |start|
    decreases d, |start| - i
  {
    if d == 0 || i == |start| then 0
    else 1 + Count(net, net(start[i].child), 0, d - 1) + Count(net, start, i + 1, d)
  }

  // ----- Nets that agree everywhere -----

  lemma {:induction false} EqualNetsEqualPaths(a: Net, b: Net, start: seq<Edge>, path: seq<nat>)
    requires forall p :: a(p) == b(p)
    ensures IsPath(a, start, path) <==> IsPath(b, start, path)
    ensures Visits(a, start, path) == Visits(b, start, path)
    ensures forall t :: EndsAt(a, start, path, t) <==> EndsAt(b, start, path, t)
    decreases |path|
  {
    if path != [] && path[0] < |start| {
      EqualNetsEqualPaths(a, b, a(start[path[0]].child), path[1..]);
    }
  }

  lemma {:induction false} EqualNetsEqualTotals(a: Net, b: Net, start: seq<Edge>, i: nat, t: Part, d: nat)
    requires i <= |start| && forall p :: a(p) == b(p)
    ensures Total(a, start, i, t, d) == Total(b, start, i, t, d)
    decreases d, |start| - i
  {
    if d > 0 && i < |start| {
      EqualNetsEqualTotals(a, b, a(start[i].child), 0, t, d - 1);
      EqualNetsEqualTotals(a, b, start, i + 1, t, d);
      EqualSteps(a, b, start, i, t, d, Total(b, b(start[i].child), 0, t, d - 1), Total(b, start, i + 1, t, d));
    }
  }

  lemma EqualSteps(a: Net, b: Net, start: seq<Edge>, i: nat, t: Part, d: nat, inner: real, later: real)
    requires d > 0 && i < |start|
    requires Total(a, a(start[i].child), 0, t, d - 1) == inner && Total(a, start, i + 1, t, d) == later
    requires Total(b, b(start[i].child), 0, t, d - 1) == inner && Total(b, start, i + 1, t, d) == later
    ensures Total(a, start, i, t, d) == Total(b, start, i, t, d)
  {
    TotalStep(a, start, i, t, d, inner, later);
    TotalStep(b, start, i, t, d, inner, later);
  }

  // ----- Nets that stop at some parts -----

  ghost predicate Prunes(all: Net, pruned: Net, stops: Part -> bool) {
    forall p :: pruned(p) == if stops(p) then [] else all(p)
  }

  /** A net that has no edges below the stopping parts has exactly the paths without one before their end, with the same
      parts and products. */
  lemma {:induction false} PrunedPaths(all: Net, pruned: Net, stops: Part -> bool, start: seq<Edge>, path: seq<nat>)
    requires Prunes(all, pruned, stops)
    ensures IsPath(pruned, start, path)
            <==> IsPath(all, start, path)
                 && forall k :: 0 <= k < |Visits(all, start, path)| - 1 ==> !stops(Visits(all, start, path)[k])
    ensures IsPath(pruned, start, path) ==>
              Visits(pruned, start, path) == Visits(all, start, path) && Product(pruned, start, path) == Product(all, start, path)
    decreases |path|
  {
    if path != [] && path[0] < |start| {
      var c := start[path[0]].child;
      var rest := path[1..];
      var v, w := Visits(all, start, path), Visits(all, all(c), rest);
      assert v == [c] + w && pruned(c) == if stops(c) then [] else all(c);
      if !stops(c) {
        PrunedPaths(all, pruned, stops, all(c), rest);
        assert forall k :: 0 <= k < |w| ==> v[k + 1] == w[k];
      } else if rest != [] {
        assert !IsPath(pruned, pruned(c), rest);
        if IsPath(all, all(c), rest) {
          VisitsLength(all, all(c), rest);
          assert v[0] == c;
        }
      }
    }
  }
}
