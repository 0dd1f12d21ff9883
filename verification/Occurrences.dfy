/** The occurrence walk: for every part, one entry per path and per occurrence on it, with a dotted level path
    (app/services/docpacks.py). */
module Occurrences {
  import opened Wrappers
  import opened BomPaths
  import opened BomLinks
  import opened StackWalk
  import FlattenBom

  /** One occurrence of a link: the child, its quantity there, and the level-path segment it adds. */
  datatype Place = Place(child: Part, weight: real, segment: nat)

  type PlaceNet = Part -> seq<Place>

  /** An entry of the result: a level path and the quantity accumulated along it. */
  datatype Entry = Entry(level: seq<nat>, qty: real)

  datatype Waiting = Waiting(part: Part, level: seq<nat>, qty: real)

  function Segment(o: Occurrence, linkIndex: nat): nat {
    o.seqNo.GetOr(linkIndex)
  }

  /** The places one row stands for; linkIndex counts rows from one. */
  function PlacesOf(l: Link, linkIndex: nat): seq<Place> {
    var qtys := OccurrenceQtys(l);
    seq(|qtys|, j requires 0 <= j < |qtys| =>
      Place(l.child, qtys[j], if l.occurrences == [] then linkIndex else Segment(l.occurrences[j], linkIndex)))
  }

  /** Each place has the row's child, the quantity read for it, and its sequence number, or the row's number if it has
      none. */
  lemma PlacesRead(l: Link, linkIndex: nat, j: nat)
    requires j < |OccurrenceQtys(l)|
    ensures |PlacesOf(l, linkIndex)| == |OccurrenceQtys(l)|
    ensures var place := PlacesOf(l, linkIndex)[j];
            && place.child == l.child && place.weight == OccurrenceQtys(l)[j]
            && (l.occurrences == [] || l.occurrences[j].seqNo == None ==> place.segment == linkIndex)
            && (l.occurrences != [] && l.occurrences[j].seqNo != None ==> l.occurrences[j].seqNo == Some(place.segment))
  {
  }

  /** The places of the first n rows. */
  function Places(rows: seq<Link>, n: nat): seq<Place>
    requires n <= |rows|
  {
    if n == 0 then [] else Places(rows, n - 1) + PlacesOf(rows[n - 1], n)
  }

  function AllPlaces(links: seq<Link>, p: Part): seq<Place> {
    var rows := Query(links, p);
    Places(rows, |rows|)
  }

  function OccurrenceNet(links: seq<Link>, stops: Part -> bool): PlaceNet {
    p => if stops(p) then [] else AllPlaces(links, p)
  }

  function Edges(places: seq<Place>): seq<Edge> {
    seq(|places|, k requires 0 <= k < |places| => Edge(places[k].child, places[k].weight))
  }

  function Plain(net: PlaceNet): Net {
    p => Edges(net(p))
  }

  // ----- The specification: entries of all paths -----

  /** The level path a path spells out. */
  ghost function Level(net: PlaceNet, start: seq<Place>, path: seq<nat>): seq<nat>
    decreases |path|
  {
    if path == [] || |start| <= path[0] then []
    else [start[path[0]].segment] + Level(net, net(start[path[0]].child), path[1..])
  }

  ghost function EntryAt(net: PlaceNet, start: seq<Place>, path: seq<nat>): Entry {
    Entry(Level(net, start, path), Product(Plain(net), Edges(start), path))
  }

  /** The entries of the listed paths that end at t, in the order of the list. */
  ghost function EntriesOf(net: PlaceNet, start: seq<Place>, paths: seq<seq<nat>>, t: Part): seq<Entry> {
    if paths == [] then []
    else
      (if EndsAt(Plain(net), Edges(start), paths[0], t)
       then [EntryAt(net, start, paths[0])] else [])
      + EntriesOf(net, start, paths[1..], t)
  }

  /** Every part a path leads to has exactly the entries of the paths ending at it. */
  ghost predicate IsOccurrenceMap(occ: map<Part, seq<Entry>>, net: PlaceNet, start: seq<Place>, parents: set<Part>) {
    && (forall t :: t in occ <==> Reaches(Plain(net), Edges(start), t))
    && (forall t :: t in occ ==>
          multiset(occ[t]) == multiset(EntriesOf(net, start, AllPaths(Plain(net), Edges(start), parents), t)))
  }

  function SumQty(entries: seq<Entry>): real {
    if entries == [] then 0.0 else entries[0].qty + SumQty(entries[1..])
  }

  // ----- The same entries, tallied place by place -----

  /** An entry looked for: under which part, and which entry. */
  datatype Sought = Sought(part: Part, entry: Entry)

  ghost function One(p: Part, e: Entry, t: Sought): nat {
    if p == t.part && e == t.entry then 1 else 0
  }

  /** How often the sought entry occurs among the paths below base. */
  ghost function Tally(net: PlaceNet, start: seq<Place>, i: nat, base: Entry, t: Sought, d: nat): nat
    requires i <= |start|
    decreases d, |start| - i
  {
    if d == 0 || i == |start| then 0
    else
      var e := Extend(base, start[i]);
      One(start[i].child, e, t) + Tally(net, net(start[i].child), 0, e, t, d - 1) + Tally(net, start, i + 1, base, t, d)
  }

  function Extend(base: Entry, p: Place): Entry {
    Entry(base.level + [p.segment], p.weight * base.qty)
  }

  /** An entry found below base, seen from the start. */
  function Rebase(base: Entry, e: Entry): Entry {
    Entry(base.level + e.level, base.qty * e.qty)
  }

  function RebaseAll(base: Entry, entries: seq<Entry>): seq<Entry> {
    seq(|entries|, k requires 0 <= k < |entries| => Rebase(base, entries[k]))
  }

  lemma RebaseAppend(base: Entry, a: seq<Entry>, b: seq<Entry>)
    ensures RebaseAll(base, a + b) == RebaseAll(base, a) + RebaseAll(base, b)
  {
  }

  lemma Reorder(a: real, b: real, c: real)
    ensures a * (b * c) == (b * a) * c
  {
  }

  lemma RebasePlace(base: Entry, p: Place, e: Entry)
    ensures Rebase(base, Entry([p.segment], p.weight)) == Extend(base, p)
    ensures Rebase(base, Rebase(Entry([p.segment], p.weight), e)) == Rebase(Extend(base, p), e)
  {
    Reorder(base.qty, p.weight, e.qty);
    assert base.level + ([p.segment] + e.level) == (base.level + [p.segment]) + e.level;
  }

  lemma RebaseTwice(base: Entry, p: Place, entries: seq<Entry>)
    ensures RebaseAll(base, RebaseAll(Entry([p.segment], p.weight), entries)) == RebaseAll(Extend(base, p), entries)
  {
    var once := RebaseAll(Entry([p.segment], p.weight), entries);
    forall k | 0 <= k < |entries|
      ensures RebaseAll(base, once)[k] == RebaseAll(Extend(base, p), entries)[k]
    {
      RebasePlace(base, p, entries[k]);
    }
  }

  lemma RebaseNothing(entries: seq<Entry>)
    ensures RebaseAll(Entry([], 1.0), entries) == entries
  {
    forall k | 0 <= k < |entries| ensures RebaseAll(Entry([], 1.0), entries)[k] == entries[k] {
      assert [] + entries[k].level == entries[k].level;
    }
  }

  lemma {:induction false} EntriesAppend(net: PlaceNet, start: seq<Place>, a: seq<seq<nat>>, b: seq<seq<nat>>, t: Part)
    ensures EntriesOf(net, start, a + b, t) == EntriesOf(net, start, a, t) + EntriesOf(net, start, b, t)
    decreases |a|
  {
    if a == [] {
      assert a + b == b;
    } else {
      assert (a + b)[1..] == a[1..] + b;
      EntriesAppend(net, start, a[1..], b, t);
    }
  }

  lemma OneEntry(net: PlaceNet, start: seq<Place>, i: nat, t: Part)
    requires i < |start|
    ensures EntriesOf(net, start, [[i]], t)
            == if start[i].child == t then [Entry([start[i].segment], start[i].weight)] else []
  {
    PathStep(Plain(net), Edges(start), i, []);
    assert [i] + [] == [i] && [i][1..] == [] && [[i]][1..] == [];
    assert EntriesOf(net, start, [], t) == [];
    assert Level(net, start, [i]) == [start[i].segment];
  }

  lemma LevelUnder(net: PlaceNet, start: seq<Place>, i: nat, path: seq<nat>)
    requires i < |start|
    ensures Level(net, start, [i] + path) == [start[i].segment] + Level(net, net(start[i].child), path)
  {
    assert ([i] + path)[1..] == path;
  }

  lemma EntryUnder(net: PlaceNet, start: seq<Place>, i: nat, path: seq<nat>)
    requires i < |start|
    ensures EntryAt(net, start, [i] + path)
            == Rebase(Entry([start[i].segment], start[i].weight), EntryAt(net, net(start[i].child), path))
  {
    PathStep(Plain(net), Edges(start), i, path);
    LevelUnder(net, start, i, path);
  }

  lemma {:induction false} EntriesUnder(net: PlaceNet, start: seq<Place>, i: nat, paths: seq<seq<nat>>, t: Part)
    requires i < |start|
    requires forall k :: 0 <= k < |paths| ==> paths[k] != []
    ensures EntriesOf(net, start, Under(i, paths), t)
            == RebaseAll(Entry([start[i].segment], start[i].weight), EntriesOf(net, net(start[i].child), paths, t))
    decreases |paths|
  {
    if paths != [] {
      assert Under(i, paths)[1..] == Under(i, paths[1..]);
      assert Under(i, paths)[0] == [i] + paths[0];
      EntriesUnder(net, start, i, paths[1..], t);
      EntryUnder(net, start, i, paths[0]);
      PathStep(Plain(net), Edges(start), i, paths[0]);
    }
  }

  lemma EntriesStep(net: PlaceNet, start: seq<Place>, i: nat, base: Entry, inner: seq<seq<nat>>, later: seq<seq<nat>>, t: Part)
    requires i < |start|
    requires forall k :: 0 <= k < |inner| ==> inner[k] != []
    ensures RebaseAll(base, EntriesOf(net, start, [[i]] + Under(i, inner) + later, t))
            == (if start[i].child == t then [Extend(base, start[i])] else [])
               + RebaseAll(Extend(base, start[i]), EntriesOf(net, net(start[i].child), inner, t))
               + RebaseAll(base, EntriesOf(net, start, later, t))
  {
    var first, below, rest := EntriesOf(net, start, [[i]], t), EntriesOf(net, start, Under(i, inner), t),
                              EntriesOf(net, start, later, t);
    EntriesAppend(net, start, [[i]] + Under(i, inner), later, t);
    EntriesAppend(net, start, [[i]], Under(i, inner), t);
    RebaseAppend(base, first + below, rest);
    RebaseAppend(base, first, below);
    OneEntry(net, start, i, t);
    EntriesUnder(net, start, i, inner, t);
    RebaseTwice(base, start[i], EntriesOf(net, net(start[i].child), inner, t));
    if start[i].child == t {
      RebasePlace(base, start[i], base);
      assert RebaseAll(base, first)[0] == Extend(base, start[i]);
      assert RebaseAll(base, first) == [Extend(base, start[i])];
    } else {
      assert RebaseAll(base, first) == [];
    }
  }

  /** How often the sought entry occurs among the entries of these paths, seen from base. */
  ghost function Listed(net: PlaceNet, start: seq<Place>, paths: seq<seq<nat>>, base: Entry, t: Sought): nat {
    multiset(RebaseAll(base, EntriesOf(net, start, paths, t.part)))[t.entry]
  }

  lemma ListedStep(net: PlaceNet, start: seq<Place>, i: nat, base: Entry, t: Sought, d: nat)
    requires i < |start| && d > 0
    ensures Listed(net, start, Paths(Plain(net), Edges(start), i, d), base, t)
            == One(start[i].child, Extend(base, start[i]), t)
               + Listed(net, net(start[i].child), Paths(Plain(net), Edges(net(start[i].child)), 0, d - 1), Extend(base, start[i]), t)
               + Listed(net, start, Paths(Plain(net), Edges(start), i + 1, d), base, t)
  {
    var inner := Paths(Plain(net), Edges(net(start[i].child)), 0, d - 1);
    var later := Paths(Plain(net), Edges(start), i + 1, d);
    forall k | 0 <= k < |inner| ensures inner[k] != [] {
      PathsMember(Plain(net), Edges(net(start[i].child)), 0, d - 1, inner[k]);
    }
    assert Paths(Plain(net), Edges(start), i, d) == [[i]] + Under(i, inner) + later;
    EntriesStep(net, start, i, base, inner, later, t.part);
  }

  lemma {:induction false} TallyIsCount(net: PlaceNet, start: seq<Place>, i: nat, base: Entry, t: Sought, d: nat)
    requires i <= |start|
    ensures Tally(net, start, i, base, t, d) == Listed(net, start, Paths(Plain(net), Edges(start), i, d), base, t)
    decreases d, |start| - i
  {
    if d == 0 || i == |start| {
      assert RebaseAll(base, []) == [];
    } else {
      TallyIsCount(net, net(start[i].child), 0, Extend(base, start[i]), t, d - 1);
      TallyIsCount(net, start, i + 1, base, t, d);
      ListedStep(net, start, i, base, t, d);
    }
  }

  // ----- The stack -----

  function WaitingFor(p: Place, level: seq<nat>, qty: real): Waiting {
    Waiting(p.child, level + [p.segment], p.weight * qty)
  }

  function WaitingAll(places: seq<Place>, i: nat, level: seq<nat>, qty: real): seq<Waiting>
    requires i <= |places|
  {
    seq(i, k requires 0 <= k < i => WaitingFor(places[k], level, qty))
  }

  function AsFrames(stack: seq<Waiting>): seq<Frame> {
    seq(|stack|, k requires 0 <= k < |stack| => Frame(stack[k].part, stack[k].qty))
  }

  /** The entries for t one waiting place will still produce. */
  ghost function OwedTally(net: PlaceNet, w: Waiting, d: nat, t: Sought): nat {
    One(w.part, Entry(w.level, w.qty), t) + Tally(net, net(w.part), 0, Entry(w.level, w.qty), t, d)
  }

  ghost function PendingTally(net: PlaceNet, stack: seq<Waiting>, depths: seq<nat>, t: Sought): nat
    requires |stack| == |depths|
  {
    if stack == [] then 0
    else
      var n := |stack| - 1;
      PendingTally(net, stack[..n], depths[..n], t) + OwedTally(net, stack[n], depths[n], t)
  }

  lemma PendingTallyLast(net: PlaceNet, stack: seq<Waiting>, depths: seq<nat>, w: Waiting, d: nat, t: Sought)
    requires |stack| == |depths|
    ensures PendingTally(net, stack + [w], depths + [d], t) == PendingTally(net, stack, depths, t) + OwedTally(net, w, d, t)
  {
    assert (stack + [w])[..|stack|] == stack && (depths + [d])[..|stack|] == depths;
  }

  lemma TallyStep(net: PlaceNet, places: seq<Place>, i: nat, base: Entry, t: Sought, d: nat)
    requires i < |places| && d > 0
    ensures Tally(net, places, i, base, t, d)
            == OwedTally(net, WaitingFor(places[i], base.level, base.qty), d - 1, t) + Tally(net, places, i + 1, base, t, d)
  {
    var w := WaitingFor(places[i], base.level, base.qty);
    assert Entry(w.level, w.qty) == Extend(base, places[i]);
  }

  lemma WaitingOne(stack: seq<Waiting>, depths: seq<nat>, places: seq<Place>, i: nat, level: seq<nat>, qty: real, d: nat)
    requires |stack| == |depths| && 0 < i <= |places| && d > 0
    ensures stack + WaitingAll(places, i, level, qty)
            == stack + WaitingAll(places, i - 1, level, qty) + [WaitingFor(places[i - 1], level, qty)]
    ensures depths + Levels(i, d - 1) == depths + Levels(i - 1, d - 1) + [d - 1]
  {
    assert WaitingAll(places, i, level, qty) == WaitingAll(places, i - 1, level, qty) + [WaitingFor(places[i - 1], level, qty)];
    assert Levels(i, d - 1) == Levels(i - 1, d - 1) + [d - 1];
  }

  /** The entries the places from index i on will produce. */
  ghost function OwedTallyFrom(net: PlaceNet, places: seq<Place>, i: nat, base: Entry, t: Sought, d: nat): nat
    requires i <= |places|
    decreases |places| - i
  {
    if i == |places| then 0
    else OwedTally(net, WaitingFor(places[i], base.level, base.qty), d, t) + OwedTallyFrom(net, places, i + 1, base, t, d)
  }

  lemma {:induction false} OwedIsTally(net: PlaceNet, places: seq<Place>, i: nat, base: Entry, t: Sought, d: nat)
    requires i <= |places| && d > 0
    ensures OwedTallyFrom(net, places, i, base, t, d - 1) == Tally(net, places, i, base, t, d)
    decreases |places| - i
  {
    if i < |places| {
      OwedIsTally(net, places, i + 1, base, t, d);
      TallyStep(net, places, i, base, t, d);
    }
  }

  lemma {:induction false} PendingTallyPushed(net: PlaceNet, stack: seq<Waiting>, depths: seq<nat>, places: seq<Place>,
                                            i: nat, base: Entry, t: Sought, d: nat)
    requires |stack| == |depths| && i <= |places| && d > 0
    ensures PendingTally(net, stack + WaitingAll(places, i, base.level, base.qty), depths + Levels(i, d - 1), t)
              + OwedTallyFrom(net, places, i, base, t, d - 1)
            == PendingTally(net, stack, depths, t) + OwedTallyFrom(net, places, 0, base, t, d - 1)
  {
    if i == 0 {
      assert stack + WaitingAll(places, 0, base.level, base.qty) == stack && depths + Levels(0, d - 1) == depths;
    } else {
      PendingTallyPushed(net, stack, depths, places, i - 1, base, t, d);
      WaitingOne(stack, depths, places, i, base.level, base.qty, d);
      OnePushed(net, stack + WaitingAll(places, i - 1, base.level, base.qty), depths + Levels(i - 1, d - 1), places, i, base, t, d);
    }
  }

  lemma OnePushed(net: PlaceNet, stack: seq<Waiting>, depths: seq<nat>, places: seq<Place>, i: nat, base: Entry, t: Sought,
                  d: nat)
    requires |stack| == |depths| && 0 < i <= |places| && d > 0
    ensures PendingTally(net, stack + [WaitingFor(places[i - 1], base.level, base.qty)], depths + [d - 1], t)
              + OwedTallyFrom(net, places, i, base, t, d - 1)
            == PendingTally(net, stack, depths, t) + OwedTallyFrom(net, places, i - 1, base, t, d - 1)
  {
    PendingTallyLast(net, stack, depths, WaitingFor(places[i - 1], base.level, base.qty), d - 1, t);
  }

  /** Pushing the places of a part moves exactly what they owe onto the stack. */
  lemma PendingTallyPush(net: PlaceNet, stack: seq<Waiting>, depths: seq<nat>, places: seq<Place>, base: Entry, t: Sought, d: nat)
    requires |stack| == |depths| && d > 0
    ensures PendingTally(net, stack + WaitingAll(places, |places|, base.level, base.qty), depths + Levels(|places|, d - 1), t)
            == PendingTally(net, stack, depths, t) + OwedTallyFrom(net, places, 0, base, t, d - 1)
  {
    PendingTallyPushed(net, stack, depths, places, |places|, base, t, d);
  }

  lemma WaitingAsFrames(places: seq<Place>, level: seq<nat>, qty: real)
    ensures AsFrames(WaitingAll(places, |places|, level, qty)) == Frames(Edges(places), |places|, qty)
  {
    forall k | 0 <= k < |places|
      ensures AsFrames(WaitingAll(places, |places|, level, qty))[k] == FrameFor(Edges(places)[k], qty)
    {
    }
  }

  /** A popped place owes its own entry, and what the places pushed for it will owe. */
  lemma OwedTallyOnPop(net: PlaceNet, w: Waiting, d: nat, t: Sought)
    ensures d == 0 ==> OwedTally(net, w, d, t) == One(w.part, Entry(w.level, w.qty), t)
    ensures d > 0 ==> OwedTally(net, w, d, t) == One(w.part, Entry(w.level, w.qty), t)
                                               + OwedTallyFrom(net, net(w.part), 0, Entry(w.level, w.qty), t, d - 1)
  {
    if d > 0 {
      OwedIsTally(net, net(w.part), 0, Entry(w.level, w.qty), t, d);
    }
  }

  lemma PendingTallySplit(net: PlaceNet, stack: seq<Waiting>, depths: seq<nat>, t: Sought)
    requires |stack| == |depths| && stack != []
    ensures var n := |stack| - 1;
            PendingTally(net, stack, depths, t)
            == PendingTally(net, stack[..n], depths[..n], t) + OwedTally(net, stack[n], depths[n], t)
  {
  }

  ghost function NextWaiting(net: PlaceNet, stack: seq<Waiting>): seq<Waiting>
    requires stack != []
  {
    var n := |stack| - 1;
    stack[..n] + WaitingAll(net(stack[n].part), |net(stack[n].part)|, stack[n].level, stack[n].qty)
  }

  lemma NextAsFrames(net: PlaceNet, stack: seq<Waiting>)
    requires stack != []
    ensures AsFrames(NextWaiting(net, stack)) == NextStack(Plain(net), AsFrames(stack))
  {
    var n := |stack| - 1;
    WaitingAsFrames(net(stack[n].part), stack[n].level, stack[n].qty);
    assert AsFrames(stack)[..n] == AsFrames(stack[..n]);
    assert AsFrames(NextWaiting(net, stack))
           == AsFrames(stack[..n]) + AsFrames(WaitingAll(net(stack[n].part), |net(stack[n].part)|, stack[n].level, stack[n].qty));
  }

  /** A round moves exactly the popped entry out of what is pending. */
  lemma RoundKeepsTally(net: PlaceNet, stack: seq<Waiting>, depths: seq<nat>, t: Sought)
    requires |stack| == |depths| && stack != []
    requires depths[|stack| - 1] == 0 ==> net(stack[|stack| - 1].part) == []
    ensures |NextWaiting(net, stack)| == |NextDepths(Plain(net), AsFrames(stack), depths)|
    ensures var w := stack[|stack| - 1];
            PendingTally(net, NextWaiting(net, stack), NextDepths(Plain(net), AsFrames(stack), depths), t)
              + One(w.part, Entry(w.level, w.qty), t)
            == PendingTally(net, stack, depths, t)
  {
    var n := |stack| - 1;
    var w := stack[n];
    var places := net(w.part);
    PendingTallySplit(net, stack, depths, t);
    OwedTallyOnPop(net, w, depths[n], t);
    assert |Plain(net)(w.part)| == |places|;
    if depths[n] == 0 {
      assert NextWaiting(net, stack) == stack[..n];
    } else {
      PendingTallyPush(net, stack[..n], depths[..n], places, Entry(w.level, w.qty), t, depths[n]);
      assert NextDepths(Plain(net), AsFrames(stack), depths) == depths[..n] + Levels(|places|, depths[n] - 1);
    }
  }

  // ----- The walk -----

  function Append(occ: map<Part, seq<Entry>>, p: Part, e: Entry): map<Part, seq<Entry>> {
    occ[p := (if p in occ then occ[p] else []) + [e]]
  }

  ghost function Noted(occ: map<Part, seq<Entry>>, t: Sought): nat {
    if t.part in occ then multiset(occ[t.part])[t.entry] else 0
  }

  ghost predicate Accounts(occ: map<Part, seq<Entry>>, net: PlaceNet, start: seq<Place>, stack: seq<Waiting>,
                           depths: seq<nat>, d: nat)
  {
    && Within(Plain(net), AsFrames(stack), depths)
    && (forall t: Sought :: Noted(occ, t) + PendingTally(net, stack, depths, t) == Tally(net, start, 0, Entry([], 1.0), t, d))
    && (forall t :: Reaches(Plain(net), Edges(start), t) <==> t in occ || Ahead(Plain(net), AsFrames(stack), t))
  }

  lemma SeedsAccount(net: PlaceNet, start: seq<Place>, d: nat)
    requires Bounded(Plain(net), Edges(start), d) && d > 0
    ensures Accounts(map[], net, start, WaitingAll(start, |start|, [], 1.0), Levels(|start|, d - 1), d)
  {
    var stack, depths := WaitingAll(start, |start|, [], 1.0), Levels(|start|, d - 1);
    var edges := Edges(start);
    WithinPush(Plain(net), [], [], edges, 1.0, d);
    WaitingAsFrames(start, [], 1.0);
    assert [] + Frames(edges, |edges|, 1.0) == AsFrames(stack) && [] + depths == depths;
    forall t: Sought
      ensures Noted(map[], t) + PendingTally(net, stack, depths, t) == Tally(net, start, 0, Entry([], 1.0), t, d)
    {
      SeedsOwe(net, start, stack, depths, d, t);
    }
    forall t
      ensures Reaches(Plain(net), edges, t) <==> Ahead(Plain(net), AsFrames(stack), t)
    {
      AheadPush(Plain(net), [], edges, 1.0, t);
      assert !Ahead(Plain(net), [], t);
    }
  }

  lemma SeedsOwe(net: PlaceNet, start: seq<Place>, stack: seq<Waiting>, depths: seq<nat>, d: nat, t: Sought)
    requires d > 0 && stack == WaitingAll(start, |start|, [], 1.0) && depths == Levels(|start|, d - 1)
    ensures |stack| == |depths| && PendingTally(net, stack, depths, t) == Tally(net, start, 0, Entry([], 1.0), t, d)
  {
    assert [] + stack == stack && [] + depths == depths;
    PendingTallyPush(net, [], [], start, Entry([], 1.0), t, d);
    OwedIsTally(net, start, 0, Entry([], 1.0), t, d);
  }

  lemma RoundNotes(occ: map<Part, seq<Entry>>, net: PlaceNet, stack: seq<Waiting>, depths: seq<nat>, t: Sought)
    requires |stack| == |depths| && stack != []
    requires depths[|stack| - 1] == 0 ==> net(stack[|stack| - 1].part) == []
    ensures |NextWaiting(net, stack)| == |NextDepths(Plain(net), AsFrames(stack), depths)|
    ensures var w := stack[|stack| - 1];
            Noted(Append(occ, w.part, Entry(w.level, w.qty)), t)
              + PendingTally(net, NextWaiting(net, stack), NextDepths(Plain(net), AsFrames(stack), depths), t)
            == Noted(occ, t) + PendingTally(net, stack, depths, t)
  {
    var w := stack[|stack| - 1];
    RoundKeepsTally(net, stack, depths, t);
    assert Noted(Append(occ, w.part, Entry(w.level, w.qty)), t) == Noted(occ, t) + One(w.part, Entry(w.level, w.qty), t);
  }

  lemma RoundAccounts(occ: map<Part, seq<Entry>>, net: PlaceNet, start: seq<Place>, stack: seq<Waiting>,
                      depths: seq<nat>, d: nat)
    requires Accounts(occ, net, start, stack, depths, d) && stack != []
    ensures var w := stack[|stack| - 1];
            && Accounts(Append(occ, w.part, Entry(w.level, w.qty)), net, start, NextWaiting(net, stack),
                        NextDepths(Plain(net), AsFrames(stack), depths), d)
            && Work(Plain(net), AsFrames(NextWaiting(net, stack)), NextDepths(Plain(net), AsFrames(stack), depths))
               < Work(Plain(net), AsFrames(stack), depths)
  {
    var w := stack[|stack| - 1];
    var next := Append(occ, w.part, Entry(w.level, w.qty));
    NextAsFrames(net, stack);
    RoundWithin(Plain(net), AsFrames(stack), depths);
    RoundUsesWork(Plain(net), AsFrames(stack), depths);
    assert |Plain(net)(w.part)| == |net(w.part)|;
    forall t: Sought
      ensures Noted(next, t) + PendingTally(net, NextWaiting(net, stack), NextDepths(Plain(net), AsFrames(stack), depths), t)
              == Tally(net, start, 0, Entry([], 1.0), t, d)
    {
      RoundNotes(occ, net, stack, depths, t);
    }
    forall t
      ensures Reaches(Plain(net), Edges(start), t) <==> t in next || Ahead(Plain(net), AsFrames(NextWaiting(net, stack)), t)
    {
      RoundKeepsAhead(Plain(net), AsFrames(stack), t);
    }
  }

  lemma EmptyStackIsMap(occ: map<Part, seq<Entry>>, net: PlaceNet, start: seq<Place>, parents: set<Part>)
    requires Accounts(occ, net, start, [], [], |parents| + 1)
    ensures IsOccurrenceMap(occ, net, start, parents)
  {
    var paths := AllPaths(Plain(net), Edges(start), parents);
    forall t ensures t in occ <==> Reaches(Plain(net), Edges(start), t) {
      assert !Ahead(Plain(net), AsFrames([]), t);
    }
    forall t, e | t in occ
      ensures multiset(occ[t])[e] == multiset(EntriesOf(net, start, paths, t))[e]
    {
      assert Noted(occ, Sought(t, e)) + PendingTally(net, [], [], Sought(t, e))
             == Tally(net, start, 0, Entry([], 1.0), Sought(t, e), |parents| + 1);
      TallyIsCount(net, start, 0, Entry([], 1.0), Sought(t, e), |parents| + 1);
      RebaseNothing(EntriesOf(net, start, paths, t));
    }
  }

  /** Push one waiting place per row and occurrence. */
  method PushPlaces(stack: seq<Waiting>, rows: seq<Link>, level: seq<nat>, qty: real) returns (pushed: seq<Waiting>)
    ensures pushed == stack + WaitingAll(Places(rows, |rows|), |Places(rows, |rows|)|, level, qty)
  {
    pushed := stack;
    for i := 0 to |rows|
      invariant pushed == stack + WaitingAll(Places(rows, i), |Places(rows, i)|, level, qty)
    {
      pushed := PushRow(pushed, rows[i], i, level, qty);
      PushedRow(stack, rows, i, level, qty);
    }
  }

  lemma PushedRow(stack: seq<Waiting>, rows: seq<Link>, i: nat, level: seq<nat>, qty: real)
    requires i < |rows|
    ensures var here := PlacesOf(rows[i], i + 1);
            (stack + WaitingAll(Places(rows, i), |Places(rows, i)|, level, qty)) + WaitingAll(here, |here|, level, qty)
            == stack + WaitingAll(Places(rows, i + 1), |Places(rows, i + 1)|, level, qty)
  {
    var done, here := Places(rows, i), PlacesOf(rows[i], i + 1);
    WaitingAppend(done, here, level, qty);
    assert Places(rows, i + 1) == done + here;
  }

  /** Push the places of the i-th row. */
  method PushRow(stack: seq<Waiting>, l: Link, i: nat, level: seq<nat>, qty: real) returns (pushed: seq<Waiting>)
    ensures pushed == stack + WaitingAll(PlacesOf(l, i + 1), |PlacesOf(l, i + 1)|, level, qty)
  {
    pushed := stack;
    var qtys := OccurrenceQtys(l);
    ghost var here := PlacesOf(l, i + 1);
    for j := 0 to |qtys|
      invariant pushed == stack + WaitingAll(here, j, level, qty)
    {
      var segment := if l.occurrences == [] then i + 1 else Segment(l.occurrences[j], i + 1);
      assert WaitingAll(here, j + 1, level, qty) == WaitingAll(here, j, level, qty) + [WaitingFor(here[j], level, qty)];
      assert WaitingFor(here[j], level, qty) == Waiting(l.child, level + [segment], qtys[j] * qty);
      pushed := pushed + [Waiting(l.child, level + [segment], qtys[j] * qty)];
    }
  }

  lemma WaitingAppend(a: seq<Place>, b: seq<Place>, level: seq<nat>, qty: real)
    ensures WaitingAll(a + b, |a + b|, level, qty) == WaitingAll(a, |a|, level, qty) + WaitingAll(b, |b|, level, qty)
  {
  }

  /** The loop's accounts: what is noted and what is waiting make up all places, and the stack has come as many rounds
      as the bare stack walk. */
  ghost predicate LoopState(occ: map<Part, seq<Entry>>, links: seq<Link>, root: Part, stops: Part -> bool,
                            stack: seq<Waiting>, depths: seq<nat>, rounds: nat)
  {
    var net, start := OccurrenceNet(links, stops), AllPlaces(links, root);
    && Accounts(occ, net, start, stack, depths, |Parents(links)| + 1)
    && StackParts(AsFrames(stack)) == Run(Plain(net), ChildParts(Edges(start)), rounds)
  }

  lemma LoopStarts(links: seq<Link>, root: Part, stops: Part -> bool)
    requires Acyclic(Plain(OccurrenceNet(links, stops)), Edges(AllPlaces(links, root)))
    ensures var start := AllPlaces(links, root);
            LoopState(map[], links, root, stops, WaitingAll(start, |start|, [], 1.0), Levels(|start|, |Parents(links)|), 0)
  {
    var net, start := OccurrenceNet(links, stops), AllPlaces(links, root);
    OccurrenceNetExpands(links, stops);
    AcyclicIsBounded(Plain(net), Edges(start), Parents(links));
    SeedsAccount(net, start, |Parents(links)| + 1);
    WaitingAsFrames(start, [], 1.0);
    assert StackParts(Frames(Edges(start), |start|, 1.0)) == ChildParts(Edges(start));
  }

  lemma LoopRound(occ: map<Part, seq<Entry>>, links: seq<Link>, root: Part, stops: Part -> bool,
                  stack: seq<Waiting>, depths: seq<nat>, rounds: nat)
    requires LoopState(occ, links, root, stops, stack, depths, rounds) && stack != []
    ensures var net, w := OccurrenceNet(links, stops), stack[|stack| - 1];
            && LoopState(Append(occ, w.part, Entry(w.level, w.qty)), links, root, stops, NextWaiting(net, stack),
                         NextDepths(Plain(net), AsFrames(stack), depths), rounds + 1)
            && Work(Plain(net), AsFrames(NextWaiting(net, stack)), NextDepths(Plain(net), AsFrames(stack), depths))
               < Work(Plain(net), AsFrames(stack), depths)
            && net(w.part) == (if stops(w.part) then [] else AllPlaces(links, w.part))
            && Reaches(Plain(net), Edges(AllPlaces(links, root)), w.part)
  {
    var net, w := OccurrenceNet(links, stops), stack[|stack| - 1];
    RoundAccounts(occ, net, AllPlaces(links, root), stack, depths, |Parents(links)| + 1);
    assert net(w.part) == if stops(w.part) then [] else AllPlaces(links, w.part);
    RunOneRound(net, stack, ChildParts(Edges(AllPlaces(links, root))), rounds);
    TopIsAhead(Plain(net), AsFrames(stack));
  }

  /** On the empty stack all places are noted. */
  lemma LoopEnds(occ: map<Part, seq<Entry>>, links: seq<Link>, root: Part, stops: Part -> bool, depths: seq<nat>, rounds: nat)
    requires LoopState(occ, links, root, stops, [], depths, rounds)
    ensures IsOccurrenceMap(occ, OccurrenceNet(links, stops), AllPlaces(links, root), Parents(links))
  {
    assert depths == [];
    EmptyStackIsMap(occ, OccurrenceNet(links, stops), AllPlaces(links, root), Parents(links));
  }

  lemma RunOneRound(net: PlaceNet, stack: seq<Waiting>, start: seq<Part>, rounds: nat)
    requires stack != [] && StackParts(AsFrames(stack)) == Run(Plain(net), start, rounds)
    ensures StackParts(AsFrames(NextWaiting(net, stack))) == Run(Plain(net), start, rounds + 1)
  {
    NextAsFrames(net, stack);
    RoundIsStep(Plain(net), AsFrames(stack));
  }

  lemma TopIsAhead(net: Net, stack: seq<Frame>)
    requires stack != []
    ensures Ahead(net, stack, stack[|stack| - 1].part)
  {
    assert AtOrBelow(net, stack[|stack| - 1].part, stack[|stack| - 1].part);
  }

  /** Rows with the same contents have the same places. */
  lemma {:induction false} SameContentsSamePlaces(a: seq<Link>, b: seq<Link>, n: nat)
    requires Contents(a) == Contents(b) && n <= |a|
    ensures |a| == |b| && Places(a, n) == Places(b, n)
  {
    SameContentsSameEdges(a, b);
    if n > 0 {
      SameContentsSamePlaces(a, b, n - 1);
      assert PlacesOf(a[n - 1], n) == PlacesOf(b[n - 1], n);
    }
  }

  /** The parts whose rows the occurrence walk asks for. */
  ghost function OccurrenceAsks(links: seq<Link>, root: Part, stops: Part -> bool): iset<Part> {
    Asked(Plain(OccurrenceNet(links, stops)), Edges(AllPlaces(links, root)), root, stops)
  }

  // ----- The entries in terms of the whole net -----

  /** The walk goes along the path of occurrences: one step when only the top level is asked for; and when consumed
      components are hidden, no part before its end has a terminal process. */
  ghost predicate Followed(links: seq<Link>, root: Part, full: bool, includeConsumed: bool, terminals: set<string>,
                           processes: Part -> set<string>, path: seq<nat>)
  {
    var net, start := Plain(OccurrenceNet(links, NoStops)), Edges(AllPlaces(links, root));
    && path != [] && IsPath(net, start, path) && (full || |path| == 1)
    && (includeConsumed || forall k, x :: 0 <= k < |Visits(net, start, path)| - 1 && x in terminals
                                          ==> x !in processes(Visits(net, start, path)[k]))
  }

  /** Every part a followed path leads to has one entry for each. */
  ghost predicate ListsFollowed(occ: map<Part, seq<Entry>>, links: seq<Link>, root: Part, full: bool, includeConsumed: bool,
                                terminals: set<string>, processes: Part -> set<string>, paths: seq<seq<nat>>)
  {
    var net, start := OccurrenceNet(links, NoStops), AllPlaces(links, root);
    && NoRepeat(paths) && (forall p :: p in paths <==> Followed(links, root, full, includeConsumed, terminals, processes, p))
    && (forall t :: t in occ <==> exists p :: p in paths && EndsAt(Plain(net), Edges(start), p, t))
    && (forall t :: t in occ ==> multiset(occ[t]) == multiset(EntriesOf(net, start, paths, t)))
  }

  lemma OccurrenceNetsPrune(links: seq<Link>, stops: Part -> bool)
    ensures Prunes(Plain(OccurrenceNet(links, NoStops)), Plain(OccurrenceNet(links, stops)), stops)
  {
    var none: Part -> bool := NoStops;
    forall p ensures Plain(OccurrenceNet(links, stops))(p)
                     == if stops(p) then [] else Plain(OccurrenceNet(links, none))(p) {
      assert !none(p);
      assert OccurrenceNet(links, none)(p) == AllPlaces(links, p);
      assert OccurrenceNet(links, stops)(p) == if stops(p) then [] else AllPlaces(links, p);
    }
  }

  lemma StopsFollow(links: seq<Link>, root: Part, full: bool, includeConsumed: bool, terminals: set<string>,
                    processes: Part -> set<string>, path: seq<nat>)
    ensures var net := Plain(OccurrenceNet(links, FlattenBom.Stops(full, includeConsumed, terminals, processes)));
            path != [] && IsPath(net, Edges(AllPlaces(links, root)), path)
            <==> Followed(links, root, full, includeConsumed, terminals, processes, path)
  {
    var all, start := Plain(OccurrenceNet(links, NoStops)), Edges(AllPlaces(links, root));
    var stops := FlattenBom.Stops(full, includeConsumed, terminals, processes);
    OccurrenceNetsPrune(links, stops);
    PrunedPaths(all, Plain(OccurrenceNet(links, stops)), stops, start, path);
    forall p ensures stops(p) <==> !full || (!includeConsumed && exists x :: x in terminals && x in processes(p)) {
      FlattenBom.StopsWhere(full, includeConsumed, terminals, processes, p);
    }
    if path != [] && IsPath(all, start, path) {
      VisitsLength(all, start, path);
    }
  }

  /** Along a path that avoids the stops both nets spell out the same entry. */
  lemma {:induction false} SameLevel(links: seq<Link>, start: seq<Place>, stops: Part -> bool, path: seq<nat>)
    requires IsPath(Plain(OccurrenceNet(links, stops)), Edges(start), path)
    ensures Level(OccurrenceNet(links, stops), start, path) == Level(OccurrenceNet(links, NoStops), start, path)
    decreases |path|
  {
    if path != [] {
      var none: Part -> bool := NoStops;
      var c := start[path[0]].child;
      assert !none(c);
      assert OccurrenceNet(links, none)(c) == AllPlaces(links, c);
      assert OccurrenceNet(links, stops)(c) == if stops(c) then [] else AllPlaces(links, c);
      assert Plain(OccurrenceNet(links, stops))(c) == Edges(OccurrenceNet(links, stops)(c));
      SameLevel(links, OccurrenceNet(links, stops)(c), stops, path[1..]);
    }
  }

  lemma SameEntry(links: seq<Link>, start: seq<Place>, stops: Part -> bool, path: seq<nat>, t: Part)
    requires IsPath(Plain(OccurrenceNet(links, stops)), Edges(start), path)
    ensures EntryAt(OccurrenceNet(links, stops), start, path) == EntryAt(OccurrenceNet(links, NoStops), start, path)
    ensures EndsAt(Plain(OccurrenceNet(links, stops)), Edges(start), path, t)
            <==> EndsAt(Plain(OccurrenceNet(links, NoStops)), Edges(start), path, t)
  {
    var all, pruned := Plain(OccurrenceNet(links, NoStops)), Plain(OccurrenceNet(links, stops));
    OccurrenceNetsPrune(links, stops);
    PrunedPaths(all, pruned, stops, Edges(start), path);
    EndsAtMeaning(all, Edges(start), path, t);
    EndsAtMeaning(pruned, Edges(start), path, t);
    SameLevel(links, start, stops, path);
  }

  lemma {:induction false} SameEntries(links: seq<Link>, start: seq<Place>, stops: Part -> bool, paths: seq<seq<nat>>, t: Part)
    requires forall p :: p in paths ==> IsPath(Plain(OccurrenceNet(links, stops)), Edges(start), p)
    ensures EntriesOf(OccurrenceNet(links, stops), start, paths, t)
            == EntriesOf(OccurrenceNet(links, NoStops), start, paths, t)
  {
    if paths != [] {
      assert paths[0] in paths;
      SameEntry(links, start, stops, paths[0], t);
      SameEntries(links, start, stops, paths[1..], t);
    }
  }

  lemma ReachedByListed(links: seq<Link>, start: seq<Place>, stops: Part -> bool, paths: seq<seq<nat>>, t: Part)
    requires forall p :: p in paths <==> p != [] && IsPath(Plain(OccurrenceNet(links, stops)), Edges(start), p)
    ensures Reaches(Plain(OccurrenceNet(links, stops)), Edges(start), t)
            <==> exists p :: p in paths && EndsAt(Plain(OccurrenceNet(links, NoStops)), Edges(start), p, t)
  {
    if path :| EndsAt(Plain(OccurrenceNet(links, stops)), Edges(start), path, t) {
      EndsAtMeaning(Plain(OccurrenceNet(links, stops)), Edges(start), path, t);
      SameEntry(links, start, stops, path, t);
    }
    if path :| path in paths && EndsAt(Plain(OccurrenceNet(links, NoStops)), Edges(start), path, t) {
      SameEntry(links, start, stops, path, t);
    }
  }

  lemma MapListsFollowed(occ: map<Part, seq<Entry>>, links: seq<Link>, root: Part, full: bool, includeConsumed: bool,
                         terminals: set<string>, processes: Part -> set<string>, paths: seq<seq<nat>>)
    requires var net := OccurrenceNet(links, FlattenBom.Stops(full, includeConsumed, terminals, processes));
             && IsOccurrenceMap(occ, net, AllPlaces(links, root), Parents(links))
             && Acyclic(Plain(net), Edges(AllPlaces(links, root)))
             && paths == AllPaths(Plain(net), Edges(AllPlaces(links, root)), Parents(links))
    ensures ListsFollowed(occ, links, root, full, includeConsumed, terminals, processes, paths)
  {
    var stops := FlattenBom.Stops(full, includeConsumed, terminals, processes);
    var net, start := OccurrenceNet(links, stops), AllPlaces(links, root);
    OccurrenceNetExpands(links, stops);
    AllPathsExact(Plain(net), Edges(start), Parents(links));
    forall p ensures p in paths <==> Followed(links, root, full, includeConsumed, terminals, processes, p) {
      StopsFollow(links, root, full, includeConsumed, terminals, processes, p);
    }
    forall t ensures t in occ <==>
                     exists p :: p in paths && EndsAt(Plain(OccurrenceNet(links, NoStops)), Edges(start), p, t) {
      ReachedByListed(links, start, stops, paths, t);
    }
    forall t | t in occ
      ensures multiset(occ[t]) == multiset(EntriesOf(OccurrenceNet(links, NoStops), start, paths, t))
    {
      SameEntries(links, start, stops, paths, t);
    }
  }

  /** `_bom_occurrences` for a resolved root. */
  method BomOccurrences(links: seq<Link>, fold: Part -> Part, root: Part, full: bool, includeConsumed: bool,
                        terminals: set<string>, processes: Part -> set<string>)
    returns (occ: map<Part, seq<Entry>>, ghost paths: seq<seq<nat>>)
    requires SameRows(links, fold, OccurrenceAsks(links, root, FlattenBom.Stops(full, includeConsumed, terminals, processes)))
    requires full ==> Acyclic(Plain(OccurrenceNet(links, FlattenBom.Stops(full, includeConsumed, terminals, processes))),
                              Edges(AllPlaces(links, root)))
    ensures ListsFollowed(occ, links, root, full, includeConsumed, terminals, processes, paths)
    ensures IsOccurrenceMap(occ, OccurrenceNet(links, FlattenBom.Stops(full, includeConsumed, terminals, processes)),
                            AllPlaces(links, root), Parents(links))
  {
    var stops := FlattenBom.Stops(full, includeConsumed, terminals, processes);
    if !full {
      TopIsAcyclic(links, root, stops);
    }
    ghost var asks;
    occ, asks := WalkPlaces(links, fold, root, stops);
    paths := AllPaths(Plain(OccurrenceNet(links, stops)), Edges(AllPlaces(links, root)), Parents(links));
    MapListsFollowed(occ, links, root, full, includeConsumed, terminals, processes, paths);
  }

  lemma TopIsAcyclic(links: seq<Link>, root: Part, stops: Part -> bool)
    requires forall p :: stops(p)
    ensures Acyclic(Plain(OccurrenceNet(links, stops)), Edges(AllPlaces(links, root)))
  {
    var net := OccurrenceNet(links, stops);
    assert forall p :: |Plain(net)(p)| == |net(p)| == 0;
    NothingBelowIsAcyclic(Plain(net), Edges(AllPlaces(links, root)));
  }

  /** The stack loop. As in the flattening walk, both preconditions are exact. */
  method WalkPlaces(links: seq<Link>, fold: Part -> Part, root: Part, stops: Part -> bool)
    returns (occ: map<Part, seq<Entry>>, ghost asks: seq<Part>)
    requires SameRows(links, fold, OccurrenceAsks(links, root, stops))
    requires Acyclic(Plain(OccurrenceNet(links, stops)), Edges(AllPlaces(links, root)))
    ensures IsOccurrenceMap(occ, OccurrenceNet(links, stops), AllPlaces(links, root), Parents(links))
    ensures forall p :: p in asks <==> p in OccurrenceAsks(links, root, stops)
    ensures AllRight(links, fold, asks)
  {
    ghost var net, start := OccurrenceNet(links, stops), AllPlaces(links, root);
    var children := new ChildrenCache(links, fold, OccurrenceAsks(links, root, stops));
    occ := map[];
    var rows := children.Lookup(root);
    SameContentsSamePlaces(rows, Query(links, root), |rows|);
    var stack := PushPlaces([], rows, [], 1.0);
    ghost var depths, rounds := Levels(|start|, |Parents(links)|), 0;
    LoopStarts(links, root, stops);
    assert stack == WaitingAll(start, |start|, [], 1.0);
    while stack != []
      invariant children.Valid() && fresh(children)
      invariant children.links == links && children.fold == fold && children.known == OccurrenceAsks(links, root, stops)
      invariant LoopState(occ, links, root, stops, stack, depths, rounds)
      invariant forall p :: p in children.asked <==> p == root || (p in occ && !stops(p))
      decreases Work(Plain(net), AsFrames(stack), depths)
    {
      LoopRound(occ, links, root, stops, stack, depths, rounds);
      ghost var next := NextWaiting(net, stack);
      depths, rounds := NextDepths(Plain(net), AsFrames(stack), depths), rounds + 1;
      var top := stack[|stack| - 1];
      stack := stack[..|stack| - 1];
      occ := Append(occ, top.part, Entry(top.level, top.qty));
      if !stops(top.part) {
        rows := children.Lookup(top.part);
        SameContentsSamePlaces(rows, Query(links, top.part), |rows|);
        stack := PushPlaces(stack, rows, top.level, top.qty);
      }
      assert stack == next;
    }
    LoopEnds(occ, links, root, stops, depths, rounds);
    asks := children.asked;
    MemoRightIffSameRows(links, fold, asks);
  }

  lemma OccurrenceNetExpands(links: seq<Link>, stops: Part -> bool)
    ensures ExpandsWithin(Plain(OccurrenceNet(links, stops)), Parents(links))
  {
    forall p ensures p !in Parents(links) ==> |Plain(OccurrenceNet(links, stops))(p)| == 0 {
      NoRows(links, p);
      assert OccurrenceNet(links, stops)(p) == if stops(p) then [] else AllPlaces(links, p);
      assert |Plain(OccurrenceNet(links, stops))(p)| == |OccurrenceNet(links, stops)(p)|;
    }
  }
}
