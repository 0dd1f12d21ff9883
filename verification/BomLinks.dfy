/** BOM link rows, the query for a parent's rows, and the memo in front of that query. */
module BomLinks {
  import opened Wrappers
  import opened BomPaths

  /** One source row an importer folded into a link; a missing quantity falls back to the link's. */
  datatype Occurrence = Occurrence(qty: Option<real>, seqNo: Option<nat>)

  /** A parent/child row. A quantity of None is a stored null. */
  datatype Link = Link(parent: Part, child: Part, qty: Option<real>, occurrences: seq<Occurrence>)

  /** The rows stored for exactly this parent, in stored order. */
  function Query(links: seq<Link>, p: Part): (rows: seq<Link>)
    ensures forall l :: l in rows <==> l in links && l.parent == p
  {
    if links == [] then []
    else if links[0].parent == p then [links[0]] + Query(links[1..], p)
    else Query(links[1..], p)
  }

  function Parents(links: seq<Link>): set<Part> {
    set l | l in links :: l.parent
  }

  function Children(links: seq<Link>): set<Part> {
    set l | l in links :: l.child
  }

  /** The quantity the flattening walk uses: null and zero both read as one. */
  function FlattenQty(l: Link): real {
    if l.qty.None? || l.qty.value == 0.0 then 1.0 else l.qty.value
  }

  /** The quantity the Arena walk uses: null reads as zero, zero stays zero. */
  function ArenaQty(l: Link): real {
    l.qty.GetOr(0.0)
  }

  function OccurrenceQty(l: Link, o: Occurrence): real {
    if o.qty.Some? then o.qty.value else l.qty.GetOr(0.0)
  }

  /** The quantities the occurrence walk uses for one link, one per occurrence. */
  function OccurrenceQtys(l: Link): (qtys: seq<real>)
    ensures |qtys| == if l.occurrences == [] then 1 else |l.occurrences|
  {
    if l.occurrences == [] then
      [l.qty.GetOr(1.0)]
    else
      seq(|l.occurrences|, i requires 0 <= i < |l.occurrences| => OccurrenceQty(l, l.occurrences[i]))
  }

  function FlattenEdges(rows: seq<Link>): (edges: seq<Edge>)
    ensures |edges| == |rows|
  {
    seq(|rows|, i requires 0 <= i < |rows| => Edge(rows[i].child, FlattenQty(rows[i])))
  }

  /** The net the flattening walk follows; a part that stops the walk has no edges. */
  function FlattenNet(links: seq<Link>, stops: Part -> bool): Net {
    p => if stops(p) then [] else FlattenEdges(Query(links, p))
  }

  /** The query keeps the rows of the parent one by one, in stored order. */
  lemma {:induction false} QueryJoin(a: seq<Link>, b: seq<Link>, p: Part)
    ensures Query(a + b, p) == Query(a, p) + Query(b, p)
  {
    if a == [] {
      assert a + b == b;
    } else {
      assert (a + b)[1..] == a[1..] + b;
      QueryJoin(a[1..], b, p);
    }
  }

  lemma QueryOne(l: Link, p: Part)
    ensures Query([l], p) == if l.parent == p then [l] else []
  {
  }

  /** What the flattening walk reads: a part that stops it has no edges; any other an edge for each of its rows, with the
      row's quantity, or one where that is null or zero. */
  lemma FlattenReads(links: seq<Link>, stops: Part -> bool, p: Part, k: nat)
    requires k < |Query(links, p)|
    ensures stops(p) ==> FlattenNet(links, stops)(p) == []
    ensures !stops(p) ==> |FlattenNet(links, stops)(p)| == |Query(links, p)|
    ensures !stops(p) ==>
              var row, edge := Query(links, p)[k], FlattenNet(links, stops)(p)[k];
              edge.child == row.child && edge.weight != 0.0
              && if row.qty == None || row.qty == Some(0.0) then edge.weight == 1.0 else row.qty == Some(edge.weight)
  {
  }

  /** What the occurrence walk reads of a row without occurrences, and of one occurrence. */
  lemma OccurrencesRead(l: Link, q: real)
    ensures l.occurrences == [] && l.qty == None ==> OccurrenceQtys(l) == [1.0]
    ensures l.occurrences == [] && l.qty == Some(q) ==> OccurrenceQtys(l) == [q]
    ensures l.occurrences != [] ==> |OccurrenceQtys(l)| == |l.occurrences|
    ensures forall j :: 0 <= j < |l.occurrences| && l.occurrences[j].qty == Some(q) ==> OccurrenceQtys(l)[j] == q
    ensures forall j :: 0 <= j < |l.occurrences| && l.occurrences[j].qty == None ==>
                          (l.qty == Some(q) ==> OccurrenceQtys(l)[j] == q) && (l.qty == None ==> OccurrenceQtys(l)[j] == 0.0)
  {
  }

  /** Nothing ends the walk. */
  function NoStops(p: Part): bool {
    false
  }

  lemma NoRows(links: seq<Link>, p: Part)
    ensures p !in Parents(links) ==> |Query(links, p)| == 0
  {
    var rows := Query(links, p);
    assert |rows| > 0 ==> rows[0] in rows;
  }

  lemma FlattenNetExpands(links: seq<Link>, stops: Part -> bool)
    ensures ExpandsWithin(FlattenNet(links, stops), Parents(links))
  {
    forall p ensures p !in Parents(links) ==> |FlattenNet(links, stops)(p)| == 0 {
      NoRows(links, p);
      assert FlattenNet(links, stops)(p) == if stops(p) then [] else FlattenEdges(Query(links, p));
    }
  }

  /** What a walk reads of a row: everything but the parent. */
  function Contents(rows: seq<Link>): seq<Link> {
    seq(|rows|, i requires 0 <= i < |rows| => rows[i].(parent := Part("", "")))
  }

  lemma SameContentsSameEdges(a: seq<Link>, b: seq<Link>)
    requires Contents(a) == Contents(b)
    ensures |a| == |b| && FlattenEdges(a) == FlattenEdges(b)
    ensures forall i :: 0 <= i < |a| ==> a[i].(parent := Part("", "")) == b[i].(parent := Part("", ""))
  {
    assert |Contents(a)| == |a| && |Contents(b)| == |b|;
    forall i | 0 <= i < |a| ensures a[i].(parent := Part("", "")) == b[i].(parent := Part("", "")) {
      assert Contents(a)[i] == Contents(b)[i];
    }
  }

  /** The parts whose rows a walk asks for: the root, and every part it reaches that does not end it. */
  ghost function Asked(net: Net, start: seq<Edge>, root: Part, stops: Part -> bool): iset<Part> {
    iset p: Part | p == root || (Reaches(net, start, p) && !stops(p))
  }

  /** Parts under one key have the same rows, parents aside. */
  ghost predicate SameRows(links: seq<Link>, fold: Part -> Part, parts: iset<Part>) {
    forall p, q :: p in parts && q in parts && fold(p) == fold(q) ==> Contents(Query(links, p)) == Contents(Query(links, q))
  }

  /** What the memo answers. */
  function Answer(links: seq<Link>, fold: Part -> Part, memo: map<Part, seq<Link>>, p: Part): seq<Link> {
    if fold(p) in memo then memo[fold(p)] else Query(links, p)
  }

  /** The memo after a series of questions. */
  ghost function AfterAsking(links: seq<Link>, fold: Part -> Part, asks: seq<Part>): map<Part, seq<Link>> {
    if asks == [] then map[]
    else
      var n := |asks| - 1;
      var before := AfterAsking(links, fold, asks[..n]);
      before[fold(asks[n]) := Answer(links, fold, before, asks[n])]
  }

  /** Every question in the series is answered with the rows of the part asked about. */
  ghost predicate AllRight(links: seq<Link>, fold: Part -> Part, asks: seq<Part>) {
    forall i :: 0 <= i < |asks| ==>
      Contents(Answer(links, fold, AfterAsking(links, fold, asks[..i]), asks[i])) == Contents(Query(links, asks[i]))
  }

  /** The memo holds, under the key of each part asked about, the rows of the first part asked about under it. */
  lemma {:induction false} FirstAskedStays(links: seq<Link>, fold: Part -> Part, asks: seq<Part>, p: Part)
    ensures fold(p) in AfterAsking(links, fold, asks) <==> exists i :: 0 <= i < |asks| && fold(asks[i]) == fold(p)
    ensures fold(p) in AfterAsking(links, fold, asks) ==>
              exists i :: 0 <= i < |asks| && fold(asks[i]) == fold(p)
                          && AfterAsking(links, fold, asks)[fold(p)] == Query(links, asks[i])
    decreases |asks|
  {
    if asks != [] {
      var n := |asks| - 1;
      FirstAskedStays(links, fold, asks[..n], p);
      assert forall i :: 0 <= i < n ==> asks[..n][i] == asks[i];
      assert fold(asks[n]) == fold(p) ==> fold(p) in AfterAsking(links, fold, asks);
    }
  }

  lemma {:induction false} AnsweredStays(links: seq<Link>, fold: Part -> Part, asks: seq<Part>, i: nat, j: nat)
    requires i < j <= |asks|
    ensures var before := AfterAsking(links, fold, asks[..i]);
            fold(asks[i]) in AfterAsking(links, fold, asks[..j])
            && AfterAsking(links, fold, asks[..j])[fold(asks[i])] == Answer(links, fold, before, asks[i])
    decreases j
  {
    assert asks[..j][..j - 1] == asks[..j - 1];
    if i < j - 1 {
      AnsweredStays(links, fold, asks, i, j - 1);
    }
  }

  /** Whatever the order of the questions, all are answered rightly if and only if parts under one key have the same
      rows. */
  lemma MemoRightIffSameRows(links: seq<Link>, fold: Part -> Part, asks: seq<Part>)
    ensures AllRight(links, fold, asks) <==> SameRows(links, fold, iset p | p in asks)
  {
    if SameRows(links, fold, iset p | p in asks) {
      forall i | 0 <= i < |asks|
        ensures Contents(Answer(links, fold, AfterAsking(links, fold, asks[..i]), asks[i])) == Contents(Query(links, asks[i]))
      {
        FirstAskedStays(links, fold, asks[..i], asks[i]);
      }
    } else {
      var p, q :| p in asks && q in asks && fold(p) == fold(q) && Contents(Query(links, p)) != Contents(Query(links, q));
      var i :| 0 <= i < |asks| && asks[i] == p;
      var j :| 0 <= j < |asks| && asks[j] == q;
      if i < j {
        AnsweredStays(links, fold, asks, i, j);
      } else {
        AnsweredStays(links, fold, asks, j, i);
      }
    }
  }

  /** Two spellings of one part number with different rows, asked one after the other, get the first one's rows. */
  lemma TwoSpellingsMislead(fold: Part -> Part, upper: Part, lower: Part, child: Part) returns (links: seq<Link>)
    requires upper != lower && fold(upper) == fold(lower)
    ensures !AllRight(links, fold, [upper, lower])
    ensures Answer(links, fold, AfterAsking(links, fold, [upper]), lower) == links && Query(links, lower) == []
  {
    links := [Link(upper, child, None, [])];
    assert links[1..] == [];
    assert Query(links, upper) == links && Query(links, lower) == [];
    assert [upper][..0] == [];
    assert AfterAsking(links, fold, [upper])[fold(upper)] == links;
    assert [upper, lower][..1] == [upper];
    assert |Contents(links)| == 1;
  }

  /** The memo a walk keeps in front of the query. It is keyed by the case-folded part while the query is exact. */
  class ChildrenCache {
    const links: seq<Link>
    const fold: Part -> Part
    ghost const known: iset<Part>
    ghost var asked: seq<Part>
    var rows: map<Part, seq<Link>>

    ghost predicate Valid()
      reads this
    {
      && SameRows(links, fold, known)
      && rows == AfterAsking(links, fold, asked)
      && forall p :: p in asked ==> p in known
    }

    constructor (links: seq<Link>, fold: Part -> Part, ghost known: iset<Part>)
      requires SameRows(links, fold, known)
      ensures Valid() && this.links == links && this.fold == fold && this.known == known && asked == []
    {
      this.links, this.fold, this.known := links, fold, known;
      rows, asked := map[], [];
    }

    /** The memo never changes an answer. */
    method Lookup(p: Part) returns (found: seq<Link>)
      requires Valid() && p in known
      modifies this
      ensures Valid() && asked == old(asked) + [p]
      ensures Contents(found) == Contents(Query(links, p))
      ensures found == Answer(links, fold, old(rows), p)
    {
      FirstAskedStays(links, fold, asked, p);
      assert (asked + [p])[..|asked|] == asked;
      var key := fold(p);
      asked := asked + [p];
      if key in rows {
        found := rows[key];
        assert rows[key := found] == rows;
        return;
      }
      found := Query(links, p);
      rows := rows[key := found];
    }
  }
}
