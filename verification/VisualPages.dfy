/** The page numbers carried by the visual list of a binder (app/services/docpacks.py). */
module VisualPages {
  import opened Wrappers
  import opened PdfMerge

  /** A document of the body, with the part it belongs to. */
  datatype Item = Item(pn: string, rev: string, path: string)

  type Part = (string, string)

  function PartOf(item: Item): Part {
    (item.pn, item.rev)
  }

  /** The start page recorded for a path: when a file is merged more than once, the last start counts. */
  function StartFor(items: seq<Item>, starts: seq<nat>, path: string): Option<nat>
    requires |items| == |starts|
  {
    if items == [] then None
    else
      var n := |items| - 1;
      if items[n].path == path then Some(starts[n]) else StartFor(items[..n], starts[..n], path)
  }

  method StartByPath(items: seq<Item>, starts: seq<nat>) returns (m: map<string, nat>)
    requires |items| == |starts|
    ensures forall path :: (if path in m then Some(m[path]) else None) == StartFor(items, starts, path)
  {
    m := map[];
    for n := 0 to |items|
      invariant forall path :: (if path in m then Some(m[path]) else None) == StartFor(items[..n], starts[..n], path)
    {
      assert items[..n + 1][..n] == items[..n] && starts[..n + 1][..n] == starts[..n];
      m := m[items[n].path := starts[n]];
    }
    assert items[..|items|] == items && starts[..|starts|] == starts;
  }

  function Recorded(items: seq<Item>, starts: seq<nat>): string -> Option<nat>
    requires |items| == |starts|
  {
    path => StartFor(items, starts, path)
  }

  /** The page a part is given is the least of those recorded for its documents. */
  ghost predicate IsLeast(items: seq<Item>, start: string -> Option<nat>, offset: nat, upTo: nat, part: Part, page: nat)
    requires upTo <= |items|
  {
    && (exists i :: 0 <= i < upTo && PartOf(items[i]) == part && start(items[i].path) == Some(page - offset))
    && (forall i :: 0 <= i < upTo && PartOf(items[i]) == part && start(items[i].path).Some?
                    ==> page <= offset + start(items[i].path).value)
  }

  method FirstPages(items: seq<Item>, starts: seq<nat>, offset: nat) returns (first: map<Part, nat>)
    requires |items| == |starts|
    ensures FirstSoFar(items, Recorded(items, starts), offset, |items|, first)
  {
    var startByPath := StartByPath(items, starts);
    first := map[];
    for n := 0 to |items|
      invariant FirstSoFar(items, Recorded(items, starts), offset, n, first)
    {
      StartIsRecorded(items, starts, n);
      assert Recorded(items, starts)(items[n].path) == Some(startByPath[items[n].path]);
      var part, page := (items[n].pn, items[n].rev), offset + startByPath[items[n].path];
      FirstStep(items, Recorded(items, starts), offset, n, first, page);
      if part !in first || page < first[part] {
        first := first[part := page];
      }
    }
  }

  /** The parts of the first n documents, each with its page. */
  ghost predicate FirstSoFar(items: seq<Item>, start: string -> Option<nat>, offset: nat, n: nat, first: map<Part, nat>)
    requires n <= |items|
  {
    && (forall part :: part in first ==> first[part] >= offset && IsLeast(items, start, offset, n, part, first[part]))
    && (forall i :: 0 <= i < n ==> PartOf(items[i]) in first)
  }

  lemma FirstStep(items: seq<Item>, start: string -> Option<nat>, offset: nat, n: nat, first: map<Part, nat>, page: nat)
    requires n < |items| && FirstSoFar(items, start, offset, n, first)
    requires page >= offset && start(items[n].path) == Some(page - offset)
    ensures var part := PartOf(items[n]);
            FirstSoFar(items, start, offset, n + 1, if part !in first || page < first[part] then first[part := page] else first)
  {
    var part := PartOf(items[n]);
    var next := if part !in first || page < first[part] then first[part := page] else first;
    forall p | p in next ensures next[p] >= offset && IsLeast(items, start, offset, n + 1, p, next[p]) {
      if p in first {
        assert IsLeast(items, start, offset, n, p, first[p]);
        LeastStep(items, start, offset, n, p, first[p], page);
      } else {
        LeastNew(items, start, offset, n, part, page);
      }
    }
  }

  lemma LeastNew(items: seq<Item>, start: string -> Option<nat>, offset: nat, n: nat, part: Part, page: nat)
    requires n < |items| && PartOf(items[n]) == part && forall i :: 0 <= i < n ==> PartOf(items[i]) != part
    requires page >= offset && start(items[n].path) == Some(page - offset)
    ensures IsLeast(items, start, offset, n + 1, part, page)
  {
  }

  lemma LeastStep(items: seq<Item>, start: string -> Option<nat>, offset: nat, n: nat, part: Part, least: nat, page: nat)
    requires n < |items| && IsLeast(items, start, offset, n, part, least)
    requires page >= offset && start(items[n].path) == Some(page - offset)
    ensures IsLeast(items, start, offset, n + 1, part, if PartOf(items[n]) == part && page < least then page else least)
  {
  }

  lemma {:induction false} StartIsRecorded(items: seq<Item>, starts: seq<nat>, i: nat)
    requires |items| == |starts| && i < |items|
    ensures StartFor(items, starts, items[i].path).Some?
    decreases |items|
  {
    var n := |items| - 1;
    if i < n {
      StartIsRecorded(items[..n], starts[..n], i);
    }
  }

  ghost predicate Increasing(starts: seq<nat>) {
    forall i, j :: 0 <= i < j < |starts| ==> starts[i] < starts[j]
  }

  /** The page recorded for a document is its own exactly when its file is not merged again later. */
  lemma {:induction false} OwnPageIffNotRepeated(items: seq<Item>, starts: seq<nat>, i: nat)
    requires |items| == |starts| && i < |items| && Increasing(starts)
    ensures StartFor(items, starts, items[i].path) == Some(starts[i])
            <==> forall j :: i < j < |items| ==> items[j].path != items[i].path
    decreases |items|
  {
    var n := |items| - 1;
    if i < n {
      assert Increasing(starts[..n]);
      OwnPageIffNotRepeated(items[..n], starts[..n], i);
      assert items[..n][i] == items[i];
    }
  }

  /** When no file is merged twice, each part is given the page of its first document. */
  lemma FirstDocumentsPage(items: seq<Item>, starts: seq<nat>, offset: nat, i: nat, page: nat)
    requires |items| == |starts| && i < |items| && Increasing(starts) && page >= offset
    requires forall j, k :: 0 <= j < k < |items| ==> items[j].path != items[k].path
    requires forall j :: 0 <= j < i ==> PartOf(items[j]) != PartOf(items[i])
    requires IsLeast(items, Recorded(items, starts), offset, |items|, PartOf(items[i]), page)
    ensures page == offset + starts[i]
  {
    forall j | 0 <= j < |items| ensures StartFor(items, starts, items[j].path) == Some(starts[j]) {
      OwnPageIffNotRepeated(items, starts, j);
    }
    var k :| 0 <= k < |items| && PartOf(items[k]) == PartOf(items[i])
             && StartFor(items, starts, items[k].path) == Some(page - offset);
  }

  /** The filtered merge's start pages increase: every document listed has a page. */
  lemma StartsIncrease(bodies: seq<seq<Page>>, starts: seq<nat>, kept: seq<nat>)
    requires Listed(bodies, |bodies|, starts, kept)
    ensures Increasing(starts)
  {
    forall i, j | 0 <= i < j < |starts| ensures starts[i] < starts[j] {
      assert kept[i] in kept && kept[j] in kept;
      ConcatStep(bodies, kept[i]);
      var upTo := bodies[..kept[j]];
      ConcatPrefix(upTo, kept[i] + 1);
      assert upTo[..kept[i] + 1] == bodies[..kept[i] + 1];
    }
  }

  /** The listed documents of a filtered merge. */
  function KeptItems(items: seq<Item>, kept: seq<nat>): seq<Item>
    requires forall k :: k in kept ==> k < |items|
  {
    seq(|kept|, k requires 0 <= k < |kept| => assert kept[k] in kept; items[kept[k]])
  }

  /** After a filtered merge in which no file is merged twice, the page given to a part is where the pages of its first
      document stand in the body. */
  lemma PartPageHoldsItsDocument(items: seq<Item>, bodies: seq<seq<Page>>, starts: seq<nat>, kept: seq<nat>, offset: nat,
                                 k: nat, page: nat)
    requires |items| == |bodies| && Listed(bodies, |bodies|, starts, kept) && k < |kept| && page >= offset
    requires var docs := KeptItems(items, kept);
             && (forall i, j :: 0 <= i < j < |docs| ==> docs[i].path != docs[j].path)
             && (forall j :: 0 <= j < k ==> PartOf(docs[j]) != PartOf(docs[k]))
             && IsLeast(docs, Recorded(docs, starts), offset, |docs|, PartOf(docs[k]), page)
    ensures kept[k] in kept && bodies[kept[k]] != []
    ensures var at := page - offset - 1;
            0 <= at && at + |bodies[kept[k]]| <= |Concat(bodies)| && Concat(bodies)[at..at + |bodies[kept[k]]|] == bodies[kept[k]]
  {
    assert kept[k] in kept;
    StartsIncrease(bodies, starts, kept);
    FirstDocumentsPage(KeptItems(items, kept), starts, offset, k, page);
    DocumentAt(bodies, kept[k]);
  }
}
