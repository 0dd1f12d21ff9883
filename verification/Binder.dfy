/** The binder: its sections, its index and the page numbers in it (app/services/docpacks.py). */
module Binder {
  import opened PdfMerge

  datatype Line = Line(title: string, page: nat)

  datatype Section = Cover | Index | VisualList | WhereUsed | Hardware | MissingFiles

  /** One sheet of the binder. */
  datatype Sheet = Front(section: Section, number: nat) | IndexSheet(lines: seq<Line>) | Body(page: Page)

  datatype Segment = Segment(section: Section, sheets: seq<Sheet>)

  type Preface = seq<Segment>

  /** The place of a section in the binder. */
  function Rank(s: Section): nat {
    match s
    case Cover => 0
    case Index => 1
    case VisualList => 2
    case WhereUsed => 3
    case Hardware => 4
    case MissingFiles => 5
  }

  /** The sections come in the binder's order, each at most once. */
  ghost predicate Ordered(preface: Preface) {
    forall i, j :: 0 <= i < j < |preface| ==> Rank(preface[i].section) < Rank(preface[j].section)
  }

  // ----- Counting pages by section -----

  function Count(preface: Preface, s: Section): nat {
    if preface == [] then 0
    else
      var last := preface[|preface| - 1];
      Count(preface[..|preface| - 1], s) + if last.section == s then |last.sheets| else 0
  }

  method CountPages(preface: Preface, s: Section) returns (n: nat)
    ensures n == Count(preface, s)
  {
    n := 0;
    for i := 0 to |preface|
      invariant n == Count(preface[..i], s)
    {
      assert preface[..i + 1][..i] == preface[..i];
      if preface[i].section == s {
        n := n + |preface[i].sheets|;
      }
    }
    assert preface[..|preface|] == preface;
  }

  /** All pages of the sections below a rank. */
  function Below(preface: Preface, rank: nat): nat {
    if preface == [] then 0
    else
      var last := preface[|preface| - 1];
      Below(preface[..|preface| - 1], rank) + if Rank(last.section) < rank then |last.sheets| else 0
  }

  lemma {:induction false} BelowStep(preface: Preface, s: Section)
    ensures Below(preface, Rank(s) + 1) == Below(preface, Rank(s)) + Count(preface, s)
  {
    if preface != [] {
      BelowStep(preface[..|preface| - 1], s);
      var last := preface[|preface| - 1].section;
      assert Rank(last) == Rank(s) ==> last == s;
    }
  }

  lemma {:induction false} BelowNone(preface: Preface)
    ensures Below(preface, 0) == 0
  {
    if preface != [] {
      BelowNone(preface[..|preface| - 1]);
    }
  }

  lemma BelowSums(preface: Preface)
    ensures Below(preface, 1) == Count(preface, Cover)
    ensures Below(preface, 2) == Count(preface, Cover) + Count(preface, Index)
    ensures Below(preface, 3) == Below(preface, 2) + Count(preface, VisualList)
    ensures Below(preface, 4) == Below(preface, 3) + Count(preface, WhereUsed)
    ensures Below(preface, 5) == Below(preface, 4) + Count(preface, Hardware)
    ensures Below(preface, 6) == Below(preface, 5) + Count(preface, MissingFiles)
  {
    BelowNone(preface);
    BelowStep(preface, Cover);
    BelowStep(preface, Index);
    BelowStep(preface, VisualList);
    BelowStep(preface, WhereUsed);
    BelowStep(preface, Hardware);
    BelowStep(preface, MissingFiles);
  }

  // ----- The binder as a sequence of sheets -----

  function Sheets(preface: Preface): seq<seq<Sheet>> {
    seq(|preface|, i requires 0 <= i < |preface| => preface[i].sheets)
  }

  function BodySheets(pages: seq<Page>): seq<Sheet> {
    seq(|pages|, i requires 0 <= i < |pages| => Body(pages[i]))
  }

  function Merged(preface: Preface, body: seq<Page>): seq<Sheet> {
    Concat(Sheets(preface)) + BodySheets(body)
  }

  lemma {:induction false} BelowIsPrefix(preface: Preface, i: nat)
    requires Ordered(preface) && i < |preface|
    ensures Below(preface, Rank(preface[i].section)) == |Concat(Sheets(preface)[..i])|
  {
    var n := |preface| - 1;
    var front := preface[..n];
    assert Ordered(front);
    assert Sheets(preface)[..n] == Sheets(front);
    if i < n {
      BelowIsPrefix(front, i);
      assert Sheets(preface)[..i] == Sheets(front)[..i];
    } else {
      BelowAll(front, Rank(preface[n].section));
    }
  }

  lemma {:induction false} BelowAll(preface: Preface, rank: nat)
    requires forall i :: 0 <= i < |preface| ==> Rank(preface[i].section) < rank
    ensures Below(preface, rank) == |Concat(Sheets(preface))|
  {
    if preface != [] {
      var n := |preface| - 1;
      BelowAll(preface[..n], rank);
      assert Sheets(preface)[..n] == Sheets(preface[..n]);
    }
  }

  // ----- The index -----

  /** The page counts the index is built from. The index's own count is assumed. */
  datatype Counts = Counts(cover: nat, visual: nat, whereUsed: nat, hardware: nat, missing: nat)

  function TitleOf(s: Section): string {
    match s
    case VisualList => "Visual Summary"
    case WhereUsed => "Where Used"
    case Hardware => "Hardware Summary"
    case _ => "Missing Source Documents"
  }

  function Entry(present: bool, section: Section, page: nat): seq<Line> {
    if present then [Line(TitleOf(section), page)] else []
  }

  function BodyLines(offset: nat, titles: seq<string>, starts: seq<nat>): seq<Line> {
    seq(if |titles| < |starts| then |titles| else |starts|,
        k requires 0 <= k < |titles| && k < |starts| => Line(titles[k], offset + starts[k]))
  }

  function FrontLines(c: Counts, assumed: nat): seq<Line> {
    Entry(c.visual > 0, VisualList, c.cover + assumed + 1)
      + Entry(c.whereUsed > 0, WhereUsed, c.cover + assumed + c.visual + 1)
      + Entry(c.hardware > 0, Hardware, c.cover + assumed + c.visual + c.whereUsed + 1)
      + Entry(c.missing > 0, MissingFiles, c.cover + assumed + c.visual + c.whereUsed + c.hardware + 1)
  }

  function Lines(c: Counts, assumed: nat, titles: seq<string>, starts: seq<nat>): seq<Line> {
    FrontLines(c, assumed)
      + BodyLines(c.cover + assumed + c.visual + c.whereUsed + c.hardware + c.missing, titles, starts)
  }

  /** How many times n entries run off the bottom of a page. Heights are in millimetres. */
  function Breaks(y: real, top: real, n: nat): nat
    decreases n
  {
    if n == 0 then 0
    else if y < 20.0 then 1 + Breaks(top - 6.0, top, n - 1)
    else Breaks(y - 6.0, top, n - 1)
  }

  lemma FourEntries(c: Counts, assumed: nat, a: seq<Line>, b: seq<Line>, d: seq<Line>, e: seq<Line>)
    requires a == Entry(c.visual > 0, VisualList, c.cover + assumed + 1)
    requires b == Entry(c.whereUsed > 0, WhereUsed, c.cover + assumed + c.visual + 1)
    requires d == Entry(c.hardware > 0, Hardware, c.cover + assumed + c.visual + c.whereUsed + 1)
    requires e == Entry(c.missing > 0, MissingFiles, c.cover + assumed + c.visual + c.whereUsed + c.hardware + 1)
    ensures [] + a + b + d + e == FrontLines(c, assumed)
  {
    assert [] + a == a;
  }

  class Canvas {
    const top: real
    var pages: seq<seq<Line>>
    var current: seq<Line>
    var y: real

    /** `y` is the height left under the heading of the first page. */
    constructor (top: real, y: real)
      ensures this.top == top && this.y == y && pages == [] && current == []
    {
      this.top := top;
      new;
      this.y, pages, current := y, [], [];
    }

    ghost function Drawn(): seq<Line>
      reads this
    {
      Concat(pages) + current
    }

    method Draw(line: Line)
      modifies this
      ensures Drawn() == old(Drawn()) + [line]
      ensures forall n: nat :: |pages| + Breaks(y, top, n) == |old(pages)| + Breaks(old(y), top, n + 1)
    {
      if y < 20.0 {
        assert (pages + [current])[..|pages|] == pages;
        pages, current, y := pages + [current], [], top;
      }
      current := current + [line];
      y := y - 6.0;
    }

    /** These lines have been drawn on an empty canvas with that much height left. */
    ghost predicate Holds(height: real, lines: seq<Line>)
      reads this
    {
      Drawn() == lines && forall n: nat :: |pages| + Breaks(y, top, n) == Breaks(height, top, |lines| + n)
    }

    /** The line of a section, if it has pages. */
    method DrawSection(count: nat, section: Section, page: nat, ghost height: real, ghost lines: seq<Line>)
      requires Holds(height, lines)
      modifies this
      ensures Holds(height, lines + Entry(count > 0, section, page))
    {
      if count > 0 {
        Draw(Line(TitleOf(section), page));
      }
    }

    method DrawFront(c: Counts, assumed: nat, ghost height: real)
      requires Holds(height, [])
      modifies this
      ensures Holds(height, FrontLines(c, assumed))
    {
      var visual, whereUsed := c.cover + assumed + 1, c.cover + assumed + c.visual + 1;
      var hardware, missing := whereUsed + c.whereUsed, whereUsed + c.whereUsed + c.hardware;
      ghost var a, b := Entry(c.visual > 0, VisualList, visual), Entry(c.whereUsed > 0, WhereUsed, whereUsed);
      ghost var d, e := Entry(c.hardware > 0, Hardware, hardware), Entry(c.missing > 0, MissingFiles, missing);
      FourEntries(c, assumed, a, b, d, e);
      DrawSection(c.visual, VisualList, visual, height, []);
      DrawSection(c.whereUsed, WhereUsed, whereUsed, height, [] + a);
      DrawSection(c.hardware, Hardware, hardware, height, [] + a + b);
      DrawSection(c.missing, MissingFiles, missing, height, [] + a + b + d);
    }

    /** Close the last page. */
    method Finish(ghost height: real, ghost lines: seq<Line>) returns (all: seq<seq<Line>>)
      requires Holds(height, lines)
      ensures Concat(all) == lines && |all| == 1 + Breaks(height, top, |lines|)
    {
      all := pages + [current];
      assert all[..|pages|] == pages;
      assert |pages| + Breaks(y, top, 0) == Breaks(height, top, |lines| + 0);
    }

    /** Draw the lines of the documents that have a start. */
    method DrawBody(offset: nat, titles: seq<string>, starts: seq<nat>, ghost height: real, ghost lines: seq<Line>)
      requires Holds(height, lines)
      modifies this
      ensures Holds(height, lines + BodyLines(offset, titles, starts))
    {
      ghost var more := BodyLines(offset, titles, starts);
      var n := 0;
      assert lines + more[..0] == lines;
      while n < |titles| && n < |starts|
        invariant n <= |more| && Holds(height, lines + more[..n])
      {
        assert lines + more[..n + 1] == lines + more[..n] + [Line(titles[n], offset + starts[n])];
        Draw(Line(titles[n], offset + starts[n]));
        n := n + 1;
      }
      assert more[..|more|] == more;
    }
  }

  /** `_build_index`: the lines, page by page. */
  method BuildIndex(c: Counts, assumed: nat, titles: seq<string>, starts: seq<nat>, top: real, y: real)
    returns (pages: seq<seq<Line>>)
    ensures Concat(pages) == Lines(c, assumed, titles, starts)
    ensures |pages| == 1 + Breaks(y, top, |Lines(c, assumed, titles, starts)|)
  {
    var canvas := new Canvas(top, y);
    canvas.DrawFront(c, assumed, y);
    var offset := c.cover + assumed + c.visual + c.whereUsed + c.hardware + c.missing;
    canvas.DrawBody(offset, titles, starts, y, FrontLines(c, assumed));
    pages := canvas.Finish(y, Lines(c, assumed, titles, starts));
  }

  /** The number of index pages does not depend on the number assumed. */
  lemma IndexLengthFixed(c: Counts, a: nat, b: nat, titles: seq<string>, starts: seq<nat>)
    ensures |Lines(c, a, titles, starts)| == |Lines(c, b, titles, starts)|
  {
  }

  /** Build the index once to measure it and again with the measured length: the second has the length it assumed. */
  method TwoPassIndex(c: Counts, titles: seq<string>, starts: seq<nat>, top: real, y: real) returns (pages: seq<seq<Line>>)
    ensures Concat(pages) == Lines(c, |pages|, titles, starts)
  {
    var first := BuildIndex(c, 1, titles, starts, top, y);
    IndexLengthFixed(c, 1, |first|, titles, starts);
    pages := BuildIndex(c, |first|, titles, starts, top, y);
  }

  // ----- Putting the binder together -----

  function IndexSheets(pages: seq<seq<Line>>): seq<Sheet> {
    seq(|pages|, i requires 0 <= i < |pages| => IndexSheet(pages[i]))
  }

  /** The index goes behind the cover, or in front if there is none. */
  function WithIndex(preface: Preface, pages: seq<seq<Line>>): Preface {
    preface[..IndexPlace(preface)] + [Segment(Index, IndexSheets(pages))] + preface[IndexPlace(preface)..]
  }

  lemma {:induction false} CountJoin(a: Preface, b: Preface, s: Section)
    ensures Count(a + b, s) == Count(a, s) + Count(b, s)
  {
    if b == [] {
      assert a + b == a;
    } else {
      var n := |b| - 1;
      assert (a + b)[..|a + b| - 1] == a + b[..n];
      CountJoin(a, b[..n], s);
    }
  }

  lemma CountOne(segment: Segment, s: Section)
    ensures Count([segment], s) == if segment.section == s then |segment.sheets| else 0
  {
    assert [segment][..0] == [];
  }

  lemma {:induction false} CountAbsent(preface: Preface, s: Section)
    requires forall i :: 0 <= i < |preface| ==> preface[i].section != s
    ensures Count(preface, s) == 0
  {
    if preface != [] {
      CountAbsent(preface[..|preface| - 1], s);
    }
  }

  function IndexPlace(preface: Preface): nat
    ensures IndexPlace(preface) <= |preface|
  {
    if preface != [] && preface[0].section == Cover then 1 else 0
  }

  lemma RankAround(preface: Preface, i: nat)
    requires Ordered(preface) && i < |preface| && preface[i].section != Index
    ensures i < IndexPlace(preface) ==> Rank(preface[i].section) < Rank(Index)
    ensures i >= IndexPlace(preface) ==> Rank(preface[i].section) > Rank(Index)
  {
    if i >= IndexPlace(preface) {
      if i > 0 {
        assert Rank(preface[0].section) < Rank(preface[i].section);
      }
      assert preface[i].section != Cover;
    }
  }

  lemma IndexKeepsOrder(preface: Preface, pages: seq<seq<Line>>)
    requires Ordered(preface) && forall i :: 0 <= i < |preface| ==> preface[i].section != Index
    ensures Ordered(WithIndex(preface, pages))
  {
    var all := WithIndex(preface, pages);
    forall i, j | 0 <= i < j < |all| ensures Rank(all[i].section) < Rank(all[j].section) {
      PlaceOf(preface, pages, i);
      PlaceOf(preface, pages, j);
    }
  }

  /** What stands at a place once the index is in: an earlier section before it, a later one after it. */
  lemma PlaceOf(preface: Preface, pages: seq<seq<Line>>, i: nat)
    requires Ordered(preface) && forall i :: 0 <= i < |preface| ==> preface[i].section != Index
    requires i < |WithIndex(preface, pages)|
    ensures i < IndexPlace(preface) ==> WithIndex(preface, pages)[i] == preface[i] && Rank(preface[i].section) < Rank(Index)
    ensures i == IndexPlace(preface) ==> WithIndex(preface, pages)[i].section == Index
    ensures i > IndexPlace(preface) ==>
              WithIndex(preface, pages)[i] == preface[i - 1] && Rank(preface[i - 1].section) > Rank(Index)
  {
    if i != IndexPlace(preface) {
      RankAround(preface, if i < IndexPlace(preface) then i else i - 1);
    }
  }

  /** Inserting the index adds just its own pages. */
  lemma IndexCounts(preface: Preface, pages: seq<seq<Line>>, s: Section)
    requires forall i :: 0 <= i < |preface| ==> preface[i].section != Index
    ensures Count(WithIndex(preface, pages), s) == if s == Index then |pages| else Count(preface, s)
  {
    var at := IndexPlace(preface);
    var mid := Segment(Index, IndexSheets(pages));
    CountJoin(preface[..at], [mid], s);
    CountJoin(preface[..at] + [mid], preface[at..], s);
    CountJoin(preface[..at], preface[at..], s);
    assert preface[..at] + preface[at..] == preface;
    CountOne(mid, s);
    CountAbsent(preface, Index);
  }

  function CountsOf(preface: Preface): Counts {
    Counts(Count(preface, Cover), Count(preface, VisualList), Count(preface, WhereUsed), Count(preface, Hardware),
           Count(preface, MissingFiles))
  }

  /** In front of the body stand exactly the pages the index adds up. */
  lemma BodyOffset(preface: Preface)
    requires Ordered(preface)
    ensures |Concat(Sheets(preface))|
            == Count(preface, Cover) + Count(preface, Index) + Count(preface, VisualList) + Count(preface, WhereUsed)
                 + Count(preface, Hardware) + Count(preface, MissingFiles)
  {
    BelowAll(preface, 6);
    BelowSums(preface);
  }

  /** The page on which the i-th document of the body starts in the binder. */
  function BinderPage(preface: Preface, bodies: seq<seq<Page>>, i: nat): nat
    requires i < |bodies|
  {
    |Concat(Sheets(preface))| + StartOf(bodies, i)
  }

  /** From that page on, the binder holds the document. */
  lemma DocumentInBinder(preface: Preface, bodies: seq<seq<Page>>, i: nat)
    requires i < |bodies|
    ensures var at := BinderPage(preface, bodies, i) - 1;
            var all := Merged(preface, Concat(bodies));
            0 <= at && at + |bodies[i]| <= |all| && all[at..at + |bodies[i]|] == BodySheets(bodies[i])
  {
    DocumentAt(bodies, i);
    BodyInBinder(preface, Concat(bodies), StartOf(bodies, i) - 1, bodies[i]);
  }

  lemma BodyInBinder(preface: Preface, body: seq<Page>, start: nat, pages: seq<Page>)
    requires start + |pages| <= |body| && body[start..start + |pages|] == pages
    ensures var at := |Concat(Sheets(preface))| + start;
            at + |pages| <= |Merged(preface, body)| && Merged(preface, body)[at..at + |pages|] == BodySheets(pages)
  {
    forall k | 0 <= k < |pages| ensures body[start + k] == pages[k] {
      assert body[start + k] == body[start..start + |pages|][k];
    }
  }

  /** The index lines of the documents kept: each with the page on which it starts in the binder. */
  ghost function Numbered(preface: Preface, bodies: seq<seq<Page>>, titles: seq<string>, kept: seq<nat>): seq<Line>
    requires |titles| == |bodies| && forall k :: 0 <= k < |kept| ==> kept[k] < |bodies|
  {
    seq(|kept|, k requires 0 <= k < |kept| => Line(titles[kept[k]], BinderPage(preface, bodies, kept[k])))
  }

  /** Build the index for a preface without one and put it in. */
  method AddIndex(preface: Preface, titles: seq<string>, starts: seq<nat>, top: real, y: real)
    returns (indexed: Preface, index: seq<seq<Line>>)
    requires Ordered(preface) && forall i :: 0 <= i < |preface| ==> preface[i].section != Index
    ensures Ordered(indexed) && indexed == WithIndex(preface, index)
    ensures Concat(index) == Lines(CountsOf(indexed), Count(indexed, Index), titles, starts)
  {
    var cover := CountPages(preface, Cover);
    var visual := CountPages(preface, VisualList);
    var whereUsed := CountPages(preface, WhereUsed);
    var hardware := CountPages(preface, Hardware);
    var missing := CountPages(preface, MissingFiles);
    index := TwoPassIndex(Counts(cover, visual, whereUsed, hardware, missing), titles, starts, top, y);
    var at := if preface != [] && preface[0].section == Cover then 1 else 0;
    indexed := preface[..at] + [Segment(Index, IndexSheets(index))] + preface[at..];
    assert indexed == WithIndex(preface, index);
    IndexKeepsOrder(preface, index);
    IndexedCounts(preface, index);
  }

  /** The index adds its own pages and changes no other count. */
  lemma IndexedCounts(preface: Preface, pages: seq<seq<Line>>)
    requires forall i :: 0 <= i < |preface| ==> preface[i].section != Index
    ensures CountsOf(WithIndex(preface, pages)) == CountsOf(preface) && Count(WithIndex(preface, pages), Index) == |pages|
  {
    forall s ensures Count(WithIndex(preface, pages), s) == if s == Index then |pages| else Count(preface, s) {
      IndexCounts(preface, pages, s);
    }
  }

  /** Merge the documents without their flat-pattern pages, then build the index: every document kept is listed with the
      page on which it starts in the finished binder. */
  method BuildBinder(preface: Preface, files: seq<File>, titles: seq<string>, tokens: seq<string>,
                     isFlat: (string, seq<string>) -> bool, top: real, y: real)
    returns (indexed: Preface, index: seq<seq<Line>>, body: seq<Page>, kept: seq<nat>)
    requires Ordered(preface) && (forall i :: 0 <= i < |preface| ==> preface[i].section != Index) && |titles| == |files|
    ensures var bodies := Bodies(files, Wanted(tokens, isFlat));
            && Ordered(indexed) && indexed == WithIndex(preface, index)
            && body == Concat(bodies)
            && (forall i :: i in kept <==> 0 <= i < |files| && bodies[i] != [])
            && (forall k :: 0 <= k < |kept| ==> kept[k] < |files|)
            && Concat(index) == FrontLines(CountsOf(indexed), Count(indexed, Index)) + Numbered(indexed, bodies, titles, kept)
  {
    ghost var bodies := Bodies(files, Wanted(tokens, isFlat));
    var starts;
    body, starts, kept := MergeFiltered(files, tokens, isFlat);
    assert forall k :: 0 <= k < |kept| ==> kept[k] in kept;
    var keptTitles := KeptTitles(titles, kept);
    indexed, index := AddIndex(preface, keptTitles, starts, top, y);
    NumberedLines(indexed, bodies, titles, kept, keptTitles, starts);
  }

  method KeptTitles(titles: seq<string>, kept: seq<nat>) returns (out: seq<string>)
    requires forall k :: 0 <= k < |kept| ==> kept[k] < |titles|
    ensures |out| == |kept| && forall k :: 0 <= k < |kept| ==> out[k] == titles[kept[k]]
  {
    out := [];
    for k := 0 to |kept|
      invariant |out| == k && forall j :: 0 <= j < k ==> out[j] == titles[kept[j]]
    {
      out := out + [titles[kept[k]]];
    }
  }

  lemma NumberedLines(preface: Preface, bodies: seq<seq<Page>>, titles: seq<string>, kept: seq<nat>,
                      keptTitles: seq<string>, starts: seq<nat>)
    requires Ordered(preface) && |titles| == |bodies| && |starts| == |kept| == |keptTitles|
    requires forall k :: 0 <= k < |kept| ==> kept[k] < |bodies| && starts[k] == StartOf(bodies, kept[k]) && keptTitles[k] == titles[kept[k]]
    ensures Lines(CountsOf(preface), Count(preface, Index), keptTitles, starts)
            == FrontLines(CountsOf(preface), Count(preface, Index)) + Numbered(preface, bodies, titles, kept)
  {
    BodyOffset(preface);
    NumberedBody(preface, bodies, titles, kept, keptTitles, starts);
  }

  lemma NumberedBody(preface: Preface, bodies: seq<seq<Page>>, titles: seq<string>, kept: seq<nat>,
                     keptTitles: seq<string>, starts: seq<nat>)
    requires |titles| == |bodies| && |starts| == |kept| == |keptTitles|
    requires forall k :: 0 <= k < |kept| ==> kept[k] < |bodies| && starts[k] == StartOf(bodies, kept[k]) && keptTitles[k] == titles[kept[k]]
    ensures BodyLines(|Concat(Sheets(preface))|, keptTitles, starts) == Numbered(preface, bodies, titles, kept)
  {
  }

  /** Where the line of each section that has pages stands. */
  function PageOfSection(c: Counts, assumed: nat, section: Section): nat {
    match section
    case VisualList => c.cover + assumed + 1
    case WhereUsed => c.cover + assumed + c.visual + 1
    case Hardware => c.cover + assumed + c.visual + c.whereUsed + 1
    case _ => c.cover + assumed + c.visual + c.whereUsed + c.hardware + 1
  }

  function PagesOfSection(c: Counts, section: Section): nat {
    match section
    case VisualList => c.visual
    case WhereUsed => c.whereUsed
    case Hardware => c.hardware
    case _ => c.missing
  }

  lemma FrontLineIn(c: Counts, assumed: nat, section: Section)
    requires section in {VisualList, WhereUsed, Hardware, MissingFiles} && PagesOfSection(c, section) > 0
    ensures Line(TitleOf(section), PageOfSection(c, assumed, section)) in FrontLines(c, assumed)
  {
    var line := Line(TitleOf(section), PageOfSection(c, assumed, section));
    assert line in Entry(true, section, PageOfSection(c, assumed, section));
    match section
    case VisualList =>
    case WhereUsed =>
    case Hardware =>
    case MissingFiles =>
  }

  /** The section lines are right as well: each gives the page on which its section starts. */
  lemma SectionPages(preface: Preface, i: nat)
    requires Ordered(preface) && i < |preface| && preface[i].sheets != []
    requires preface[i].section in {VisualList, WhereUsed, Hardware, MissingFiles}
    ensures Line(TitleOf(preface[i].section), |Concat(Sheets(preface)[..i])| + 1)
            in FrontLines(CountsOf(preface), Count(preface, Index))
  {
    BelowIsPrefix(preface, i);
    CountThere(preface, i);
    SectionEntry(preface, preface[i].section, |Concat(Sheets(preface)[..i])| + 1);
  }

  lemma SectionEntry(preface: Preface, section: Section, page: nat)
    requires section in {VisualList, WhereUsed, Hardware, MissingFiles} && Count(preface, section) > 0
    requires page == Below(preface, Rank(section)) + 1
    ensures Line(TitleOf(section), page) in FrontLines(CountsOf(preface), Count(preface, Index))
  {
    PageIsBelow(preface, section);
    FrontLineIn(CountsOf(preface), Count(preface, Index), section);
  }

  lemma PageIsBelow(preface: Preface, section: Section)
    requires section in {VisualList, WhereUsed, Hardware, MissingFiles}
    ensures PageOfSection(CountsOf(preface), Count(preface, Index), section) == Below(preface, Rank(section)) + 1
    ensures PagesOfSection(CountsOf(preface), section) == Count(preface, section)
  {
    BelowSums(preface);
  }

  lemma {:induction false} CountThere(preface: Preface, i: nat)
    requires i < |preface|
    ensures Count(preface, preface[i].section) >= |preface[i].sheets|
  {
    var n := |preface| - 1;
    if i < n {
      CountThere(preface[..n], i);
    }
  }

  /** What the index calls a section. */
  ghost predicate IsTitled(s: Section, title: string) {
    || (s == VisualList && title == "Visual Summary") || (s == WhereUsed && title == "Where Used")
    || (s == Hardware && title == "Hardware Summary") || (s == MissingFiles && title == "Missing Source Documents")
  }

  lemma TitlesAre(s: Section, title: string)
    requires s in {VisualList, WhereUsed, Hardware, MissingFiles}
    ensures IsTitled(s, title) <==> title == TitleOf(s)
  {
  }

  lemma FrontLineFrom(c: Counts, assumed: nat, line: Line) returns (section: Section)
    requires line in FrontLines(c, assumed)
    ensures section in {VisualList, WhereUsed, Hardware, MissingFiles} && PagesOfSection(c, section) > 0
    ensures line == Line(TitleOf(section), PageOfSection(c, assumed, section))
  {
    section :=
      if line in Entry(c.visual > 0, VisualList, c.cover + assumed + 1) then VisualList
      else if line in Entry(c.whereUsed > 0, WhereUsed, c.cover + assumed + c.visual + 1) then WhereUsed
      else if line in Entry(c.hardware > 0, Hardware, c.cover + assumed + c.visual + c.whereUsed + 1) then Hardware
      else MissingFiles;
  }

  lemma {:induction false} SectionThere(preface: Preface, section: Section) returns (i: nat)
    requires Count(preface, section) > 0
    ensures i < |preface| && preface[i].section == section && preface[i].sheets != []
  {
    i := |preface| - 1;
    if preface[i].section != section || preface[i].sheets == [] {
      i := SectionThere(preface[..i], section);
    }
  }

  /** The section lines are those of the sections that have pages, each with the page its section starts on: the pages in
      front of it, and one. */
  lemma SectionLineIff(preface: Preface, line: Line)
    requires Ordered(preface)
    ensures line in FrontLines(CountsOf(preface), Count(preface, Index)) <==>
              exists i :: 0 <= i < |preface| && preface[i].sheets != [] && IsTitled(preface[i].section, line.title)
                          && line.page == |Concat(Sheets(preface)[..i])| + 1
  {
    if line in FrontLines(CountsOf(preface), Count(preface, Index)) {
      var section := FrontLineFrom(CountsOf(preface), Count(preface, Index), line);
      TitlesAre(section, line.title);
      PageIsBelow(preface, section);
      var i := SectionThere(preface, section);
      BelowIsPrefix(preface, i);
    }
    if i :| 0 <= i < |preface| && preface[i].sheets != [] && IsTitled(preface[i].section, line.title)
            && line.page == |Concat(Sheets(preface)[..i])| + 1 {
      TitlesAre(preface[i].section, line.title);
      SectionPages(preface, i);
    }
  }

  /** Each section has one line, and the lines come in the order of their pages. */
  lemma SectionLinesRise(c: Counts, assumed: nat)
    ensures var lines := FrontLines(c, assumed); forall i, j :: 0 <= i < j < |lines| ==> lines[i].page < lines[j].page
  {
  }

  /** Where the index stands in the binder: its pages, in order, behind the cover or in front of everything. */
  lemma IndexInBinder(preface: Preface, pages: seq<seq<Line>>, body: seq<Page>, k: nat)
    requires k < |pages|
    ensures var at := if preface != [] && preface[0].section == Cover then |preface[0].sheets| else 0;
            var all := Merged(WithIndex(preface, pages), body);
            at + k < |all| && all[at + k] == IndexSheet(pages[k])
  {
    var indexed := WithIndex(preface, pages);
    var n := IndexPlace(preface);
    var sheets := Sheets(indexed);
    assert sheets[n] == IndexSheets(pages);
    ConcatStep(sheets, n);
    ConcatPrefix(sheets, n + 1);
    if n == 1 {
      assert sheets[..1] == [preface[0].sheets];
      assert sheets[..1][..0] == [];
    }
    assert Concat(sheets)[|Concat(sheets[..n])| + k] == IndexSheets(pages)[k];
  }

  // ----- Replacing the visual list -----

  /** The first visual list is replaced by one that carries page numbers. */
  function ReplaceVisual(preface: Preface, sheets: seq<Sheet>): Preface {
    if preface == [] then []
    else if preface[0].section == VisualList then [Segment(VisualList, sheets)] + preface[1..]
    else [preface[0]] + ReplaceVisual(preface[1..], sheets)
  }

  lemma {:induction false} ReplaceShifts(preface: Preface, i: nat, sheets: seq<Sheet>)
    requires i < |preface| && preface[i].section == VisualList && forall j :: 0 <= j < i ==> preface[j].section != VisualList
    ensures |Concat(Sheets(ReplaceVisual(preface, sheets)))| == |Concat(Sheets(preface))| - |preface[i].sheets| + |sheets|
    ensures ReplaceVisual(preface, sheets) == preface[i := Segment(VisualList, sheets)]
  {
    var after := ReplaceVisual(preface, sheets);
    ReplaceIsUpdate(preface, i, sheets);
    ConcatUpdate(Sheets(preface), i, sheets);
    assert Sheets(after) == Sheets(preface)[i := sheets];
  }

  lemma {:induction false} ReplaceIsUpdate(preface: Preface, i: nat, sheets: seq<Sheet>)
    requires i < |preface| && preface[i].section == VisualList && forall j :: 0 <= j < i ==> preface[j].section != VisualList
    ensures ReplaceVisual(preface, sheets) == preface[i := Segment(VisualList, sheets)]
  {
    if i > 0 {
      assert preface[1..][i - 1] == preface[i];
      ReplaceIsUpdate(preface[1..], i - 1, sheets);
      assert preface == [preface[0]] + preface[1..];
    }
  }

  lemma {:induction false} ConcatUpdate(parts: seq<seq<Sheet>>, i: nat, new_: seq<Sheet>)
    requires i < |parts|
    ensures |Concat(parts[i := new_])| == |Concat(parts)| - |parts[i]| + |new_|
  {
    var n := |parts| - 1;
    if i == n {
      assert parts[i := new_][..n] == parts[..n];
    } else {
      assert parts[i := new_][..n] == parts[..n][i := new_];
      ConcatUpdate(parts[..n], i, new_);
    }
  }

  /** Once the visual list is replaced, the numbers in the index and in the list are still right exactly when the new list
      has as many pages as the one it replaces. */
  lemma NumbersStayIffSameLength(preface: Preface, i: nat, sheets: seq<Sheet>, bodies: seq<seq<Page>>, d: nat)
    requires i < |preface| && preface[i].section == VisualList && forall j :: 0 <= j < i ==> preface[j].section != VisualList
    requires d < |bodies|
    ensures BinderPage(ReplaceVisual(preface, sheets), bodies, d) == BinderPage(preface, bodies, d)
            <==> |sheets| == |preface[i].sheets|
  {
    ReplaceShifts(preface, i, sheets);
  }
}
