/** Merging documents into the body of a binder (app/services/docpacks.py). */
module PdfMerge {
  import opened Filters

  datatype Page = Page(content: string, caption: string)

  /** A document on disk: unreadable, or its pages. */
  datatype File = Unreadable | Readable(pages: seq<Page>)

  function Concat<T>(parts: seq<seq<T>>): seq<T> {
    if parts == [] then [] else Concat(parts[..|parts| - 1]) + parts[|parts| - 1]
  }

  /** The pages to keep: all but those labelled as flat patterns. */
  function Wanted(tokens: seq<string>, isFlat: (string, seq<string>) -> bool): Page -> bool {
    (p: Page) => !(tokens != [] && p.caption != "" && isFlat(p.caption, tokens))
  }

  /** What each document contributes. */
  function Bodies(files: seq<File>, wanted: Page -> bool): seq<seq<Page>> {
    seq(|files|, i requires 0 <= i < |files| => if files[i].Unreadable? then [] else Filter(wanted, files[i].pages))
  }

  function Everything(): Page -> bool {
    (p: Page) => true
  }

  /** The 1-based page at which document i starts. */
  function StartOf(bodies: seq<seq<Page>>, i: nat): nat
    requires i <= |bodies|
  {
    1 + |Concat(bodies[..i])|
  }

  lemma {:induction false} ConcatStep<T>(parts: seq<seq<T>>, i: nat)
    requires i < |parts|
    ensures Concat(parts[..i + 1]) == Concat(parts[..i]) + parts[i]
  {
    assert parts[..i + 1][..i] == parts[..i];
  }

  lemma {:induction false} ConcatPrefix<T>(parts: seq<seq<T>>, i: nat)
    requires i <= |parts|
    ensures Concat(parts[..i]) <= Concat(parts)
    decreases |parts| - i
  {
    if i == |parts| {
      assert parts[..i] == parts;
    } else {
      ConcatStep(parts, i);
      ConcatPrefix(parts, i + 1);
    }
  }

  /** Document i's pages are found in the merged document at its start page. */
  lemma DocumentAt(bodies: seq<seq<Page>>, i: nat)
    requires i < |bodies|
    ensures var at := StartOf(bodies, i) - 1;
            at + |bodies[i]| <= |Concat(bodies)| && Concat(bodies)[at..at + |bodies[i]|] == bodies[i]
  {
    ConcatStep(bodies, i);
    ConcatPrefix(bodies, i + 1);
  }

  method AppendWanted(before: seq<Page>, pages: seq<Page>, tokens: seq<string>, isFlat: (string, seq<string>) -> bool)
    returns (out: seq<Page>, keptPages: nat)
    ensures out == before + Filter(Wanted(tokens, isFlat), pages) && |out| == |before| + keptPages
  {
    var wanted := Wanted(tokens, isFlat);
    out, keptPages := before, 0;
    for n := 0 to |pages|
      invariant out == before + Filter(wanted, pages[..n]) && |out| == |before| + keptPages
    {
      assert pages[..n + 1] == pages[..n] + [pages[n]];
      FilterJoin(wanted, pages[..n], [pages[n]]);
      FilterOne(wanted, pages[n]);
      if tokens != [] && pages[n].caption != "" && isFlat(pages[n].caption, tokens) {
        continue;
      }
      out, keptPages := out + [pages[n]], keptPages + 1;
    }
    assert pages[..|pages|] == pages;
  }

  /** Among the first n documents, those with pages left are listed in order, each with its start page. */
  ghost predicate Listed(bodies: seq<seq<Page>>, n: nat, starts: seq<nat>, kept: seq<nat>)
    requires n <= |bodies|
  {
    && (forall i, j :: 0 <= i < j < |kept| ==> kept[i] < kept[j])
    && (forall i :: i in kept ==> i < n)
    && (forall i :: 0 <= i < n ==> (i in kept <==> bodies[i] != []))
    && |starts| == |kept|
    && forall k :: 0 <= k < |kept| ==> kept[k] <= n && starts[k] == StartOf(bodies, kept[k])
  }

  lemma ListedStep(bodies: seq<seq<Page>>, n: nat, starts: seq<nat>, kept: seq<nat>)
    requires n < |bodies| && Listed(bodies, n, starts, kept)
    ensures bodies[n] == [] ==> Listed(bodies, n + 1, starts, kept)
    ensures bodies[n] != [] ==> Listed(bodies, n + 1, starts + [StartOf(bodies, n)], kept + [n])
  {
    forall i | 0 <= i < n ensures i in kept + [n] <==> i in kept {
    }
    forall k | 0 <= k < |kept| ensures kept[k] < n {
      assert kept[k] in kept;
    }
  }

  /** `_merge_pdfs_filtered`. */
  method MergeFiltered(files: seq<File>, tokens: seq<string>, isFlat: (string, seq<string>) -> bool)
    returns (out: seq<Page>, starts: seq<nat>, kept: seq<nat>)
    ensures var bodies := Bodies(files, Wanted(tokens, isFlat));
            out == Concat(bodies) && Listed(bodies, |files|, starts, kept)
  {
    ghost var bodies := Bodies(files, Wanted(tokens, isFlat));
    out, starts, kept := [], [], [];
    var total := 1;
    for i := 0 to |files|
      invariant out == Concat(bodies[..i]) && total == 1 + |out|
      invariant Listed(bodies, i, starts, kept)
    {
      ConcatStep(bodies, i);
      ListedStep(bodies, i, starts, kept);
      if files[i].Unreadable? {
        continue;
      }
      var start, keptPages := total, 0;
      out, keptPages := AppendWanted(out, files[i].pages, tokens, isFlat);
      total := total + keptPages;
      if keptPages > 0 {
        starts, kept := starts + [start], kept + [i];
      }
    }
    assert bodies[..|files|] == bodies;
  }

  // ----- The plain merge -----

  /** The start pages of the readable documents. Which documents they belong to is not recorded. */
  function PlainStarts(files: seq<File>): seq<nat> {
    if files == [] then []
    else
      var n := |files| - 1;
      PlainStarts(files[..n]) + if files[n].Readable? then [StartOf(Bodies(files, Everything()), n)] else []
  }

  lemma PlainStartsStep(files: seq<File>, i: nat)
    requires i < |files|
    ensures PlainStarts(files[..i + 1])
            == PlainStarts(files[..i]) + if files[i].Readable? then [StartOf(Bodies(files, Everything()), i)] else []
  {
    assert files[..i + 1][..i] == files[..i];
    assert Bodies(files[..i + 1], Everything())[..i] == Bodies(files, Everything())[..i];
  }

  /** `_merge_pdfs`. */
  method Merge(files: seq<File>) returns (out: seq<Page>, starts: seq<nat>)
    ensures out == Concat(Bodies(files, Everything())) && starts == PlainStarts(files)
  {
    ghost var bodies := Bodies(files, Everything());
    out, starts := [], [];
    var total := 1;
    for i := 0 to |files|
      invariant out == Concat(bodies[..i]) && total == 1 + |out|
      invariant starts == PlainStarts(files[..i])
    {
      ConcatStep(bodies, i);
      PlainStartsStep(files, i);
      if files[i].Readable? {
        FilterAll(Everything(), files[i].pages);
        starts := starts + [total];
        total := total + |files[i].pages|;
        out := out + files[i].pages;
      }
    }
    assert files[..|files|] == files && bodies[..|files|] == bodies;
  }

  /** Pairing the documents with the start pages in order gives every start page to the document that is there. */
  ghost predicate Aligned(files: seq<File>) {
    |PlainStarts(files)| <= |files|
    && forall k :: 0 <= k < |PlainStarts(files)|
                   ==> files[k].Readable? && PlainStarts(files)[k] == StartOf(Bodies(files, Everything()), k)
  }

  /** The unreadable documents all come last. */
  ghost predicate UnreadableLast(files: seq<File>) {
    forall i, j :: 0 <= i < j < |files| && files[j].Readable? ==> files[i].Readable?
  }

  lemma BodiesPrefix(files: seq<File>, n: nat, k: nat)
    requires k <= n <= |files|
    ensures StartOf(Bodies(files[..n], Everything()), k) == StartOf(Bodies(files, Everything()), k)
  {
    assert Bodies(files[..n], Everything())[..k] == Bodies(files, Everything())[..k];
  }

  lemma {:induction false} StartsUpTo(files: seq<File>)
    ensures |PlainStarts(files)| <= |files|
    ensures |PlainStarts(files)| == |files| <==> forall i :: 0 <= i < |files| ==> files[i].Readable?
  {
    if files != [] {
      var n := |files| - 1;
      StartsUpTo(files[..n]);
      assert forall i :: 0 <= i < n ==> files[..n][i] == files[i];
    }
  }

  /** With the unreadable documents last, the k-th start page is the k-th document's. */
  lemma {:induction false} LastMeansAligned(files: seq<File>)
    requires UnreadableLast(files)
    ensures Aligned(files)
  {
    if files != [] {
      var n := |files| - 1;
      assert UnreadableLast(files[..n]);
      LastMeansAligned(files[..n]);
      StartsUpTo(files[..n]);
      AlignedStep(files);
    }
  }

  lemma AlignedStep(files: seq<File>)
    requires files != [] && Aligned(files[..|files| - 1])
    requires files[|files| - 1].Readable? ==> |PlainStarts(files[..|files| - 1])| == |files| - 1
    ensures Aligned(files)
  {
    var n := |files| - 1;
    var front := PlainStarts(files[..n]);
    forall k | 0 <= k < |PlainStarts(files)|
      ensures files[k].Readable? && PlainStarts(files)[k] == StartOf(Bodies(files, Everything()), k)
    {
      if k < |front| {
        BodiesPrefix(files, n, k);
        assert files[..n][k] == files[k] && PlainStarts(files)[k] == front[k];
      }
    }
  }

  /** A readable document behind an unreadable one takes the start page that is read as belonging to another. */
  lemma {:induction false} HoleMisaligns(files: seq<File>, hole: nat, j: nat)
    requires hole < j < |files| && files[hole].Unreadable? && files[j].Readable?
    ensures !Aligned(files)
    decreases |files|
  {
    if j < |files| - 1 {
      HoleMisaligns(files[..|files| - 1], hole, j);
      MisalignedStays(files);
    } else if Aligned(files) {
      ReadableSoFar(files);
      assert false;
    }
  }

  lemma MisalignedStays(files: seq<File>)
    requires files != [] && !Aligned(files[..|files| - 1])
    ensures !Aligned(files)
  {
    var n := |files| - 1;
    var front := files[..n];
    StartsUpTo(front);
    var k :| 0 <= k < |PlainStarts(front)| && !(front[k].Readable? && PlainStarts(front)[k] == StartOf(Bodies(front, Everything()), k));
    BodiesPrefix(files, n, k);
    assert PlainStarts(files)[k] == PlainStarts(front)[k] && files[k] == front[k];
  }

  lemma ReadableSoFar(files: seq<File>)
    requires Aligned(files) && files != [] && files[|files| - 1].Readable?
    ensures forall i :: 0 <= i < |files| ==> files[i].Readable?
  {
    var n := |PlainStarts(files)|;
    StartsUpTo(files);
    CountReadable(files, n);
  }

  /** If the first n documents are readable and there are n start pages, no later document is readable. */
  lemma {:induction false} CountReadable(files: seq<File>, n: nat)
    requires n <= |files| && forall i :: 0 <= i < n ==> files[i].Readable?
    ensures |PlainStarts(files)| >= n
    ensures |PlainStarts(files)| == n ==> forall i :: n <= i < |files| ==> files[i].Unreadable?
  {
    if files != [] {
      var m := |files| - 1;
      if n <= m {
        CountReadable(files[..m], n);
        assert forall i :: 0 <= i < m ==> files[..m][i] == files[i];
      } else {
        CountReadable(files[..m], m);
      }
    }
  }

  /** The plain merge's start pages fit the documents exactly when no readable document stands behind an unreadable one. */
  lemma AlignedIffUnreadableLast(files: seq<File>)
    ensures Aligned(files) <==> UnreadableLast(files)
  {
    if UnreadableLast(files) {
      LastMeansAligned(files);
    } else {
      var i, j :| 0 <= i < j < |files| && files[j].Readable? && !files[i].Readable?;
      HoleMisaligns(files, i, j);
    }
  }
}
