/** Expanding the roots a restricted user may see into parts, with release as a traversal boundary
    (app/services/authorization.py). */
module ReleaseBoundary {
  import opened BomPaths

  /** A stored part revision. Lists of these are newest first, the order the code asks for them in. */
  datatype PartRow = PartRow(part: Part, released: bool)

  /** A link as stored: a blank revision on either side stands for the part's latest visible one. */
  datatype RawLink = RawLink(parent: Part, child: Part)

  /** Everything the expansion reads: parts, links, the letter-case folding, and whether the user is held to
      released parts. */
  datatype Vault = Vault(rows: seq<PartRow>, links: seq<RawLink>, fold: string -> string, releasedOnly: bool) {

    predicate Visible(r: PartRow) {
      !releasedOnly || r.released
    }

    /** The revision of the newest visible row of a part number, blank if there is none. */
    function LatestFrom(i: nat, pn: string): string
      requires i <= |rows|
      decreases |rows| - i
    {
      if i == |rows| then ""
      else if rows[i].part.pn == pn && Visible(rows[i]) then rows[i].part.rev
      else LatestFrom(i + 1, pn)
    }

    function Resolve(p: Part): Part {
      if p.rev == "" then Part(p.pn, LatestFrom(0, p.pn)) else p
    }

    /** Parts the user may pass through: any part, or those with a released row of this revision in any letter case. */
    ghost predicate Passable(p: Part) {
      !releasedOnly || exists r :: r in rows && r.released && r.part.pn == p.pn && fold(r.part.rev) == fold(p.rev)
    }

    /** A link out of p, its own parent revision resolved and compared in any letter case, to the raw child c. */
    ghost predicate LinksTo(p: Part, c: Part) {
      exists l :: l in links && l.child == c && c.pn != "" && l.parent.pn == p.pn && fold(Resolve(l.parent).rev) == fold(p.rev)
    }

    /** The parts of a round that the code takes for released: a row with one of their part numbers is released, and
        part number and revision agree with it in any letter case. */
    function Kept(current: set<Part>): set<Part> {
      if !releasedOnly then current
      else
        var names := set p | p in current :: p.pn;
        var released := set r | r in rows && r.part.pn in names && r.released :: (fold(r.part.pn), fold(r.part.rev));
        set p | p in current && (fold(p.pn), fold(p.rev)) in released
    }

    // ----- The specification -----

    ghost predicate IsRoot(roots: set<Part>, p: Part) {
      exists r :: r in roots && r.pn != "" && Resolve(r) == p
    }

    ghost predicate StepsTo(p: Part, q: Part) {
      exists c :: LinksTo(p, c) && Resolve(c) == q
    }

    /** A chain of passable parts from a root down to p. */
    ghost predicate Chain(roots: set<Part>, chain: seq<Part>, p: Part) {
      && chain != [] && IsRoot(roots, chain[0]) && chain[|chain| - 1] == p
      && (forall i :: 0 <= i < |chain| ==> Passable(chain[i]))
      && (forall i :: 0 < i < |chain| ==> StepsTo(chain[i - 1], chain[i]))
    }

    ghost predicate Permitted(roots: set<Part>, p: Part) {
      exists chain :: Chain(roots, chain, p)
    }

    /** A set that holds every passable root and every passable part linked from one of its own. */
    ghost predicate Closed(roots: set<Part>, s: set<Part>) {
      && (forall p :: IsRoot(roots, p) && Passable(p) ==> p in s)
      && (forall p, q :: p in s && StepsTo(p, q) && Passable(q) ==> q in s)
    }

    lemma {:induction false} ClosedHoldsChain(roots: set<Part>, chain: seq<Part>, p: Part, s: set<Part>)
      requires Chain(roots, chain, p) && Closed(roots, s)
      ensures p in s
      decreases |chain|
    {
      var n := |chain| - 1;
      if n > 0 {
        assert StepsTo(chain[n - 1], chain[n]);
        ClosedHoldsChain(roots, chain[..n], chain[n - 1], s);
      }
    }

    /** A part number the expansion gets to see: one of a root, or of a link out of a permitted part. */
    ghost predicate InPlay(roots: set<Part>, pn: string) {
      (exists r :: r in roots && r.pn == pn && pn != "") || (exists p, c :: Permitted(roots, p) && LinksTo(p, c) && c.pn == pn)
    }

    /** The two part numbers have the same latest revision, the same released revisions and the same children. */
    ghost predicate Alike(a: string, b: string) {
      && LatestFrom(0, a) == LatestFrom(0, b)
      && (forall rev :: Passable(Part(a, rev)) <==> Passable(Part(b, rev)))
      && (forall rev, c :: LinksTo(Part(a, rev), c) <==> LinksTo(Part(b, rev), c))
    }

    ghost function PlayedNames(roots: set<Part>): iset<string> {
      iset pn | InPlay(roots, pn)
    }

    /** Part numbers of these that differ in letter case only are alike. */
    ghost predicate TwinsAlike(names: iset<string>) {
      forall a, b {:trigger Alike(a, b)} :: a in names && b in names && fold(a) == fold(b) ==> Alike(a, b)
    }

    lemma ChainExtends(roots: set<Part>, p: Part, q: Part)
      requires Permitted(roots, p) && StepsTo(p, q) && Passable(q)
      ensures Permitted(roots, q)
    {
      var chain :| Chain(roots, chain, p);
      assert Chain(roots, chain + [q], q);
    }

    lemma RootPermitted(roots: set<Part>, p: Part)
      requires IsRoot(roots, p) && Passable(p)
      ensures Permitted(roots, p)
    {
      assert Chain(roots, [p], p);
    }
  }

  // ----- The specification row by row -----

  /** The row is one of this part number that the user sees. */
  ghost predicate IsSeen(vault: Vault, r: PartRow, pn: string) {
    r.part.pn == pn && (vault.releasedOnly ==> r.released)
  }

  /** The revision of the newest row of the number that the user sees, blank when there is none. */
  ghost predicate IsNewest(vault: Vault, pn: string, rev: string) {
    || (exists i :: 0 <= i < |vault.rows| && IsSeen(vault, vault.rows[i], pn) && vault.rows[i].part.rev == rev
                    && forall j :: 0 <= j < i ==> !IsSeen(vault, vault.rows[j], pn))
    || (rev == "" && forall j :: 0 <= j < |vault.rows| ==> !IsSeen(vault, vault.rows[j], pn))
  }

  /** A part as stored stands for itself, or with a blank revision for its newest one. */
  ghost predicate StandsFor(vault: Vault, c: Part, p: Part) {
    p.pn == c.pn && if c.rev != "" then p.rev == c.rev else IsNewest(vault, c.pn, p.rev)
  }

  ghost predicate LinkedByRows(vault: Vault, p: Part, q: Part) {
    exists l, parent :: l in vault.links && StandsFor(vault, l.parent, parent) && parent.pn == p.pn
                        && vault.fold(parent.rev) == vault.fold(p.rev) && l.child.pn != "" && StandsFor(vault, l.child, q)
  }

  ghost predicate ReleasedByRows(vault: Vault, p: Part) {
    vault.releasedOnly ==>
      exists r :: r in vault.rows && r.released && r.part.pn == p.pn && vault.fold(r.part.rev) == vault.fold(p.rev)
  }

  ghost predicate RootByRows(vault: Vault, roots: set<Part>, p: Part) {
    exists r :: r in roots && r.pn != "" && StandsFor(vault, r, p)
  }

  /** A chain of released parts from a root down to p, read off the stored rows and links. */
  ghost predicate ChainByRows(vault: Vault, roots: set<Part>, chain: seq<Part>, p: Part) {
    && chain != [] && RootByRows(vault, roots, chain[0]) && chain[|chain| - 1] == p
    && (forall i :: 0 <= i < |chain| ==> ReleasedByRows(vault, chain[i]))
    && (forall i :: 0 < i < |chain| ==> LinkedByRows(vault, chain[i - 1], chain[i]))
  }

  ghost predicate PermittedByRows(vault: Vault, roots: set<Part>, p: Part) {
    exists chain :: ChainByRows(vault, roots, chain, p)
  }

  lemma {:induction false} NewestFrom(vault: Vault, i: nat, pn: string)
    requires i <= |vault.rows| && forall j :: 0 <= j < i ==> !IsSeen(vault, vault.rows[j], pn)
    ensures forall rev :: IsNewest(vault, pn, rev) <==> rev == vault.LatestFrom(i, pn)
    decreases |vault.rows| - i
  {
    if i < |vault.rows| {
      if !IsSeen(vault, vault.rows[i], pn) {
        NewestFrom(vault, i + 1, pn);
      } else {
        assert IsNewest(vault, pn, vault.rows[i].part.rev);
      }
    }
  }

  /** The memo's reading of blank revisions is that one. */
  lemma ResolvedStandsFor(vault: Vault, c: Part, p: Part)
    ensures StandsFor(vault, c, p) <==> vault.Resolve(c) == p
  {
    NewestFrom(vault, 0, c.pn);
  }

  lemma LinkedIsStep(vault: Vault, p: Part, q: Part)
    ensures LinkedByRows(vault, p, q) <==> vault.StepsTo(p, q)
  {
    if LinkedByRows(vault, p, q) {
      var l, parent :| l in vault.links && StandsFor(vault, l.parent, parent) && parent.pn == p.pn
        && vault.fold(parent.rev) == vault.fold(p.rev) && l.child.pn != "" && StandsFor(vault, l.child, q);
      ResolvedStandsFor(vault, l.parent, parent);
      ResolvedStandsFor(vault, l.child, q);
      assert vault.LinksTo(p, l.child);
    }
    if vault.StepsTo(p, q) {
      var c :| vault.LinksTo(p, c) && vault.Resolve(c) == q;
      var l :| l in vault.links && l.child == c && c.pn != "" && l.parent.pn == p.pn
               && vault.fold(vault.Resolve(l.parent).rev) == vault.fold(p.rev);
      ResolvedStandsFor(vault, l.parent, vault.Resolve(l.parent));
      ResolvedStandsFor(vault, c, q);
    }
  }

  lemma RootsByRows(vault: Vault, roots: set<Part>, p: Part)
    ensures RootByRows(vault, roots, p) <==> vault.IsRoot(roots, p)
  {
    forall r ensures StandsFor(vault, r, p) <==> vault.Resolve(r) == p {
      ResolvedStandsFor(vault, r, p);
    }
  }

  lemma ReleasedIsPassable(vault: Vault, p: Part)
    ensures ReleasedByRows(vault, p) <==> vault.Passable(p)
  {
  }

  lemma PermittedIsByRows(vault: Vault, roots: set<Part>, p: Part)
    ensures vault.Permitted(roots, p) <==> PermittedByRows(vault, roots, p)
  {
    forall a ensures RootByRows(vault, roots, a) <==> vault.IsRoot(roots, a)
             ensures ReleasedByRows(vault, a) <==> vault.Passable(a)
    {
      RootsByRows(vault, roots, a);
      ReleasedIsPassable(vault, a);
    }
    forall a, b ensures LinkedByRows(vault, a, b) <==> vault.StepsTo(a, b) {
      LinkedIsStep(vault, a, b);
    }
    forall chain ensures vault.Chain(roots, chain, p) <==> ChainByRows(vault, roots, chain, p) {
    }
  }

  /** A root with a blank revision gives the newest revision the user sees, and stays blank when there is none. */
  lemma BlankRootGivesNewest(vault: Vault, roots: set<Part>, pn: string, i: nat)
    requires Part(pn, "") in roots && pn != ""
    ensures i < |vault.rows| && IsSeen(vault, vault.rows[i], pn) && (forall j :: 0 <= j < i ==> !IsSeen(vault, vault.rows[j], pn))
            ==> PermittedByRows(vault, roots, Part(pn, vault.rows[i].part.rev))
    ensures !vault.releasedOnly && (forall r :: r in vault.rows ==> r.part.pn != pn) ==> PermittedByRows(vault, roots, Part(pn, ""))
  {
    if i < |vault.rows| && IsSeen(vault, vault.rows[i], pn) && forall j :: 0 <= j < i ==> !IsSeen(vault, vault.rows[j], pn) {
      var p := Part(pn, vault.rows[i].part.rev);
      assert StandsFor(vault, Part(pn, ""), p) && vault.rows[i] in vault.rows;
      assert ChainByRows(vault, roots, [p], p);
    }
    if !vault.releasedOnly && forall r :: r in vault.rows ==> r.part.pn != pn {
      assert IsNewest(vault, pn, "");
      assert StandsFor(vault, Part(pn, ""), Part(pn, ""));
      assert ChainByRows(vault, roots, [Part(pn, "")], Part(pn, ""));
    }
  }

  // ----- Bounds that hold whatever the spellings -----

  /** Part numbers the expansion can come across. */
  ghost function Numbers(vault: Vault, roots: set<Part>): set<string> {
    (set p | p in roots :: p.pn) + (set l | l in vault.links :: l.parent.pn) + (set l | l in vault.links :: l.child.pn)
  }

  /** A part the expansion may take c for: c itself, or with a blank revision c's number under the latest revision of
      a number that is the same in any letter case. */
  ghost predicate MayStandFor(vault: Vault, roots: set<Part>, c: Part, p: Part) {
    if c.rev != "" then p == c
    else p.pn == c.pn && exists pn :: pn in Numbers(vault, roots) && vault.fold(pn) == vault.fold(c.pn) && p.rev == vault.LatestFrom(0, pn)
  }

  /** Some row is released under this number and revision in any letter case. */
  ghost predicate FoldedPassable(vault: Vault, p: Part) {
    !vault.releasedOnly || exists r :: r in vault.rows && r.released && SameFolded(vault, r.part, p)
  }

  ghost predicate SameFolded(vault: Vault, a: Part, b: Part) {
    vault.fold(a.pn) == vault.fold(b.pn) && vault.fold(a.rev) == vault.fold(b.rev)
  }

  /** A link to c from p in any letter case. */
  ghost predicate FoldedLink(vault: Vault, roots: set<Part>, p: Part, c: Part) {
    exists l, q :: l in vault.links && l.child == c && c.pn != "" && MayStandFor(vault, roots, l.parent, q) && SameFolded(vault, q, p)
  }

  ghost predicate FoldedRoot(vault: Vault, roots: set<Part>, p: Part) {
    exists r :: r in roots && r.pn != "" && MayStandFor(vault, roots, r, p)
  }

  ghost predicate FoldedStep(vault: Vault, roots: set<Part>, p: Part, q: Part) {
    exists c :: FoldedLink(vault, roots, p, c) && MayStandFor(vault, roots, c, q)
  }

  /** A chain from a root down to p, every part of it released and linked in any letter case. */
  ghost predicate FoldedChain(vault: Vault, roots: set<Part>, chain: seq<Part>, p: Part) {
    && chain != [] && FoldedRoot(vault, roots, chain[0]) && chain[|chain| - 1] == p
    && (forall i :: 0 <= i < |chain| ==> FoldedPassable(vault, chain[i]))
    && (forall i :: 0 < i < |chain| ==> FoldedStep(vault, roots, chain[i - 1], chain[i]))
  }

  ghost predicate FoldedPermitted(vault: Vault, roots: set<Part>, p: Part) {
    exists chain :: FoldedChain(vault, roots, chain, p)
  }

  /** No root and no link end has a blank revision. */
  ghost predicate NoBlanks(vault: Vault, roots: set<Part>) {
    (forall r :: r in roots ==> r.rev != "") && (forall l :: l in vault.links ==> l.parent.rev != "" && l.child.rev != "")
  }

  lemma FoldedChainExtends(vault: Vault, roots: set<Part>, p: Part, q: Part)
    requires FoldedPermitted(vault, roots, p) && FoldedStep(vault, roots, p, q) && FoldedPassable(vault, q)
    ensures FoldedPermitted(vault, roots, q)
  {
    var chain :| FoldedChain(vault, roots, chain, p);
    assert FoldedChain(vault, roots, chain + [q], q);
  }

  lemma FoldedRootPermitted(vault: Vault, roots: set<Part>, p: Part)
    requires FoldedRoot(vault, roots, p) && FoldedPassable(vault, p)
    ensures FoldedPermitted(vault, roots, p)
  {
    assert FoldedChain(vault, roots, [p], p);
  }

  /** One expansion in progress, with the memo of latest revisions it keeps under case-folded part numbers, and the
      part numbers asked for so far. */
  class Expansion {
    const vault: Vault
    const roots: set<Part>
    ghost const inPlay: iset<string>
    var latest: map<string, string>
    ghost var asked: set<string>

    constructor (vault: Vault, roots: set<Part>, ghost inPlay: iset<string>)
      ensures this.vault == vault && this.roots == roots && this.inPlay == inPlay && Valid()
    {
      this.vault, this.roots, this.inPlay := vault, roots, inPlay;
      latest, asked := map[], {};
    }

    /** A revision in the memo is the latest one of some part number asked for that folds to the key. */
    ghost predicate Valid()
      reads this
    {
      && (forall key :: key in latest ==> exists pn :: pn in asked && Answers(key, pn)) && asked <= Numbers(vault, roots)
      && (vault.TwinsAlike(inPlay) ==> forall pn :: pn in asked ==> pn in inPlay)
    }

    ghost predicate Answers(key: string, pn: string)
      reads this
    {
      key in latest && vault.fold(pn) == key && latest[key] == vault.LatestFrom(0, pn)
    }

    /** Fill the memo for these part numbers: newest visible row first, blank when there is none. */
    method ResolveBlankRevisions(names: set<string>)
      requires Valid() && names <= Numbers(vault, roots)
      requires vault.TwinsAlike(inPlay) ==> forall pn :: pn in names ==> pn in inPlay
      modifies this
      ensures Valid() && forall pn :: pn in names ==> vault.fold(pn) in latest
      ensures forall key :: key in old(latest) ==> key in latest
      ensures forall key :: key in latest ==>
                exists pn :: pn in asked && vault.fold(pn) == key && IsNewest(vault, pn, latest[key])
    {
      asked := asked + names;
      var missing := set pn | pn in names && vault.fold(pn) !in latest;
      TakeNewest(missing);
      var rest := missing;
      while rest != {}
        invariant rest <= missing <= asked && asked == old(asked) + names
        invariant Valid() && forall key :: key in old(latest) ==> key in latest
        invariant forall pn :: pn in missing && vault.fold(pn) !in latest ==> vault.LatestFrom(0, pn) == ""
        invariant forall pn :: pn in missing && pn !in rest ==> vault.fold(pn) in latest
        decreases rest
      {
        var pn :| pn in rest;
        rest := rest - {pn};
        if vault.fold(pn) !in latest {
          Memorise(pn, "");
        }
      }
      forall pn ensures IsNewest(vault, pn, vault.LatestFrom(0, pn)) {
        NewestFrom(vault, 0, pn);
      }
    }

    /** Keep the first visible row of every missing part number. */
    method TakeNewest(missing: set<string>)
      requires Valid() && missing <= asked
      modifies this`latest
      ensures Valid() && forall key :: key in old(latest) ==> key in latest
      ensures forall pn :: pn in missing && vault.fold(pn) !in latest ==> vault.LatestFrom(0, pn) == ""
    {
      for i := 0 to |vault.rows|
        invariant Valid() && forall key :: key in old(latest) ==> key in latest
        invariant forall pn :: pn in missing && vault.fold(pn) !in latest ==> vault.LatestFrom(0, pn) == vault.LatestFrom(i, pn)
      {
        var row := vault.rows[i];
        if row.part.pn in missing && vault.Visible(row) && vault.fold(row.part.pn) !in latest {
          Memorise(row.part.pn, row.part.rev);
        }
      }
    }

    method Memorise(pn: string, rev: string)
      requires Valid() && pn in asked && vault.fold(pn) !in latest && rev == vault.LatestFrom(0, pn)
      modifies this`latest
      ensures Valid() && latest == old(latest)[vault.fold(pn) := rev]
    {
      latest := latest[vault.fold(pn) := rev];
      assert Answers(vault.fold(pn), pn);
      forall key | key in old(latest) ensures exists m :: m in asked && Answers(key, m) {
        var m :| m in asked && old(Answers(key, m));
        assert Answers(key, m);
      }
    }

    function Memo(p: Part): Part
      reads this
    {
      if p.rev != "" then p
      else Part(p.pn, if vault.fold(p.pn) in latest then latest[vault.fold(p.pn)] else "")
    }

    /** The two cases in which nothing permitted is missed. */
    ghost predicate Reliable() {
      vault.TwinsAlike(inPlay) || NoBlanks(vault, roots)
    }

    /** The memo is right while twins are alike, for part numbers in play; and where nothing is looked up in it. */
    lemma MemoIsRight(p: Part)
      requires Valid() && (p.rev == "" ==> vault.TwinsAlike(inPlay) && p.pn in inPlay && vault.fold(p.pn) in latest)
      ensures Memo(p) == vault.Resolve(p)
    {
      if p.rev == "" {
        var m :| m in asked && Answers(vault.fold(p.pn), m);
        assert vault.Alike(m, p.pn);
      }
    }

    /** In any case it gives a part that may stand for this one. */
    lemma MemoStandsFor(p: Part)
      requires Valid() && (p.rev == "" ==> vault.fold(p.pn) in latest)
      ensures MayStandFor(vault, roots, p, Memo(p))
    {
      if p.rev == "" {
        var m :| m in asked && Answers(vault.fold(p.pn), m);
      }
    }

    /** The children of the links whose parent is current in any letter case. */
    method NextFrontier(current: set<Part>) returns (frontier: set<Part>)
      requires Valid() && (vault.TwinsAlike(inPlay) ==> forall p :: p in current ==> p.pn in inPlay)
      modifies this
      ensures Valid() && frontier <= Raws()
      ensures forall c :: c in frontier ==> c.pn != "" && exists p :: p in current && FoldedLink(vault, roots, p, c)
      ensures Reliable() ==> forall p, c :: p in current && vault.LinksTo(p, c) ==> c in frontier
      ensures vault.TwinsAlike(inPlay) ==> forall c :: c in frontier ==> exists p :: p in current && vault.LinksTo(p, c)
    {
      frontier := {};
      for i := 0 to |vault.links|
        invariant Valid() && frontier <= Raws()
        invariant forall c :: c in frontier ==> c.pn != "" && exists p :: p in current && FoldedLink(vault, roots, p, c)
        invariant Reliable() ==>
                    forall k, p :: 0 <= k < i && p in current && FromLink(vault.links[k], p) ==> vault.links[k].child in frontier
        invariant vault.TwinsAlike(inPlay) ==> forall c :: c in frontier ==> exists p :: p in current && vault.LinksTo(p, c)
      {
        assert vault.links[i] in vault.links;
        var taken := Follows(vault.links[i], current);
        if taken {
          frontier := frontier + {vault.links[i].child};
        }
      }
      if Reliable() {
        forall p, c | p in current && vault.LinksTo(p, c) ensures c in frontier {
          var _ := LinkIndex(p, c);
        }
      }
    }

    /** Whether the link's child goes on the frontier. A blank parent revision is resolved on the way. */
    method Follows(l: RawLink, current: set<Part>) returns (taken: bool)
      requires Valid() && l in vault.links
      requires vault.TwinsAlike(inPlay) ==> forall p :: p in current ==> p.pn in inPlay
      modifies this
      ensures Valid()
      ensures taken ==> l.child.pn != "" && exists p :: p in current && FoldedLink(vault, roots, p, l.child)
      ensures Reliable() && (exists p :: p in current && FromLink(l, p)) ==> taken
      ensures taken && vault.TwinsAlike(inPlay) ==> exists p :: p in current && vault.LinksTo(p, l.child)
    {
      var names := set p | p in current :: p.pn;
      if l.parent.pn !in names {
        return false;
      }
      if l.parent.rev == "" {
        ResolveBlankRevisions({l.parent.pn});
      }
      var parent := Memo(l.parent);
      MemoStandsFor(l.parent);
      if Reliable() {
        MemoIsRight(l.parent);
      }
      var folded := set p | p in current :: (vault.fold(p.pn), vault.fold(p.rev));
      taken := (vault.fold(parent.pn), vault.fold(parent.rev)) in folded && l.child.pn != "";
      if taken {
        TakenLink(l, parent, current);
      }
    }

    ghost predicate FromLink(l: RawLink, p: Part) {
      l.child.pn != "" && l.parent.pn == p.pn && vault.fold(vault.Resolve(l.parent).rev) == vault.fold(p.rev)
    }

    lemma LinkIndex(p: Part, c: Part) returns (k: nat)
      requires vault.LinksTo(p, c)
      ensures k < |vault.links| && vault.links[k].child == c && FromLink(vault.links[k], p)
    {
      var l :| l in vault.links && l.child == c && c.pn != "" && l.parent.pn == p.pn
               && vault.fold(vault.Resolve(l.parent).rev) == vault.fold(p.rev);
      k :| 0 <= k < |vault.links| && vault.links[k] == l;
    }

    /** A link taken for a current part in any letter case. While twins are alike it is one of that part's own. */
    lemma TakenLink(l: RawLink, parent: Part, current: set<Part>)
      requires l in vault.links && l.child.pn != "" && MayStandFor(vault, roots, l.parent, parent)
      requires exists q :: q in current && q.pn == l.parent.pn
      requires exists p :: p in current && SameFolded(vault, parent, p)
      requires vault.TwinsAlike(inPlay) ==> parent == vault.Resolve(l.parent) && forall p :: p in current ==> p.pn in inPlay
      ensures exists p :: p in current && FoldedLink(vault, roots, p, l.child)
      ensures vault.TwinsAlike(inPlay) ==> exists p :: p in current && vault.LinksTo(p, l.child)
    {
      var p :| p in current && SameFolded(vault, parent, p);
      assert FoldedLink(vault, roots, p, l.child);
      if vault.TwinsAlike(inPlay) {
        assert vault.LinksTo(Part(l.parent.pn, p.rev), l.child);
        assert vault.Alike(p.pn, l.parent.pn);
        assert p == Part(p.pn, p.rev);
      }
    }

    // ----- What the rounds keep -----

    /** Only permitted parts are allowed so far, and the frontier is what they and the roots lead to. */
    ghost predicate Sound(allowed: set<Part>, frontier: set<Part>) {
      && (forall p :: p in allowed ==> vault.Permitted(roots, p))
      && (forall c :: c in frontier ==> c.pn != "" && (c in roots || exists p :: p in allowed && vault.LinksTo(p, c)))
    }

    /** The same in any letter case. */
    ghost predicate Founded(allowed: set<Part>, frontier: set<Part>) {
      && (forall p :: p in allowed ==> FoldedPermitted(vault, roots, p))
      && (forall c :: c in frontier ==> c.pn != "" && (c in roots || exists p :: p in allowed && FoldedLink(vault, roots, p, c)))
    }

    /** Whatever the allowed parts and the roots call for is allowed, impassable, or on the frontier. */
    ghost predicate Covering(allowed: set<Part>, frontier: set<Part>) {
      && (forall r :: r in roots && r.pn != "" && vault.Passable(vault.Resolve(r)) ==> vault.Resolve(r) in allowed || r in frontier)
      && (forall p, c :: p in allowed && vault.LinksTo(p, c) && vault.Passable(vault.Resolve(c)) ==>
            vault.Resolve(c) in allowed || c in frontier)
    }

    ghost predicate Settled(allowed: set<Part>, frontier: set<Part>) {
      forall c :: c in frontier && vault.Passable(vault.Resolve(c)) ==> vault.Resolve(c) in allowed
    }

    /** When nothing passable is left on the frontier, all permitted parts are allowed. */
    lemma SettledIsComplete(allowed: set<Part>, frontier: set<Part>)
      requires Covering(allowed, frontier) && Settled(allowed, frontier)
      ensures forall p :: vault.Permitted(roots, p) ==> p in allowed
    {
      forall p, q | p in allowed && vault.StepsTo(p, q) && vault.Passable(q) ensures q in allowed {
        var c :| vault.LinksTo(p, c) && vault.Resolve(c) == q;
      }
      assert vault.Closed(roots, allowed);
      forall p | vault.Permitted(roots, p) ensures p in allowed {
        var chain :| vault.Chain(roots, chain, p);
        vault.ClosedHoldsChain(roots, chain, p, allowed);
      }
    }

    lemma RoundKeepsSound(allowed: set<Part>, frontier: set<Part>, current: set<Part>, next: set<Part>)
      requires Sound(allowed, frontier)
      requires forall q :: q in current ==> vault.Passable(q) && exists c :: c in frontier && vault.Resolve(c) == q
      requires forall c :: c in next ==> c.pn != "" && exists p :: p in current && vault.LinksTo(p, c)
      ensures Sound(allowed + current, next)
    {
      forall q | q in current ensures vault.Permitted(roots, q) {
        var c :| c in frontier && vault.Resolve(c) == q;
        if c in roots {
          assert vault.IsRoot(roots, q);
          vault.RootPermitted(roots, q);
        } else {
          var p :| p in allowed && vault.LinksTo(p, c);
          assert vault.StepsTo(p, q);
          vault.ChainExtends(roots, p, q);
        }
      }
    }

    lemma RoundKeepsFounded(allowed: set<Part>, frontier: set<Part>, current: set<Part>, next: set<Part>)
      requires Founded(allowed, frontier)
      requires forall q :: q in current ==>
                 FoldedPassable(vault, q) && exists c :: c in frontier && MayStandFor(vault, roots, c, q)
      requires forall c :: c in next ==> c.pn != "" && exists p :: p in current && FoldedLink(vault, roots, p, c)
      ensures Founded(allowed + current, next)
    {
      forall q | q in current ensures FoldedPermitted(vault, roots, q) {
        var c :| c in frontier && MayStandFor(vault, roots, c, q);
        if c in roots {
          assert FoldedRoot(vault, roots, q);
          FoldedRootPermitted(vault, roots, q);
        } else {
          var p :| p in allowed && FoldedLink(vault, roots, p, c);
          assert FoldedStep(vault, roots, p, q);
          FoldedChainExtends(vault, roots, p, q);
        }
      }
    }

    lemma RoundKeepsCovering(allowed: set<Part>, frontier: set<Part>, current: set<Part>, next: set<Part>)
      requires Covering(allowed, frontier) && Settled(allowed + current, frontier)
      requires forall p, c :: p in current && vault.LinksTo(p, c) ==> c in next
      ensures Covering(allowed + current, next)
    {
    }

    lemma FrontierInPlay(allowed: set<Part>, frontier: set<Part>)
      requires Sound(allowed, frontier) && inPlay == vault.PlayedNames(roots)
      ensures forall c :: c in frontier ==> c.pn in inPlay
    {
      forall c | c in frontier ensures vault.InPlay(roots, c.pn) {
        if c !in roots {
          var p :| p in allowed && vault.LinksTo(p, c);
        }
      }
    }

    /** Everything that can be on a frontier, and every part the loop can ever allow. */
    ghost function Raws(): set<Part> {
      roots + set l | l in vault.links :: l.child
    }

    ghost function Universe(): set<Part> {
      Raws() + (set c, r | c in Raws() && r in vault.rows :: Part(c.pn, r.part.rev)) + (set c | c in Raws() :: Part(c.pn, ""))
    }

    lemma {:induction false} LatestIsStored(i: nat, pn: string)
      requires i <= |vault.rows|
      ensures vault.LatestFrom(i, pn) == "" || exists r :: r in vault.rows && r.part.rev == vault.LatestFrom(i, pn)
      decreases |vault.rows| - i
    {
      if i < |vault.rows| {
        assert vault.rows[i] in vault.rows;
        LatestIsStored(i + 1, pn);
      }
    }

    lemma MemoInUniverse(c: Part)
      requires Valid() && c in Raws()
      ensures Memo(c) in Universe() && c.pn in Numbers(vault, roots)
    {
      if c.rev == "" && vault.fold(c.pn) in latest {
        var m :| m in asked && Answers(vault.fold(c.pn), m);
        LatestIsStored(0, m);
      }
    }

    /** The current parts taken for released: all that are passable, and only such as are in some letter case. While
        twins are alike they are the passable ones. */
    method KeepPassable(current: set<Part>) returns (kept: set<Part>)
      requires Valid() && (vault.TwinsAlike(inPlay) ==> forall p :: p in current ==> p.pn in inPlay)
      ensures kept == vault.Kept(current)
      ensures forall p :: p in kept ==> p in current && FoldedPassable(vault, p)
      ensures forall p :: p in current && vault.Passable(p) ==> p in kept
      ensures vault.TwinsAlike(inPlay) ==> forall p :: p in kept ==> vault.Passable(p)
    {
      KeptBounds(vault, current);
      if vault.TwinsAlike(inPlay) {
        KeptIsPassable(current);
      }
      if !vault.releasedOnly {
        return current;
      }
      var names := set p | p in current :: p.pn;
      var released := set r | r in vault.rows && r.part.pn in names && r.released :: (vault.fold(r.part.pn), vault.fold(r.part.rev));
      kept := set p | p in current && (vault.fold(p.pn), vault.fold(p.rev)) in released;
    }

    lemma KeptIsPassable(current: set<Part>)
      requires vault.TwinsAlike(inPlay) && forall p :: p in current ==> p.pn in inPlay
      ensures forall p :: p in vault.Kept(current) <==> p in current && vault.Passable(p)
    {
      forall p, q | p in current && q in current && Lends(vault, q, p) ensures vault.Passable(p) {
        assert vault.Alike(p.pn, q.pn);
        assert p == Part(p.pn, p.rev);
      }
      KeptIsPassableIff(vault, current);
    }

    /** The frontier with blank revisions resolved. */
    method ResolveFrontier(frontier: set<Part>) returns (resolved: set<Part>)
      requires Valid() && (vault.TwinsAlike(inPlay) ==> forall c :: c in frontier ==> c.pn in inPlay)
      requires frontier <= Raws()
      modifies this
      ensures Valid() && resolved <= Universe()
      ensures (forall c :: c in frontier ==> c.rev != "") ==> resolved == frontier
      ensures forall q :: q in resolved ==> exists c :: c in frontier && MayStandFor(vault, roots, c, q)
      ensures Reliable() ==> forall c :: c in frontier ==> vault.Resolve(c) in resolved
      ensures Reliable() ==> forall q :: q in resolved ==> exists c :: c in frontier && vault.Resolve(c) == q
    {
      forall c | c in frontier ensures c.pn in Numbers(vault, roots) {
        MemoInUniverse(c);
      }
      ResolveBlankRevisions(set p | p in frontier && p.rev == "" :: p.pn);
      forall c | c in frontier
        ensures Memo(c) in Universe() && MayStandFor(vault, roots, c, Memo(c))
        ensures Reliable() ==> Memo(c) == vault.Resolve(c)
      {
        MemoInUniverse(c);
        MemoStandsFor(c);
        if Reliable() {
          MemoIsRight(c);
        }
      }
      resolved := set c | c in frontier :: Memo(c);
    }

    /** The parts this round allows: the resolved frontier, less what is allowed already, held to those taken for
        released. */
    method Admit(allowed: set<Part>, frontier: set<Part>) returns (current: set<Part>)
      requires Valid() && (vault.TwinsAlike(inPlay) ==> forall c :: c in frontier ==> c.pn in inPlay)
      requires frontier <= Raws()
      modifies this
      ensures Valid() && current !! allowed && current <= Universe()
      ensures (forall c :: c in frontier ==> c.rev != "") ==> current == vault.Kept(frontier - allowed)
      ensures Admitted(allowed, frontier, current)
    {
      var resolved := ResolveFrontier(frontier);
      current := KeepPassable(resolved - allowed);
    }

    /** The rounds end on any links. In any case they allow only parts with a chain of parts released and linked in some
        letter case, and what is taken for released among roots whose revisions are given. They allow all permitted
        parts while twins are alike or no revision is blank, and no others while twins are alike. */
    method Run() returns (allowed: set<Part>)
      requires Valid() && inPlay == vault.PlayedNames(roots)
      modifies this
      ensures InBounds(allowed) && Complete(allowed) && FirstTaken(allowed)
    {
      allowed := {};
      var frontier := Named(roots);
      while frontier != {}
        invariant Valid() && InProgress(allowed, frontier)
        decreases |Universe() - allowed|
      {
        var current, next := Round(allowed, frontier);
        if current == {} {
          break;
        }
        Fewer(Universe(), allowed, current);
        allowed, frontier := allowed + current, next;
      }
      if frontier == {} {
        CoveredIsComplete(allowed);
        NothingFirst(allowed);
      }
    }

    /** Every allowed part has a chain of parts released and linked in some letter case, and a permitted one while twins
        are alike. */
    ghost predicate InBounds(allowed: set<Part>) {
      forall p :: p in allowed ==>
        FoldedPermitted(vault, roots, p) && (vault.TwinsAlike(inPlay) ==> vault.Permitted(roots, p))
    }

    ghost predicate Complete(allowed: set<Part>) {
      Reliable() ==> forall p :: vault.Permitted(roots, p) ==> p in allowed
    }

    lemma CoveredIsComplete(allowed: set<Part>)
      requires Reliable() ==> Covering(allowed, {})
      ensures Complete(allowed)
    {
      if Reliable() {
        SettledIsComplete(allowed, {});
      }
    }

    /** What is taken for released among roots whose revisions are given is allowed. */
    ghost predicate FirstTaken(allowed: set<Part>) {
      (forall r :: r in roots ==> r.rev != "") ==> vault.Kept(Named(roots)) <= allowed
    }

    lemma NothingFirst(allowed: set<Part>)
      requires InProgress(allowed, {})
      ensures FirstTaken(allowed)
    {
      if Named(roots) == {} {
        assert vault.Kept({}) == {};
      }
    }

    lemma FirstStays(allowed: set<Part>, frontier: set<Part>, current: set<Part>)
      requires (allowed == {} && frontier == Named(roots)) || FirstTaken(allowed)
      requires (forall c :: c in frontier ==> c.rev != "") ==> current == vault.Kept(frontier - allowed)
      ensures FirstTaken(allowed + current) && (current == {} ==> FirstTaken(allowed))
    {
      assert frontier - {} == frontier;
      assert current == {} ==> allowed + current == allowed;
    }

    /** What the loop keeps. */
    ghost predicate InProgress(allowed: set<Part>, frontier: set<Part>) {
      && frontier <= Raws() && Founded(allowed, frontier)
      && (Reliable() ==> Covering(allowed, frontier))
      && (vault.TwinsAlike(inPlay) ==> Sound(allowed, frontier))
      && ((allowed == {} && frontier == Named(roots)) || FirstTaken(allowed))
    }

    /** One round: what it allows, and the next frontier. When it allows nothing what is allowed is complete. */
    method Round(allowed: set<Part>, frontier: set<Part>) returns (current: set<Part>, next: set<Part>)
      requires Valid() && inPlay == vault.PlayedNames(roots) && InProgress(allowed, frontier)
      modifies this
      ensures Valid() && (current != {} ==> InProgress(allowed + current, next))
      ensures current !! allowed && current <= Universe()
      ensures current == {} ==> Complete(allowed) && FirstTaken(allowed)
    {
      if vault.TwinsAlike(inPlay) {
        FrontierInPlay(allowed, frontier);
      }
      next := {};
      current := Admit(allowed, frontier);
      FirstStays(allowed, frontier, current);
      if current == {} {
        assert allowed + current == allowed;
        if Reliable() {
          SettledIsComplete(allowed, frontier);
        }
        return;
      }
      next := Continue(allowed, frontier, current);
    }

    /** The frontier after a round that has allowed these parts. */
    method Continue(allowed: set<Part>, frontier: set<Part>, current: set<Part>) returns (next: set<Part>)
      requires Valid() && inPlay == vault.PlayedNames(roots)
      requires InProgress(allowed, frontier) && FirstTaken(allowed + current) && Admitted(allowed, frontier, current)
      modifies this
      ensures Valid() && InProgress(allowed + current, next)
    {
      if vault.TwinsAlike(inPlay) {
        FrontierInPlay(allowed, frontier);
        forall p | p in current ensures p.pn in inPlay {
          var c :| c in frontier && vault.Resolve(c) == p;
        }
      }
      next := NextFrontier(current);
      RoundDone(allowed, frontier, current, next);
    }

    /** What a round allows comes from the frontier and is released in some letter case. Nothing passable is passed over
        where the memo is reliable, and nothing else is taken while twins are alike. */
    ghost predicate Admitted(allowed: set<Part>, frontier: set<Part>, current: set<Part>) {
      && (forall q :: q in current ==>
            FoldedPassable(vault, q) && exists c :: c in frontier && MayStandFor(vault, roots, c, q))
      && (Reliable() ==> Settled(allowed + current, frontier))
      && (vault.TwinsAlike(inPlay) ==>
            forall q :: q in current ==> vault.Passable(q) && exists c :: c in frontier && vault.Resolve(c) == q)
    }

    lemma RoundDone(allowed: set<Part>, frontier: set<Part>, current: set<Part>, next: set<Part>)
      requires InProgress(allowed, frontier) && Admitted(allowed, frontier, current)
      requires next <= Raws() && FirstTaken(allowed + current)
      requires forall c :: c in next ==> c.pn != "" && exists p :: p in current && FoldedLink(vault, roots, p, c)
      requires Reliable() ==> forall p, c :: p in current && vault.LinksTo(p, c) ==> c in next
      requires vault.TwinsAlike(inPlay) ==> forall c :: c in next ==> exists p :: p in current && vault.LinksTo(p, c)
      ensures InProgress(allowed + current, next)
    {
      RoundKeepsFounded(allowed, frontier, current, next);
      if Reliable() {
        RoundKeepsCovering(allowed, frontier, current, next);
      }
      if vault.TwinsAlike(inPlay) {
        RoundKeepsSound(allowed, frontier, current, next);
      }
    }
  }

  /** The roots the expansion starts from: those with a part number. */
  function Named(roots: set<Part>): set<Part> {
    set r | r in roots && r.pn != ""
  }

  lemma Fewer(all: set<Part>, old': set<Part>, more: set<Part>)
    requires more != {} && more <= all && more !! old'
    ensures |all - (old' + more)| < |all - old'|
  {
    assert all - old' == (all - (old' + more)) + more;
  }

  /** `_expand_relationship_roots`: terminates on any links, cycles included. Whatever the spellings, every part it
      returns has a chain of parts from a root, each released and linked in some letter case; and where no revision is
      blank it returns every part with a chain of passable parts. As long as part numbers in play that differ in letter
      case only are alike, it returns exactly those: no part is found by walking around an unreleased one. */
  method ExpandRelationshipRoots(vault: Vault, roots: set<Part>) returns (allowed: set<Part>)
    ensures forall p :: p in allowed ==> FoldedPermitted(vault, roots, p)
    ensures NoBlanks(vault, roots) ==> forall p :: vault.Permitted(roots, p) ==> p in allowed
    ensures vault.TwinsAlike(vault.PlayedNames(roots)) ==> forall p :: p in allowed <==> vault.Permitted(roots, p)
    ensures vault.TwinsAlike(vault.PlayedNames(roots)) ==> forall p :: p in allowed <==> PermittedByRows(vault, roots, p)
    ensures (forall r :: r in roots ==> r.rev != "") ==> vault.Kept(Named(roots)) <= allowed
  {
    forall p ensures vault.Permitted(roots, p) <==> PermittedByRows(vault, roots, p) {
      PermittedIsByRows(vault, roots, p);
    }
    var expansion := new Expansion(vault, roots, vault.PlayedNames(roots));
    allowed := expansion.Run();
  }

  /** The upper bound is met by every permitted part. */
  lemma {:induction false} PermittedIsFolded(vault: Vault, roots: set<Part>, chain: seq<Part>, p: Part)
    requires vault.Chain(roots, chain, p)
    ensures FoldedPermitted(vault, roots, p)
    decreases |chain|
  {
    var n := |chain| - 1;
    PassableFolded(vault, p);
    if n == 0 {
      var r :| r in roots && r.pn != "" && vault.Resolve(r) == p;
      ResolveStandsFor(vault, roots, r);
      FoldedRootPermitted(vault, roots, p);
    } else {
      PermittedIsFolded(vault, roots, chain[..n], chain[n - 1]);
      assert vault.StepsTo(chain[n - 1], chain[n]);
      StepFolded(vault, roots, chain[n - 1], p);
      FoldedChainExtends(vault, roots, chain[n - 1], p);
    }
  }

  lemma PassableFolded(vault: Vault, p: Part)
    requires vault.Passable(p)
    ensures FoldedPassable(vault, p)
  {
    if vault.releasedOnly {
      var r :| r in vault.rows && r.released && r.part.pn == p.pn && vault.fold(r.part.rev) == vault.fold(p.rev);
      assert SameFolded(vault, r.part, p);
    }
  }

  lemma ResolveStandsFor(vault: Vault, roots: set<Part>, c: Part)
    requires c.pn in Numbers(vault, roots)
    ensures MayStandFor(vault, roots, c, vault.Resolve(c))
  {
  }

  lemma StepFolded(vault: Vault, roots: set<Part>, p: Part, q: Part)
    requires vault.StepsTo(p, q)
    ensures FoldedStep(vault, roots, p, q)
  {
    var c :| vault.LinksTo(p, c) && vault.Resolve(c) == q;
    var l :| l in vault.links && l.child == c && c.pn != "" && l.parent.pn == p.pn
             && vault.fold(vault.Resolve(l.parent).rev) == vault.fold(p.rev);
    ResolveStandsFor(vault, roots, l.parent);
    ResolveStandsFor(vault, roots, c);
    assert SameFolded(vault, vault.Resolve(l.parent), p);
    assert FoldedLink(vault, roots, p, c);
  }

  /** What a round takes for released lies between the passable parts and those released in some letter case. */
  lemma KeptBounds(vault: Vault, current: set<Part>)
    ensures forall p :: p in vault.Kept(current) ==> p in current && FoldedPassable(vault, p)
    ensures forall p :: p in current && vault.Passable(p) ==> p in vault.Kept(current)
  {
    if vault.releasedOnly {
      forall p | p in current
        ensures p in vault.Kept(current) ==> FoldedPassable(vault, p)
        ensures vault.Passable(p) ==> p in vault.Kept(current)
      {
        KeptMember(vault, current, p);
        assert vault.Passable(p) ==> Lends(vault, p, p);
        if q :| q in current && Lends(vault, q, p) {
          PassableFolded(vault, Part(q.pn, p.rev));
        }
      }
    }
  }

  /** The part number of q, which is p's in any letter case, has p's revision released. */
  ghost predicate Lends(vault: Vault, q: Part, p: Part) {
    vault.fold(p.pn) == vault.fold(q.pn) && vault.Passable(Part(q.pn, p.rev))
  }

  /** A round takes exactly its passable parts for released if and only if no other part of the round lends one a
      release: where a current part number has this revision released, this part is released itself. */
  lemma KeptIsPassableIff(vault: Vault, current: set<Part>)
    ensures (forall p :: p in vault.Kept(current) <==> p in current && vault.Passable(p)) <==>
            (forall p, q :: p in current && q in current && Lends(vault, q, p) ==> vault.Passable(p))
  {
    if vault.releasedOnly {
      forall p ensures p in vault.Kept(current) <==>
                       p in current && exists q :: q in current && Lends(vault, q, p)
      {
        KeptMember(vault, current, p);
      }
    }
  }

  lemma KeptMember(vault: Vault, current: set<Part>, p: Part)
    requires vault.releasedOnly
    ensures p in vault.Kept(current) <==>
            p in current && exists q :: q in current && Lends(vault, q, p)
  {
    if p in current {
      if q :| q in current && Lends(vault, q, p) {
        var r :| r in vault.rows && r.released && r.part.pn == q.pn && vault.fold(r.part.rev) == vault.fold(p.rev);
        assert (vault.fold(r.part.pn), vault.fold(r.part.rev)) == (vault.fold(p.pn), vault.fold(p.rev));
      }
      if p in vault.Kept(current) {
        var r :| r in vault.rows && r.released && (exists q :: q in current && q.pn == r.part.pn)
                 && (vault.fold(r.part.pn), vault.fold(r.part.rev)) == (vault.fold(p.pn), vault.fold(p.rev));
        var q :| q in current && q.pn == r.part.pn;
        assert Lends(vault, q, p);
      }
    }
  }

  /** So the boundary does leak: with one spelling released and the other not, both given as roots, the unreleased part
      is taken for released, and ExpandRelationshipRoots returns it. */
  lemma ReleasedTwinLetsIn(links: seq<RawLink>, fold: string -> string) returns (vault: Vault, roots: set<Part>)
    requires fold("A") == fold("a")
    ensures vault == Vault([PartRow(Part("A", "1"), true), PartRow(Part("a", "1"), false)], links, fold, true)
    ensures roots == {Part("A", "1"), Part("a", "1")} && (forall r :: r in roots ==> r.rev != "" && r.pn != "")
    ensures Part("a", "1") in vault.Kept(Named(roots)) && !vault.Permitted(roots, Part("a", "1"))
  {
    vault := Vault([PartRow(Part("A", "1"), true), PartRow(Part("a", "1"), false)], links, fold, true);
    roots := {Part("A", "1"), Part("a", "1")};
    assert Named(roots) == roots;
    assert vault.rows[0] in vault.rows;
    assert vault.Passable(Part("A", "1"));
    assert Lends(vault, Part("A", "1"), Part("a", "1"));
    KeptMember(vault, roots, Part("a", "1"));
    assert !vault.Passable(Part("a", "1"));
    assert forall chain :: !vault.Chain(roots, chain, Part("a", "1"));
  }

  /** The result is the least set that holds the passable roots and is closed under links into passable parts. */
  lemma PermittedIsLeast(vault: Vault, roots: set<Part>, allowed: set<Part>, s: set<Part>)
    requires forall p :: p in allowed <==> vault.Permitted(roots, p)
    ensures vault.Closed(roots, allowed)
    ensures vault.Closed(roots, s) ==> allowed <= s
  {
    forall p | vault.IsRoot(roots, p) && vault.Passable(p) ensures p in allowed {
      vault.RootPermitted(roots, p);
    }
    forall p, q | p in allowed && vault.StepsTo(p, q) && vault.Passable(q) ensures q in allowed {
      vault.ChainExtends(roots, p, q);
    }
    if vault.Closed(roots, s) {
      forall p | p in allowed ensures p in s {
        var chain :| vault.Chain(roots, chain, p);
        vault.ClosedHoldsChain(roots, chain, p, s);
      }
    }
  }
}
