/** Finding the files of a part in the configured sources (app/services/filescan.py). */
module FileDiscovery {
  import opened Filters
  import opened Wrappers

  datatype Source = Source(id: string, root: string, url: string, forApproved: bool, forUnapproved: bool)

  /** A kind of file: at most one of each kind is kept for a part. */
  datatype Key = Key(group: string, isDwg: bool)

  datatype File = File(ext: string, path: string, mtime: int)

  /** What looking for a name in a source gives. A file outside the source's root is refused. */
  datatype Find = Missing | Outside | Hit(file: File)

  type Storage = (Source, string) -> Find

  /** A name to look for, with the kind it counts as. A lower priority number is a better match. */
  datatype Want = Want(rel: string, key: Key, priority: nat)

  datatype Candidate = Candidate(key: Key, priority: nat, rank: nat, source: Source, file: File)

  // ----- The order of the sources -----

  predicate IsActive(s: Source) {
    s.root != ""
  }

  predicate IsPreferred(s: Source, approved: bool) {
    if approved then s.forApproved else s.forUnapproved
  }

  /** `_sources`: the preferred sources first, the others behind them. */
  function Sources(configured: seq<Source>, approved: Option<bool>): seq<Source> {
    var active := Filter(IsActive, configured);
    match approved
    case None => active
    case Some(flag) =>
      var preferred := Filter((s: Source) => IsPreferred(s, flag), active);
      preferred + Filter((s: Source) => s !in preferred, active)
  }

  /** The flag only moves sources: the preferred ones keep their order in front, the rest keep theirs behind. */
  lemma SourcesAreReordered(configured: seq<Source>, flag: bool)
    ensures var active := Filter(IsActive, configured);
            Sources(configured, Some(flag)) == Filter((s: Source) => IsPreferred(s, flag), active)
                                                 + Filter((s: Source) => !IsPreferred(s, flag), active)
  {
    var active := Filter(IsActive, configured);
    var good := (s: Source) => IsPreferred(s, flag);
    var preferred := Filter(good, active);
    forall s | s in active ensures s !in preferred <==> !IsPreferred(s, flag) {
      FilterMember(good, active, s);
    }
    FilterSame((s: Source) => s !in preferred, (s: Source) => !IsPreferred(s, flag), active);
  }

  lemma SourcesMember(configured: seq<Source>, approved: Option<bool>, s: Source)
    ensures s in Sources(configured, approved) <==> s in configured && s.root != ""
  {
    var isActive: Source -> bool := IsActive;
    var active := Filter(isActive, configured);
    FilterMember(isActive, configured, s);
    if approved.Some? {
      var good := (s: Source) => IsPreferred(s, approved.value);
      var rest := (s: Source) => !IsPreferred(s, approved.value);
      SourcesAreReordered(configured, approved.value);
      FilterMember(good, active, s);
      FilterMember(rest, active, s);
    }
  }

  // ----- The candidates, in the order they come up -----

  function SheetWants(sheets: seq<string>): seq<Want> {
    seq(|sheets|, i requires 0 <= i < |sheets| => Want(sheets[i], Key("datasheet", false), 0))
  }

  function NameWants(names: seq<(string, string, bool)>): seq<Want> {
    seq(|names|, i requires 0 <= i < |names| => Want(names[i].0 + "/" + names[i].1, Key(names[i].0, names[i].2), 1))
  }

  function Hits(storage: Storage, s: Source, rank: nat, wants: seq<Want>): seq<Candidate> {
    if wants == [] then []
    else
      var w := wants[|wants| - 1];
      Hits(storage, s, rank, wants[..|wants| - 1])
        + (match storage(s, w.rel)
           case Hit(file) => [Candidate(w.key, w.priority, rank, s, file)]
           case _ => [])
  }

  function AllHits(storage: Storage, sources: seq<Source>, wants: seq<Want>): seq<Candidate> {
    if sources == [] then []
    else
      var n := |sources| - 1;
      AllHits(storage, sources[..n], wants) + Hits(storage, sources[n], n, wants)
  }

  /** Some name is found outside the root of its source. */
  ghost predicate Refused(storage: Storage, sources: seq<Source>, wants: seq<Want>) {
    exists s :: s in sources && RefusedIn(storage, s, wants)
  }

  ghost predicate RefusedIn(storage: Storage, s: Source, wants: seq<Want>) {
    exists w :: w in wants && storage(s, w.rel) == Outside
  }

  // ----- The best candidate -----

  /** `_prefer_record`. */
  predicate Prefer(prev: Option<Candidate>, c: Candidate) {
    match prev
    case None => true
    case Some(p) =>
      if c.priority != p.priority then c.priority < p.priority
      else if c.rank != p.rank then c.rank < p.rank
      else p.file.mtime < c.file.mtime
  }

  function Best(hits: seq<Candidate>, key: Key): Option<Candidate> {
    if hits == [] then None
    else
      var c := hits[|hits| - 1];
      var prev := Best(hits[..|hits| - 1], key);
      if c.key == key && Prefer(prev, c) then Some(c) else prev
  }

  /** Lexicographically better: by match, then by source rank, then newer. */
  predicate Better(c: Candidate, p: Candidate) {
    c.priority < p.priority
    || (c.priority == p.priority && (c.rank < p.rank || (c.rank == p.rank && c.file.mtime > p.file.mtime)))
  }

  /** The i-th candidate is strictly better than those of its kind before it, and no later one is better. */
  ghost predicate IsBest(hits: seq<Candidate>, key: Key, i: int) {
    && 0 <= i < |hits| && hits[i].key == key
    && (forall j :: 0 <= j < i && hits[j].key == key ==> Better(hits[i], hits[j]))
    && (forall j :: i < j < |hits| && hits[j].key == key ==> !Better(hits[j], hits[i]))
  }

  /** The fold keeps the best candidate of each kind: lowest priority number, then lowest source rank, then newest, then
      first seen. */
  lemma {:induction false} BestIsBest(hits: seq<Candidate>, key: Key)
    ensures Best(hits, key).None? <==> forall j :: 0 <= j < |hits| ==> hits[j].key != key
    ensures Best(hits, key).Some? ==> exists i :: IsBest(hits, key, i) && Best(hits, key) == Some(hits[i])
  {
    if hits != [] {
      var n := |hits| - 1;
      BestIsBest(hits[..n], key);
      var prev := Best(hits[..n], key);
      if prev.Some? {
        var i :| IsBest(hits[..n], key, i) && prev == Some(hits[..n][i]);
        if hits[n].key == key && Prefer(prev, hits[n]) {
          forall j | 0 <= j < n && hits[j].key == key ensures Better(hits[n], hits[j]) {
            assert hits[j] == hits[..n][j];
          }
          assert IsBest(hits, key, n);
        } else {
          assert forall j :: 0 <= j < n ==> hits[j] == hits[..n][j];
          assert IsBest(hits, key, i);
        }
      } else if hits[n].key == key {
        assert forall j :: 0 <= j < n ==> hits[j] == hits[..n][j];
        assert IsBest(hits, key, n);
      } else {
        assert forall j :: 0 <= j < n ==> hits[j] == hits[..n][j];
      }
    }
  }

  ghost predicate Finds(hits: seq<Candidate>, key: Key) {
    exists i :: IsBest(hits, key, i)
  }

  /** There is only one best candidate of a kind. */
  lemma BestIsUnique(hits: seq<Candidate>, key: Key, i: int, j: int)
    requires IsBest(hits, key, i) && IsBest(hits, key, j)
    ensures i == j
  {
  }

  // ----- Discovery -----

  class Finder {
    var found: map<Key, Candidate>

    constructor ()
      ensures found == map[]
    {
      found := map[];
    }

    ghost predicate Holds(hits: seq<Candidate>)
      reads this
    {
      forall key :: (if key in found then Some(found[key]) else None) == Best(hits, key)
    }

    /** Look for one name in one source; false if what is found is refused. */
    method Consider(storage: Storage, s: Source, rank: nat, w: Want, ghost hits: seq<Candidate>, ghost before: seq<Want>) returns (ok: bool)
      requires Holds(hits + Hits(storage, s, rank, before))
      modifies this
      ensures ok <==> storage(s, w.rel) != Outside
      ensures ok ==> Holds(hits + Hits(storage, s, rank, before + [w]))
    {
      assert (before + [w])[..|before|] == before;
      ghost var all := hits + Hits(storage, s, rank, before);
      match storage(s, w.rel) {
        case Missing =>
          assert Hits(storage, s, rank, before + [w]) == Hits(storage, s, rank, before);
          ok := true;
        case Outside =>
          ok := false;
        case Hit(file) =>
          var c := Candidate(w.key, w.priority, rank, s, file);
          assert hits + Hits(storage, s, rank, before + [w]) == all + [c];
          assert (all + [c])[..|all|] == all;
          var prev := if w.key in found then Some(found[w.key]) else None;
          if Prefer(prev, c) {
            found := found[w.key := c];
          }
          ok := true;
      }
    }

    /** Look for a list of names in one source, stopping at a refusal. */
    method ConsiderAll(storage: Storage, s: Source, rank: nat, wants: seq<Want>, ghost hits: seq<Candidate>, ghost earlier: seq<Want>)
      returns (ok: bool)
      requires Holds(hits + Hits(storage, s, rank, earlier))
      modifies this
      ensures ok <==> forall w :: w in wants ==> storage(s, w.rel) != Outside
      ensures ok ==> Holds(hits + Hits(storage, s, rank, earlier + wants))
    {
      assert earlier + [] == earlier;
      for n := 0 to |wants|
        invariant forall w :: w in wants[..n] ==> storage(s, w.rel) != Outside
        invariant Holds(hits + Hits(storage, s, rank, earlier + wants[..n]))
      {
        assert earlier + wants[..n + 1] == (earlier + wants[..n]) + [wants[n]];
        ok := Consider(storage, s, rank, wants[n], hits, earlier + wants[..n]);
        if !ok {
          return;
        }
      }
      assert wants[..|wants|] == wants;
      ok := true;
    }
  }

  function Wants(sheets: seq<string>, names: seq<(string, string, bool)>): seq<Want> {
    SheetWants(sheets) + NameWants(names)
  }

  lemma NoHitsYet(storage: Storage, s: Source, rank: nat, hits: seq<Candidate>)
    ensures hits + Hits(storage, s, rank, []) == hits
  {
  }

  /** Go through the sources in rank order; false if something found is refused. */
  method Scan(storage: Storage, sources: seq<Source>, sheets: seq<string>, names: seq<(string, string, bool)>)
    returns (finder: Finder, ok: bool)
    ensures ok <==> !Refused(storage, sources, Wants(sheets, names))
    ensures ok ==> finder.Holds(AllHits(storage, sources, Wants(sheets, names)))
  {
    ghost var wants := Wants(sheets, names);
    finder := new Finder();
    for rank := 0 to |sources|
      invariant fresh(finder)
      invariant finder.Holds(AllHits(storage, sources[..rank], wants))
      invariant !Refused(storage, sources[..rank], wants)
    {
      ghost var hits := AllHits(storage, sources[..rank], wants);
      assert sources[..rank + 1][..rank] == sources[..rank];
      NoHitsYet(storage, sources[rank], rank, hits);
      RefusedHere(storage, sources, rank, wants);
      assert [] + SheetWants(sheets) == SheetWants(sheets);
      ok := finder.ConsiderAll(storage, sources[rank], rank, SheetWants(sheets), hits, []);
      if ok {
        ok := finder.ConsiderAll(storage, sources[rank], rank, NameWants(names), hits, SheetWants(sheets));
      }
      assert ok <==> !RefusedIn(storage, sources[rank], wants);
      if !ok {
        return;
      }
    }
    assert sources[..|sources|] == sources;
    ok := true;
  }

  /** `discover_part_files`. `sheets` are the names from the datasheet attribute, `names` those expected for the part. The
      last clause says which file is found in terms of the names alone. */
  method Discover(storage: Storage, configured: seq<Source>, approved: Option<bool>, sheets: seq<string>,
                  names: seq<(string, string, bool)>)
    returns (r: Result<map<Key, File>, string>)
    ensures var sources := Sources(configured, approved);
            var wants := Wants(sheets, names);
            var hits := AllHits(storage, sources, wants);
            && (r.Err? <==> Refused(storage, sources, wants))
            && (r.Ok? ==> forall key :: key in r.value <==> Finds(hits, key))
            && (r.Ok? ==> forall key, i :: key in r.value && IsBest(hits, key, i) ==> r.value[key] == hits[i].file)
            && (r.Ok? ==> forall key :: key in r.value ==> IsFound(storage, sources, sheets, names, key, r.value[key]))
  {
    var sources := Sources(configured, approved);
    var finder, ok := Scan(storage, sources, sheets, names);
    if !ok {
      return Err("discovered file is outside its storage root");
    }
    ghost var hits := AllHits(storage, sources, Wants(sheets, names));
    r := Ok(map key | key in finder.found :: finder.found[key].file);
    forall key ensures Best(hits, key).Some? <==> Finds(hits, key) {
      BestIsTheBest(hits, key);
    }
    forall key, i | IsBest(hits, key, i) ensures Best(hits, key) == Some(hits[i]) {
      BestIsTheBest(hits, key);
    }
    forall key | key in r.value ensures IsFound(storage, sources, sheets, names, key, r.value[key]) {
      var i :| IsBest(hits, key, i);
      BestIsFirstOffer(storage, sources, sheets, names, key, i);
    }
  }

  // ----- What is found, in terms of the names looked for -----

  /** The files found in a source under the name of a datasheet, or under a name expected for the part in the folder of
      its kind. */
  ghost predicate Offers(storage: Storage, s: Source, sheets: seq<string>, names: seq<(string, string, bool)>, key: Key,
                         asSheet: bool, file: File) {
    if asSheet then key == Key("datasheet", false) && exists path :: path in sheets && storage(s, path) == Hit(file)
    else exists n :: n in names && key == Key(n.0, n.2) && storage(s, n.0 + "/" + n.1) == Hit(file)
  }

  /** A file offered such that a datasheet by its own name comes first, then the first source, then the newest file. */
  ghost predicate IsFirstOffer(storage: Storage, sources: seq<Source>, sheets: seq<string>, names: seq<(string, string, bool)>,
                               key: Key, rank: int, asSheet: bool, file: File) {
    && 0 <= rank < |sources| && Offers(storage, sources[rank], sheets, names, key, asSheet, file)
    && forall r, a, f :: 0 <= r < |sources| && Offers(storage, sources[r], sheets, names, key, a, f) ==>
         (a ==> asSheet) && (a == asSheet ==> rank <= r) && (a == asSheet && r == rank ==> f.mtime <= file.mtime)
  }

  ghost predicate IsFound(storage: Storage, sources: seq<Source>, sheets: seq<string>, names: seq<(string, string, bool)>,
                          key: Key, file: File) {
    exists rank, asSheet :: IsFirstOffer(storage, sources, sheets, names, key, rank, asSheet, file)
  }

  /** With the flag set the sources that are active and meant for such parts come first. */
  lemma SourcesByFlag(configured: seq<Source>)
    ensures Sources(configured, Some(true)) == Filter((s: Source) => s.root != "" && s.forApproved, configured)
                                                 + Filter((s: Source) => s.root != "" && !s.forApproved, configured)
    ensures Sources(configured, Some(false)) == Filter((s: Source) => s.root != "" && s.forUnapproved, configured)
                                                  + Filter((s: Source) => s.root != "" && !s.forUnapproved, configured)
    ensures Sources(configured, None) == Filter((s: Source) => s.root != "", configured)
  {
    ByFlag(configured, true, (s: Source) => s.root != "" && s.forApproved, (s: Source) => s.root != "" && !s.forApproved);
    ByFlag(configured, false, (s: Source) => s.root != "" && s.forUnapproved, (s: Source) => s.root != "" && !s.forUnapproved);
    FilterSame(IsActive, (s: Source) => s.root != "", configured);
  }

  lemma ByFlag(configured: seq<Source>, flag: bool, first: Source -> bool, later: Source -> bool)
    requires forall s :: first(s) <==> s.root != "" && IsPreferred(s, flag)
    requires forall s :: later(s) <==> s.root != "" && !IsPreferred(s, flag)
    ensures Sources(configured, Some(flag)) == Filter(first, configured) + Filter(later, configured)
  {
    SourcesAreReordered(configured, flag);
    FilterTwice((s: Source) => IsPreferred(s, flag), IsActive, first, configured);
    FilterTwice((s: Source) => !IsPreferred(s, flag), IsActive, later, configured);
  }

  ghost predicate IsWant(sheets: seq<string>, names: seq<(string, string, bool)>, w: Want) {
    || (w.priority == 0 && w.key == Key("datasheet", false) && w.rel in sheets)
    || (w.priority == 1 && exists n :: n in names && w.key == Key(n.0, n.2) && w.rel == n.0 + "/" + n.1)
  }

  lemma WantsMember(sheets: seq<string>, names: seq<(string, string, bool)>, w: Want)
    ensures w in Wants(sheets, names) <==> IsWant(sheets, names, w)
  {
    if w.rel in sheets {
      var i :| 0 <= i < |sheets| && sheets[i] == w.rel;
      assert SheetWants(sheets)[i].rel == w.rel;
    }
    if n :| n in names && w.key == Key(n.0, n.2) && w.rel == n.0 + "/" + n.1 {
      var i :| 0 <= i < |names| && names[i] == n;
      assert NameWants(names)[i].rel == w.rel;
    }
  }

  lemma OfferedIsHit(storage: Storage, sources: seq<Source>, sheets: seq<string>, names: seq<(string, string, bool)>, key: Key,
                     rank: nat, asSheet: bool, file: File)
    requires rank < |sources|
    ensures Offers(storage, sources[rank], sheets, names, key, asSheet, file) <==>
              Candidate(key, if asSheet then 0 else 1, rank, sources[rank], file)
              in AllHits(storage, sources, Wants(sheets, names))
  {
    AllHitsMember(storage, sources, Wants(sheets, names), Candidate(key, if asSheet then 0 else 1, rank, sources[rank], file));
    OfferedIsWanted(storage, sources[rank], sheets, names, key, asSheet, file);
  }

  lemma OfferedIsWanted(storage: Storage, s: Source, sheets: seq<string>, names: seq<(string, string, bool)>, key: Key,
                        asSheet: bool, file: File)
    ensures Offers(storage, s, sheets, names, key, asSheet, file) <==>
              exists w :: w in Wants(sheets, names) && storage(s, w.rel) == Hit(file) && key == w.key
                          && w.priority == if asSheet then 0 else 1
  {
    if w :| w in Wants(sheets, names) && storage(s, w.rel) == Hit(file) && key == w.key && w.priority == if asSheet then 0 else 1 {
      WantsMember(sheets, names, w);
    }
    if asSheet {
      if path :| path in sheets && key == Key("datasheet", false) && storage(s, path) == Hit(file) {
        WantsMember(sheets, names, Want(path, key, 0));
      }
    } else {
      if n :| n in names && key == Key(n.0, n.2) && storage(s, n.0 + "/" + n.1) == Hit(file) {
        WantsMember(sheets, names, Want(n.0 + "/" + n.1, key, 1));
      }
    }
  }

  lemma BestIsFirstOffer(storage: Storage, sources: seq<Source>, sheets: seq<string>, names: seq<(string, string, bool)>,
                         key: Key, i: int)
    requires IsBest(AllHits(storage, sources, Wants(sheets, names)), key, i)
    ensures var c := AllHits(storage, sources, Wants(sheets, names))[i];
            IsFirstOffer(storage, sources, sheets, names, key, c.rank, c.priority == 0, c.file)
  {
    var hits := AllHits(storage, sources, Wants(sheets, names));
    var c := hits[i];
    AllHitsMember(storage, sources, Wants(sheets, names), c);
    var w :| w in Wants(sheets, names) && c.priority == w.priority;
    WantsMember(sheets, names, w);
    OfferedIsHit(storage, sources, sheets, names, key, c.rank, c.priority == 0, c.file);
    forall r, a, f | 0 <= r < |sources| && Offers(storage, sources[r], sheets, names, key, a, f)
      ensures (a ==> c.priority == 0) && (a == (c.priority == 0) ==> c.rank <= r)
      ensures a == (c.priority == 0) && r == c.rank ==> f.mtime <= c.file.mtime
    {
      OfferedIsHit(storage, sources, sheets, names, key, r, a, f);
      var d := Candidate(key, if a then 0 else 1, r, sources[r], f);
      NotBetter(hits, key, i, d);
    }
  }

  lemma NotBetter(hits: seq<Candidate>, key: Key, i: int, d: Candidate)
    requires IsBest(hits, key, i) && d in hits && d.key == key
    ensures !Better(d, hits[i])
  {
  }

  lemma BestIsTheBest(hits: seq<Candidate>, key: Key)
    ensures Best(hits, key).Some? <==> Finds(hits, key)
    ensures forall i :: IsBest(hits, key, i) ==> Best(hits, key) == Some(hits[i])
  {
    BestIsBest(hits, key);
    forall i | IsBest(hits, key, i) ensures Best(hits, key) == Some(hits[i]) {
      var k :| IsBest(hits, key, k) && Best(hits, key) == Some(hits[k]);
      BestIsUnique(hits, key, i, k);
    }
  }

  lemma RefusedHere(storage: Storage, sources: seq<Source>, rank: nat, wants: seq<Want>)
    requires rank < |sources|
    ensures Refused(storage, sources[..rank + 1], wants)
            <==> Refused(storage, sources[..rank], wants) || RefusedIn(storage, sources[rank], wants)
    ensures RefusedIn(storage, sources[rank], wants) ==> Refused(storage, sources, wants)
  {
    var before, upTo := sources[..rank], sources[..rank + 1];
    assert upTo == before + [sources[rank]];
    if s :| s in upTo && RefusedIn(storage, s, wants) {
      assert s in before || s == sources[rank];
    }
    if s :| s in before && RefusedIn(storage, s, wants) {
      assert s in upTo;
    }
    if RefusedIn(storage, sources[rank], wants) {
      assert sources[rank] in upTo && sources[rank] in sources;
    }
  }

  // ----- What the approved flag cannot change -----

  /** A file of this kind is found somewhere. */
  ghost predicate Offered(storage: Storage, configured: seq<Source>, wants: seq<Want>, key: Key) {
    exists s, w :: s in configured && s.root != "" && w in wants && w.key == key && storage(s, w.rel).Hit?
  }

  lemma {:induction false} HitsMember(storage: Storage, s: Source, rank: nat, wants: seq<Want>, c: Candidate)
    ensures c in Hits(storage, s, rank, wants)
            <==> exists w :: w in wants && storage(s, w.rel) == Hit(c.file) && c == Candidate(w.key, w.priority, rank, s, c.file)
  {
    if wants != [] {
      var n := |wants| - 1;
      HitsMember(storage, s, rank, wants[..n], c);
      assert wants == wants[..n] + [wants[n]];
    }
  }

  lemma {:induction false} AllHitsMember(storage: Storage, sources: seq<Source>, wants: seq<Want>, c: Candidate)
    ensures c in AllHits(storage, sources, wants)
            <==> c.rank < |sources| && sources[c.rank] == c.source
                 && exists w :: w in wants && storage(c.source, w.rel) == Hit(c.file) && c.key == w.key && c.priority == w.priority
  {
    if sources != [] {
      var n := |sources| - 1;
      AllHitsMember(storage, sources[..n], wants, c);
      HitsMember(storage, sources[n], n, wants, c);
    }
  }

  lemma KindsAreOffered(storage: Storage, configured: seq<Source>, approved: Option<bool>, wants: seq<Want>, key: Key)
    ensures var hits := AllHits(storage, Sources(configured, approved), wants);
            Finds(hits, key) <==> Offered(storage, configured, wants, key)
  {
    var sources := Sources(configured, approved);
    var hits := AllHits(storage, sources, wants);
    BestIsBest(hits, key);
    if i :| IsBest(hits, key, i) {
      AllHitsMember(storage, sources, wants, hits[i]);
      SourcesMember(configured, approved, hits[i].source);
    }
    if s, w :| s in configured && s.root != "" && w in wants && w.key == key && storage(s, w.rel).Hit? {
      SourcesMember(configured, approved, s);
      var rank :| 0 <= rank < |sources| && sources[rank] == s;
      var c := Candidate(key, w.priority, rank, s, storage(s, w.rel).file);
      AllHitsMember(storage, sources, wants, c);
      var i :| 0 <= i < |hits| && hits[i] == c;
      assert hits[i].key == key;
    }
  }

  /** Approved, unapproved or unset: the same kinds of file are found, and discovery fails in the same cases. */
  lemma FlagOnlyReorders(storage: Storage, configured: seq<Source>, a: Option<bool>, b: Option<bool>, wants: seq<Want>)
    ensures forall key :: Finds(AllHits(storage, Sources(configured, a), wants), key)
                          <==> Finds(AllHits(storage, Sources(configured, b), wants), key)
    ensures Refused(storage, Sources(configured, a), wants) <==> Refused(storage, Sources(configured, b), wants)
  {
    forall key
      ensures Finds(AllHits(storage, Sources(configured, a), wants), key)
              <==> Finds(AllHits(storage, Sources(configured, b), wants), key)
    {
      KindsAreOffered(storage, configured, a, wants, key);
      KindsAreOffered(storage, configured, b, wants, key);
    }
    forall s ensures s in Sources(configured, a) <==> s in Sources(configured, b) {
      SourcesMember(configured, a, s);
      SourcesMember(configured, b, s);
    }
  }

  /** A source meant for this kind of part wins over one that is not, unless that one has a better match. */
  lemma PreferredSourceWins(storage: Storage, configured: seq<Source>, flag: bool, wants: seq<Want>, i: nat, j: nat)
    requires var hits := AllHits(storage, Sources(configured, Some(flag)), wants);
             i < |hits| && IsBest(hits, hits[i].key, i)
             && j < |hits| && hits[j].key == hits[i].key && hits[j].priority == hits[i].priority && IsPreferred(hits[j].source, flag)
    ensures IsPreferred(AllHits(storage, Sources(configured, Some(flag)), wants)[i].source, flag)
  {
    var sources := Sources(configured, Some(flag));
    var hits := AllHits(storage, sources, wants);
    AllHitsMember(storage, sources, wants, hits[i]);
    AllHitsMember(storage, sources, wants, hits[j]);
    PreferredInFront(configured, flag, hits[j].rank, hits[i].rank);
  }

  lemma PreferredInFront(configured: seq<Source>, flag: bool, a: nat, b: nat)
    requires var sources := Sources(configured, Some(flag));
             a < |sources| && b < |sources| && b <= a && IsPreferred(sources[a], flag)
    ensures IsPreferred(Sources(configured, Some(flag))[b], flag)
  {
    SourcesAreReordered(configured, flag);
    var active := Filter(IsActive, configured);
    var good := (s: Source) => IsPreferred(s, flag);
    var rest := (s: Source) => !IsPreferred(s, flag);
    var front, back := Filter(good, active), Filter(rest, active);
    if a >= |front| {
      FilterMember(rest, active, back[a - |front|]);
    } else {
      FilterMember(good, active, front[b]);
    }
  }
}
