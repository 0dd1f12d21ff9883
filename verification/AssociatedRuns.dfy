/** Whole runs of store and purge calls: what happens to a record and its file, and when all of them stay paired. */
module AssociatedRuns {
  import opened AssociatedFiles
  import FileNames
  import AttrKeys

  /** What outlives a call: the installed files and the records. */
  datatype Stores = Stores(visible: map<Path, Content>, records: map<nat, Record>)

  /** The record has its file, with the recorded digest, and shares the path with no other record. */
  ghost predicate Whole(digest: Content -> string, s: Stores, id: nat) {
    id in s.records && Matched(digest, s, s.records[id]) && Alone(s, id)
  }

  ghost predicate Matched(digest: Content -> string, s: Stores, r: Record) {
    Installed(r.rel) in s.visible && digest(s.visible[Installed(r.rel)]) == r.meta.digest
  }

  ghost predicate Alone(s: Stores, id: nat)
    requires id in s.records
  {
    forall i :: i in s.records && i != id ==> s.records[i].rel != s.records[id].rel
  }

  ghost predicate NoOrphans(s: Stores) {
    forall p :: p in s.visible ==> Recorded(s, p)
  }

  ghost predicate Recorded(s: Stores, p: Path) {
    exists id :: id in s.records && Installed(s.records[id].rel) == p
  }

  /** Every record is whole and every file has a record. */
  ghost predicate Paired(digest: Content -> string, s: Stores) {
    (forall id :: id in s.records ==> Whole(digest, s, id)) && NoOrphans(s)
  }

  // ----- What a committed batch does -----

  ghost predicate Batch(q: Request, uploads: seq<Upload>, items: seq<Item>, ids: seq<nat>, s: Stores, s': Stores) {
    Committed(q, uploads, items, ids, s.visible, s.records, s'.visible, s'.records)
  }

  /** What a batch says of one item: it belongs to a stored record, or to a new one and a path with no file. */
  lemma OfItem(q: Request, uploads: seq<Upload>, items: seq<Item>, ids: seq<nat>, s: Stores, s': Stores, k: nat)
    requires Batch(q, uploads, items, ids, s, s') && k < |items|
    ensures items[k].rel == RelOf(q, uploads[k]) == RecordFor(q, items[k]).rel
    ensures RecordFor(q, items[k]).meta.digest == q.digest(items[k].content)
    ensures ids[k] in s.records <==> items[k].existing.Some?
    ensures ids[k] in s.records ==> s.records[ids[k]].rel == items[k].rel && BelongsTo(q, s.records[ids[k]], items[k].rel)
    ensures ids[k] !in s.records ==> Installed(items[k].rel) !in s.visible
    ensures forall j :: 0 <= j < |items| && ids[j] == ids[k] ==> items[j].rel == items[k].rel && (ids[k] !in s.records ==> j == k)
  {
    assert ItemFor(q, uploads[k], items[k], s.visible, s.records);
    forall j | 0 <= j < |items| && ids[j] == ids[k] ensures items[j].rel == items[k].rel && (ids[k] !in s.records ==> j == k) {
      assert ItemFor(q, uploads[j], items[j], s.visible, s.records);
    }
  }

  /** The record an item wrote, as it is after the batch. */
  lemma WrittenRecord(q: Request, uploads: seq<Upload>, items: seq<Item>, ids: seq<nat>, s: Stores, s': Stores, k: nat)
    requires Batch(q, uploads, items, ids, s, s') && k < |items|
    ensures ids[k] in s'.records && s'.records[ids[k]].rel == items[k].rel
  {
    var last := LastToRecord(q, s.records, items, ids, ids[k]);
    OfItem(q, uploads, items, ids, s, s', k);
    OfItem(q, uploads, items, ids, s, s', last);
  }

  /** A batch drops no record and moves none to another path. */
  lemma OldRecord(q: Request, uploads: seq<Upload>, items: seq<Item>, ids: seq<nat>, s: Stores, s': Stores, id: nat)
    requires Batch(q, uploads, items, ids, s, s') && id in s.records
    ensures id in s'.records && s'.records[id].rel == s.records[id].rel
  {
    var last := LastToRecord(q, s.records, items, ids, id);
    if last < |items| {
      OfItem(q, uploads, items, ids, s, s', last);
    }
  }

  /** A record that was not there before was written by the one item that has its id. */
  lemma NewRecord(q: Request, uploads: seq<Upload>, items: seq<Item>, ids: seq<nat>, s: Stores, s': Stores, id: nat)
      returns (k: nat)
    requires Batch(q, uploads, items, ids, s, s') && id in s'.records && id !in s.records
    ensures k < |items| && ids[k] == id && s'.records[id] == RecordFor(q, items[k]) && s'.records[id].rel == items[k].rel
    ensures Installed(items[k].rel) !in s.visible
  {
    k := LastToRecord(q, s.records, items, ids, id);
    OfItem(q, uploads, items, ids, s, s', k);
  }

  /** Every item at a whole record's path rewrites that record, and no other item does. */
  lemma OwnItems(q: Request, uploads: seq<Upload>, items: seq<Item>, ids: seq<nat>, s: Stores, s': Stores, id: nat, k: nat)
    requires Batch(q, uploads, items, ids, s, s') && Whole(q.digest, s, id) && k < |items|
    ensures items[k].rel == s.records[id].rel <==> ids[k] == id
  {
    OfItem(q, uploads, items, ids, s, s', k);
  }

  lemma CommitKeepsMatched(q: Request, uploads: seq<Upload>, items: seq<Item>, ids: seq<nat>, s: Stores, s': Stores, id: nat)
    requires Batch(q, uploads, items, ids, s, s') && Whole(q.digest, s, id)
    ensures id in s'.records && s'.records[id].rel == s.records[id].rel && Matched(q.digest, s', s'.records[id])
  {
    OldRecord(q, uploads, items, ids, s, s', id);
    var k := LastToPath(s.visible, items, Installed(s.records[id].rel));
    var last := LastToRecord(q, s.records, items, ids, id);
    if k < |items| {
      OwnItems(q, uploads, items, ids, s, s', id, k);
      OfItem(q, uploads, items, ids, s, s', k);
    }
    if last < |items| {
      OwnItems(q, uploads, items, ids, s, s', id, last);
    }
    assert k == last;
  }

  lemma CommitKeepsWhole(q: Request, uploads: seq<Upload>, items: seq<Item>, ids: seq<nat>, s: Stores, s': Stores, id: nat)
    requires Batch(q, uploads, items, ids, s, s') && Whole(q.digest, s, id)
    ensures Whole(q.digest, s', id)
  {
    CommitKeepsMatched(q, uploads, items, ids, s, s', id);
    forall i | i in s'.records && i != id ensures s'.records[i].rel != s'.records[id].rel {
      if i in s.records {
        OldRecord(q, uploads, items, ids, s, s', i);
      } else {
        var _ := NewRecord(q, uploads, items, ids, s, s', i);
      }
    }
  }

  lemma CommitKeepsNoOrphans(q: Request, uploads: seq<Upload>, items: seq<Item>, ids: seq<nat>, s: Stores, s': Stores)
    requires Batch(q, uploads, items, ids, s, s') && NoOrphans(s)
    ensures NoOrphans(s')
  {
    forall p | p in s'.visible ensures Recorded(s', p) {
      var k := LastToPath(s.visible, items, p);
      if k < |items| {
        WrittenRecord(q, uploads, items, ids, s, s', k);
      } else {
        assert Recorded(s, p);
        var id :| id in s.records && Installed(s.records[id].rel) == p;
        OldRecord(q, uploads, items, ids, s, s', id);
      }
    }
  }

  // ----- When a committed batch keeps all paired -----

  /** No two uploads are given the same path, unless a file is there already. */
  ghost predicate NoClash(q: Request, uploads: seq<Upload>, visible: map<Path, Content>) {
    forall i, j :: 0 <= i < j < |uploads| && RelOf(q, uploads[i]) == RelOf(q, uploads[j]) ==>
      Installed(RelOf(q, uploads[i])) in visible
  }

  /** Where all is paired, an item is new exactly when there is no file at its path. */
  lemma NewIffNoFile(q: Request, uploads: seq<Upload>, items: seq<Item>, ids: seq<nat>, s: Stores, s': Stores, k: nat)
    requires Batch(q, uploads, items, ids, s, s') && Paired(q.digest, s) && k < |items|
    ensures items[k].rel == RelOf(q, uploads[k])
    ensures ids[k] !in s.records <==> Installed(RelOf(q, uploads[k])) !in s.visible
  {
    OfItem(q, uploads, items, ids, s, s', k);
    assert ids[k] in s.records ==> Whole(q.digest, s, ids[k]);
  }

  lemma NewRecordWhole(q: Request, uploads: seq<Upload>, items: seq<Item>, ids: seq<nat>, s: Stores, s': Stores, id: nat)
    requires Batch(q, uploads, items, ids, s, s') && Paired(q.digest, s) && NoClash(q, uploads, s.visible)
    requires id in s'.records && id !in s.records
    ensures Whole(q.digest, s', id)
  {
    var k := NewRecord(q, uploads, items, ids, s, s', id);
    NewIffNoFile(q, uploads, items, ids, s, s', k);
    OfItem(q, uploads, items, ids, s, s', k);
    var last := LastToPath(s.visible, items, Installed(items[k].rel));
    NewIffNoFile(q, uploads, items, ids, s, s', last);
    assert last == k;
    forall i | i in s'.records && i != id ensures s'.records[i].rel != s'.records[id].rel {
      if i in s.records {
        OldRecord(q, uploads, items, ids, s, s', i);
        assert Whole(q.digest, s, i);
      } else {
        var j := NewRecord(q, uploads, items, ids, s, s', i);
        NewIffNoFile(q, uploads, items, ids, s, s', j);
      }
    }
  }

  lemma ClashUnpairs(q: Request, uploads: seq<Upload>, items: seq<Item>, ids: seq<nat>, s: Stores, s': Stores, i: nat, j: nat)
    requires Batch(q, uploads, items, ids, s, s') && Paired(q.digest, s) && i < j < |uploads|
    requires RelOf(q, uploads[i]) == RelOf(q, uploads[j]) && Installed(RelOf(q, uploads[i])) !in s.visible
    ensures !Whole(q.digest, s', ids[i]) && ids[i] in s'.records
  {
    NewIffNoFile(q, uploads, items, ids, s, s', i);
    NewIffNoFile(q, uploads, items, ids, s, s', j);
    OfItem(q, uploads, items, ids, s, s', i);
    WrittenRecord(q, uploads, items, ids, s, s', i);
    WrittenRecord(q, uploads, items, ids, s, s', j);
  }

  /** A committed batch keeps records and files paired if and only if no two of its uploads clash. */
  lemma CommitPairedIff(q: Request, uploads: seq<Upload>, items: seq<Item>, ids: seq<nat>, s: Stores, s': Stores)
    requires Batch(q, uploads, items, ids, s, s') && Paired(q.digest, s)
    ensures Paired(q.digest, s') <==> NoClash(q, uploads, s.visible)
  {
    if NoClash(q, uploads, s.visible) {
      forall id | id in s'.records ensures Whole(q.digest, s', id) {
        if id in s.records {
          CommitKeepsWhole(q, uploads, items, ids, s, s', id);
        } else {
          NewRecordWhole(q, uploads, items, ids, s, s', id);
        }
      }
      CommitKeepsNoOrphans(q, uploads, items, ids, s, s');
    } else {
      var i, j :| 0 <= i < j < |uploads| && RelOf(q, uploads[i]) == RelOf(q, uploads[j])
                  && Installed(RelOf(q, uploads[i])) !in s.visible;
      ClashUnpairs(q, uploads, items, ids, s, s', i, j);
    }
  }

  // ----- Clashes under the program's own names -----

  /** The request cleans names, compares them and makes paths of them as the program does. */
  ghost predicate OwnNames(q: Request) {
    && (forall n :: q.clean(n) == FileNames.Validated(n)) && (forall n :: q.fold(n) == AttrKeys.Lower(n))
    && (forall n :: q.relPath(n) == FileNames.RelPath(q.pn, q.rev, n))
  }

  lemma CleanNameIsCleaned(q: Request, up: Upload)
    requires OwnNames(q) && q.clean(up.filename).Some?
    ensures CleanName(q, up) == FileNames.SafeFilename(up.filename)
    ensures RelOf(q, up) == FileNames.RelPath(q.pn, q.rev, FileNames.SafeFilename(up.filename))
  {
    assert q.clean(up.filename) == FileNames.Validated(up.filename);
  }

  /** An accepted batch can clash only where a cleaned name still ends in a dot. */
  lemma ClashTakesADot(q: Request, uploads: seq<Upload>, visible: map<Path, Content>, records: map<nat, Record>)
    requires OwnNames(q) && Acceptable(q, uploads, visible, records)
    requires forall k :: 0 <= k < |uploads| ==> !FileNames.EndsInDot(CleanName(q, uploads[k]))
    ensures NoClash(q, uploads, visible)
  {
    forall i, j | 0 <= i < j < |uploads| ensures RelOf(q, uploads[i]) != RelOf(q, uploads[j]) {
      assert Admissible(q, uploads[i], visible, records) && Admissible(q, uploads[j], visible, records);
      CleanNameIsCleaned(q, uploads[i]);
      CleanNameIsCleaned(q, uploads[j]);
      FileNames.DotlessNamesApart(q.pn, q.rev, uploads[i].filename, uploads[j].filename);
    }
  }

  /** Such a batch exists: it is accepted by empty stores, and once committed two records stand over one file. */
  lemma AcceptedClash(q: Request, c: Content, d: Content) returns (uploads: seq<Upload>)
    requires OwnNames(q) && q.maxBytes == 0 && forall rel :: q.resolves(rel)
    ensures |uploads| == 2 && Acceptable(q, uploads, map[], map[]) && !NoClash(q, uploads, map[])
    ensures forall items, ids, s' :: Batch(q, uploads, items, ids, Stores(map[], map[]), s') ==> !Paired(q.digest, s')
  {
    var x, y, a, b := FileNames.TwoNamesOnePath(q.pn, q.rev);
    uploads := [Upload(x, c), Upload(y, d)];
    TwoAccepted(q, uploads[0], uploads[1], a, b);
    assert !NoClash(q, uploads, map[]) by {
      assert RelOf(q, uploads[0]) == RelOf(q, uploads[1]);
    }
    forall items, ids, s' | Batch(q, uploads, items, ids, Stores(map[], map[]), s') ensures !Paired(q.digest, s') {
      CommitPairedIff(q, uploads, items, ids, Stores(map[], map[]), s');
    }
  }

  lemma TwoAccepted(q: Request, x: Upload, y: Upload, a: string, b: string)
    requires OwnNames(q) && q.maxBytes == 0 && forall rel :: q.resolves(rel)
    requires FileNames.Validated(x.filename).Some? && FileNames.Validated(x.filename).value == a
    requires FileNames.Validated(y.filename).Some? && FileNames.Validated(y.filename).value == b
    requires AttrKeys.Lower(a) != AttrKeys.Lower(b) && FileNames.RelPath(q.pn, q.rev, a) == FileNames.RelPath(q.pn, q.rev, b)
    ensures Acceptable(q, [x, y], map[], map[]) && RelOf(q, x) == RelOf(q, y)
  {
    OneAdmissible(q, x, a);
    OneAdmissible(q, y, b);
    TwoAcceptable(q, x, y);
  }

  lemma TwoAcceptable(q: Request, x: Upload, y: Upload)
    requires Admissible(q, x, map[], map[]) && Admissible(q, y, map[], map[])
    requires q.fold(CleanName(q, x)) != q.fold(CleanName(q, y))
    ensures Acceptable(q, [x, y], map[], map[])
  {
  }

  lemma OneAdmissible(q: Request, up: Upload, name: string)
    requires OwnNames(q) && q.maxBytes == 0 && forall rel :: q.resolves(rel)
    requires FileNames.Validated(up.filename).Some? && FileNames.Validated(up.filename).value == name
    ensures Admissible(q, up, map[], map[])
    ensures CleanName(q, up) == name && RelOf(q, up) == FileNames.RelPath(q.pn, q.rev, name)
    ensures q.fold(name) == AttrKeys.Lower(name)
  {
    assert q.clean(up.filename) == FileNames.Validated(up.filename);
    assert q.relPath(name) == FileNames.RelPath(q.pn, q.rev, name);
  }

  // ----- What a purge does -----

  ghost predicate Removed(s: Stores, s': Stores, id: nat) {
    id in s.records && s'.records == s.records - {id} && s'.visible == s.visible - {Installed(s.records[id].rel)}
  }

  /** The ending in which the deletion and the move back both failed. */
  ghost predicate LosingPurge(s: Stores, s': Stores, id: nat) {
    id in s.records && s'.records == s.records && s'.visible == s.visible - {Installed(s.records[id].rel)}
  }

  /** However a purge ends, the whole records it was not asked for stay whole, and the one asked for does not. */
  lemma PurgeKeepsOthersWhole(digest: Content -> string, s: Stores, s': Stores, purged: nat, id: nat)
    requires (Removed(s, s', purged) || LosingPurge(s, s', purged)) && Whole(digest, s, id)
    ensures Whole(digest, s', id) <==> id != purged
  {
  }

  lemma PurgeKeepsNoOrphans(s: Stores, s': Stores, id: nat)
    requires (Removed(s, s', id) || LosingPurge(s, s', id)) && NoOrphans(s)
    ensures NoOrphans(s')
  {
    forall p | p in s'.visible ensures Recorded(s', p) {
      assert Recorded(s, p);
      var i :| i in s.records && Installed(s.records[i].rel) == p;
      assert i in s'.records && s'.records[i] == s.records[i];
    }
  }

  lemma RemovalKeepsPaired(digest: Content -> string, s: Stores, s': Stores, id: nat)
    requires Paired(digest, s) && Removed(s, s', id)
    ensures Paired(digest, s')
  {
    forall i | i in s'.records ensures Whole(digest, s', i) {
      assert Whole(digest, s, i);
      PurgeKeepsOthersWhole(digest, s, s', id, i);
    }
    PurgeKeepsNoOrphans(s, s', id);
  }

  // ----- Runs -----

  /** What a call does to the stores: nothing, a committed batch, or a purge that went through or lost the file. */
  datatype Event =
    | Nothing
    | Commit(q: Request, uploads: seq<Upload>, items: seq<Item>, ids: seq<nat>)
    | Removal(id: nat)
    | Loss(id: nat)

  ghost predicate Happens(digest: Content -> string, e: Event, s: Stores, s': Stores) {
    match e
    case Nothing => s' == s
    case Commit(q, uploads, items, ids) => q.digest == digest && Batch(q, uploads, items, ids, s, s')
    case Removal(id) => Removed(s, s', id)
    case Loss(id) => LosingPurge(s, s', id)
  }

  predicate Purges(e: Event, id: nat) {
    (e.Removal? || e.Loss?) && e.id == id
  }

  ghost predicate Run(digest: Content -> string, events: seq<Event>, states: seq<Stores>) {
    |states| == |events| + 1 && forall i :: 0 <= i < |events| ==> Happens(digest, events[i], states[i], states[i + 1])
  }

  lemma EventKeepsWhole(digest: Content -> string, e: Event, s: Stores, s': Stores, id: nat)
    requires Happens(digest, e, s, s') && Whole(digest, s, id)
    ensures Whole(digest, s', id) <==> !Purges(e, id)
  {
    match e
    case Nothing =>
    case Commit(q, uploads, items, ids) => CommitKeepsWhole(q, uploads, items, ids, s, s', id);
    case Removal(x) => PurgeKeepsOthersWhole(digest, s, s', x, id);
    case Loss(x) => PurgeKeepsOthersWhole(digest, s, s', x, id);
  }

  /** A record that has its file to itself keeps it, with the right digest, over any run of batches and purges of
      other records, whatever state those are in and whatever files are lost. */
  lemma {:induction false} WholeStays(digest: Content -> string, events: seq<Event>, states: seq<Stores>, id: nat, n: nat)
    requires Run(digest, events, states) && n < |states| && Whole(digest, states[0], id)
    requires forall i :: 0 <= i < n ==> !Purges(events[i], id)
    ensures Whole(digest, states[n], id)
  {
    if n > 0 {
      WholeStays(digest, events, states, id, n - 1);
      assert Happens(digest, events[n - 1], states[n - 1], states[n - 1 + 1]);
      EventKeepsWhole(digest, events[n - 1], states[n - 1], states[n], id);
    }
  }

  lemma EventKeepsNoOrphans(digest: Content -> string, e: Event, s: Stores, s': Stores)
    requires Happens(digest, e, s, s') && NoOrphans(s)
    ensures NoOrphans(s')
  {
    match e
    case Nothing =>
    case Commit(q, uploads, items, ids) => CommitKeepsNoOrphans(q, uploads, items, ids, s, s');
    case Removal(id) => PurgeKeepsNoOrphans(s, s', id);
    case Loss(id) => PurgeKeepsNoOrphans(s, s', id);
  }

  /** No run leaves a file without a record. */
  lemma {:induction false} NoOrphansEver(digest: Content -> string, events: seq<Event>, states: seq<Stores>, n: nat)
    requires Run(digest, events, states) && n < |states| && NoOrphans(states[0])
    ensures NoOrphans(states[n])
  {
    if n > 0 {
      NoOrphansEver(digest, events, states, n - 1);
      assert Happens(digest, events[n - 1], states[n - 1], states[n - 1 + 1]);
      EventKeepsNoOrphans(digest, events[n - 1], states[n - 1], states[n]);
    }
  }

  /** What unpairs paired stores: a batch with a clash, or a losing purge of a record. */
  ghost predicate Unpairs(e: Event, s: Stores) {
    e.Loss? || (e.Commit? && !NoClash(e.q, e.uploads, s.visible))
  }

  /** One call keeps everything paired if and only if it neither commits a clash nor loses a file. */
  lemma EventPairedIff(digest: Content -> string, e: Event, s: Stores, s': Stores)
    requires Happens(digest, e, s, s') && Paired(digest, s)
    ensures Paired(digest, s') <==> !Unpairs(e, s)
  {
    match e
    case Nothing =>
    case Commit(q, uploads, items, ids) => CommitPairedIff(q, uploads, items, ids, s, s');
    case Removal(id) => RemovalKeepsPaired(digest, s, s', id);
    case Loss(id) =>
      assert Whole(digest, s, id);
      PurgeKeepsOthersWhole(digest, s, s', id, id);
  }

  /** The stores stay paired over every run without such calls. */
  lemma {:induction false} RunKeepsPaired(digest: Content -> string, events: seq<Event>, states: seq<Stores>, n: nat)
    requires Run(digest, events, states) && n < |states| && Paired(digest, states[0])
    requires forall i :: 0 <= i < n ==> !Unpairs(events[i], states[i])
    ensures Paired(digest, states[n])
  {
    if n > 0 {
      RunKeepsPaired(digest, events, states, n - 1);
      assert Happens(digest, events[n - 1], states[n - 1], states[n - 1 + 1]);
      EventPairedIff(digest, events[n - 1], states[n - 1], states[n]);
    }
  }

  // ----- The calls are such events -----

  ghost function Seen(d: Depot): Stores
    reads d
  {
    Stores(Visible(d.files), d.records)
  }

  /** A store call is an event; it unpairs paired stores exactly when it gets installed and has a clash. */
  method StoreEvent(d: Depot, q: Request, uploads: seq<Upload>) returns (outcome: Outcome, ghost e: Event)
    requires d.Valid()
    modifies d
    ensures d.Valid() && Happens(q.digest, e, old(Seen(d)), Seen(d)) && (e.Nothing? || e.Commit?)
    ensures e.Nothing? <==> outcome.RolledBack?
    ensures old(Paired(q.digest, Seen(d))) ==>
              (Paired(q.digest, Seen(d)) <==>
                !old(GetsInstalled(d.faults, q, uploads, Visible(d.files), d.records, d.step))
                || NoClash(q, uploads, Visible(old(d.files))))
  {
    ghost var items;
    ghost var s := Seen(d);
    outcome, items := d.Store(q, uploads);
    e := if outcome.RolledBack? then Nothing
         else Commit(q, uploads, items, if outcome.Stored? then outcome.ids else outcome.written);
    if Paired(q.digest, s) {
      EventPairedIff(q.digest, e, s, Seen(d));
    }
  }

  /** A purge call is an event; it unpairs paired stores exactly when the move aside works and both the deletion and
      the move back are made to fail. */
  method PurgeEvent(d: Depot, id: nat, ghost digest: Content -> string) returns (end: PurgeEnd, ghost e: Event)
    requires d.Valid() && id in d.records
    modifies d
    ensures d.Valid() && Happens(digest, e, old(Seen(d)), Seen(d)) && (e == Nothing || e == Removal(id) || e == Loss(id))
    ensures old(Paired(digest, Seen(d))) ==>
              (Paired(digest, Seen(d)) <==>
                !(!d.faults(old(d.step)) && d.faults(old(d.step) + 1) && d.faults(old(d.step) + 2)))
  {
    ghost var s := Seen(d);
    end := d.Purge(id);
    e := if end.Refused? then Nothing else if end.Lost? then Loss(id) else Removal(id);
    if Paired(digest, s) {
      assert Whole(digest, s, id);
      EventPairedIff(digest, e, s, Seen(d));
    }
  }
}
