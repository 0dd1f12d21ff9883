/** Planning a file refresh before it is carried out, and what the plan covers (app/services/filescan.py). */
module FileRefresh {
  import opened Wrappers
  import opened AttrKeys
  import opened Filters
  import opened FileRegistry
  import opened RegistryLaws

  datatype Plan = Plan(additions: nat, replacements: nat, stale: seq<Row>)

  function PlanIdentity(pn: string, rev: string, r: Record): Identity {
    Identity(Lower(pn), Lower(rev), Lower(Strip(r.group)), Lower(Strip(r.ext)), r.isDwg)
  }

  /** Records the plan counts as new, and as replacing a stored row. */
  function Adds(rows: seq<Row>, pn: string, rev: string): Record -> bool {
    (r: Record) => Strip(r.ext) != "" && Siblings(rows, PlanIdentity(pn, rev, r)) == []
  }

  function Replaces(rows: seq<Row>, pn: string, rev: string): Record -> bool {
    (r: Record) => Strip(r.ext) != "" && Siblings(rows, PlanIdentity(pn, rev, r)) != []
  }

  function Stale(pn: string, rev: string, found: set<(string, bool)>, onDisk: Row -> bool): Row -> bool {
    (r: Row) => IsStale(r, pn, rev, found, onDisk)
  }

  /** `plan_part_file_refresh`. */
  method PlanRefresh(rows: seq<Row>, pn: string, rev: string, records: seq<Record>, found: set<(string, bool)>,
                     onDisk: Row -> bool, reachable: bool)
    returns (plan: Plan)
    ensures plan.additions == |Filter(Adds(rows, pn, rev), records)|
    ensures plan.replacements == |Filter(Replaces(rows, pn, rev), records)|
    ensures plan.stale == if reachable then Filter(Stale(pn, rev, found, onDisk), rows) else []
    ensures forall r :: r in plan.stale <==>
                          && reachable && r in rows && Lower(r.pn) == Lower(pn) && Lower(r.rev) == Lower(rev)
                          && (Lower(r.group), r.isDwg) !in found && !onDisk(r)
  {
    forall r ensures r in Filter(Stale(pn, rev, found, onDisk), rows) <==> r in rows && IsStale(r, pn, rev, found, onDisk) {
      FilterMember(Stale(pn, rev, found, onDisk), rows, r);
    }
    var additions, replacements := 0, 0;
    for n := 0 to |records|
      invariant additions + |Filter(Adds(rows, pn, rev), records[n..])| == |Filter(Adds(rows, pn, rev), records)|
      invariant replacements + |Filter(Replaces(rows, pn, rev), records[n..])| == |Filter(Replaces(rows, pn, rev), records)|
    {
      assert records[n..][0] == records[n] && records[n..][1..] == records[n + 1..];
      if Strip(records[n].ext) == "" {
        continue;
      }
      if Siblings(rows, PlanIdentity(pn, rev, records[n])) == [] {
        additions := additions + 1;
      } else {
        replacements := replacements + 1;
      }
    }
    assert records[|records|..] == [];
    plan := Plan(additions, replacements, if reachable then Filter(Stale(pn, rev, found, onDisk), rows) else []);
  }

  /** The row is of the part and of the record's kind, whatever the letter case of all but the row's kind. */
  ghost predicate IsStoredFor(r: Row, pn: string, rev: string, rec: Record) {
    && Lower(r.pn) == Lower(pn) && Lower(r.rev) == Lower(rev) && r.isDwg == rec.isDwg
    && r.group == Lower(Strip(rec.group)) && r.ext == Lower(Strip(rec.ext))
  }

  /** A record with an extension counts as a replacement if a row is stored for it, else as an addition. */
  lemma CountedAs(rows: seq<Row>, pn: string, rev: string, rec: Record)
    ensures Replaces(rows, pn, rev)(rec) <==> Strip(rec.ext) != "" && exists r :: r in rows && IsStoredFor(r, pn, rev, rec)
    ensures Adds(rows, pn, rev)(rec) <==> Strip(rec.ext) != "" && !exists r :: r in rows && IsStoredFor(r, pn, rev, rec)
  {
    var siblings := Siblings(rows, PlanIdentity(pn, rev, rec));
    forall r ensures r in siblings <==> r in rows && IsStoredFor(r, pn, rev, rec) {
      SiblingsMember(rows, PlanIdentity(pn, rev, rec), r);
    }
    if siblings != [] {
      assert siblings[0] in siblings;
    }
  }

  // ----- What an upsert does to the ids -----

  function IsNew(rows: seq<Row>): Item -> bool {
    (u: Item) => !Skipped(u) && Siblings(rows, ItemIdentity(u)) == []
  }

  /** The item is upserted and meets no other item's row. */
  ghost predicate Alone(items: seq<Item>, u: Item) {
    forall v :: v in items && !Skipped(v) ==> ItemIdentity(v) != ItemIdentity(u)
  }

  lemma DistinctHead(items: seq<Item>)
    requires items != [] && DistinctItems(items)
    ensures DistinctItems(items[1..]) && (!Skipped(items[0]) ==> Alone(items[1..], items[0]))
  {
    if !Skipped(items[0]) {
      forall v | v in items[1..] && !Skipped(v) ensures ItemIdentity(v) != ItemIdentity(items[0]) {
        var i :| 0 <= i < |items[1..]| && items[1..][i] == v;
        assert items[i + 1] == v;
      }
    }
  }

  lemma OtherSiblings(db: Db, u: Item, who: Identity)
    requires WellFormed(db) && (Skipped(u) || ItemIdentity(u) != who)
    ensures Siblings(UpsertOne(db, u).rows, who) == Siblings(db.rows, who)
  {
    if !Skipped(u) {
      UpsertLeavesOthers(db, u, Of(who));
    }
  }

  /** Every record without a stored row takes one new id. */
  lemma {:induction false} NewIds(db: Db, items: seq<Item>)
    requires WellFormed(db) && DistinctItems(items)
    ensures UpsertAll(db, items).next == db.next + |Filter(IsNew(db.rows), items)|
    decreases |items|
  {
    if items != [] {
      var u := items[0];
      var next := UpsertOne(db, u);
      DistinctHead(items);
      UpsertKeepsWellFormed(db, u);
      NewIds(next, items[1..]);
      SurvivorIsSibling(Siblings(db.rows, ItemIdentity(u)), u.path);
      forall v | v in items[1..] ensures IsNew(db.rows)(v) == IsNew(next.rows)(v) {
        if !Skipped(v) {
          OtherSiblings(db, u, ItemIdentity(v));
        }
      }
      FilterSame(IsNew(db.rows), IsNew(next.rows), items[1..]);
    }
  }

  ghost predicate HasId(rows: seq<Row>, id: nat) {
    exists r :: r in rows && r.id == id
  }

  /** Rows of identities the batch does not mention stay. */
  lemma UnmentionedStays(db: Db, items: seq<Item>, r: Row)
    requires WellFormed(db) && forall u :: u in items && !Skipped(u) ==> ItemIdentity(u) != RowIdentity(r)
    ensures r in UpsertAll(db, items).rows <==> r in db.rows
  {
    var who := RowIdentity(r);
    LastIsItem(items, who);
    BatchResult(db, items, who);
    SiblingsMember(UpsertAll(db, items).rows, who, r);
    SiblingsMember(db.rows, who, r);
  }

  /** One upsert: which ids remain, and with which identity. */
  lemma UpsertIds(db: Db, u: Item, x: Row)
    requires WellFormed(db) && x in UpsertOne(db, u).rows
    ensures x.id == db.next || exists r :: r in db.rows && r.id == x.id && RowIdentity(r) == RowIdentity(x)
    ensures x.id < db.next && RowIdentity(x) != ItemIdentity(u) ==> x in db.rows
  {
    var siblings := Siblings(db.rows, ItemIdentity(u));
    if !Skipped(u) && Survivor(siblings, u.path).Some? {
      var r := Survivor(siblings, u.path).value;
      var left := Without(db.rows, Ids(siblings) - {r.id});
      var i :| 0 <= i < |left| && Written(left, r.id, u.values)[i] == x;
      FilterMember(NotIn(Ids(siblings) - {r.id}), db.rows, left[i]);
      SurvivorIsSibling(siblings, u.path);
      SiblingsMember(db.rows, ItemIdentity(u), r);
      assert left[i] in db.rows && left[i].id == x.id && RowIdentity(left[i]) == RowIdentity(x);
      if left[i].id == r.id {
        SameIdSameRow(db, left[i], r);
      }
    }
  }

  /** Over a batch, an old id stays with its identity, and no id comes from nowhere. */
  lemma {:induction false} BatchIds(db: Db, items: seq<Item>, x: Row)
    requires WellFormed(db) && x in UpsertAll(db, items).rows
    ensures x.id < db.next ==> exists r :: r in db.rows && r.id == x.id && RowIdentity(r) == RowIdentity(x)
    decreases |items|
  {
    if items == [] {
      assert x in db.rows;
    } else {
      var next := UpsertOne(db, items[0]);
      UpsertKeepsWellFormed(db, items[0]);
      BatchIds(next, items[1..], x);
      if x.id < db.next {
        var y :| y in next.rows && y.id == x.id && RowIdentity(y) == RowIdentity(x);
        UpsertIds(db, items[0], y);
      }
    }
  }

  /** Every id handed out in the batch is in use afterwards. */
  lemma {:induction false} NewIdsUsed(db: Db, items: seq<Item>, id: nat)
    requires WellFormed(db) && DistinctItems(items) && db.next <= id < UpsertAll(db, items).next
    ensures exists x :: x in UpsertAll(db, items).rows && x.id == id && exists u :: u in items && !Skipped(u) && RowIdentity(x) == ItemIdentity(u)
    decreases |items|
  {
    if items != [] {
      var u := items[0];
      var next := UpsertOne(db, u);
      DistinctHead(items);
      UpsertKeepsWellFormed(db, u);
      if id < next.next {
        assert !Skipped(u) && next.next == db.next + 1;
        var x := NewRow(u, db.next);
        assert x in next.rows && RowIdentity(x) == ItemIdentity(u);
        UnmentionedStays(next, items[1..], x);
        assert u in items;
      } else {
        NewIdsUsed(next, items[1..], id);
        var x :| x in UpsertAll(next, items[1..]).rows && x.id == id
                 && exists u :: u in items[1..] && !Skipped(u) && RowIdentity(x) == ItemIdentity(u);
        var v :| v in items[1..] && !Skipped(v) && RowIdentity(x) == ItemIdentity(v);
        assert v in items;
      }
    }
  }

  /** What a batch of distinct identities leaves of one identity it mentions. */
  lemma {:induction false} MentionedResult(db: Db, items: seq<Item>, u: Item)
    requires WellFormed(db) && DistinctItems(items) && u in items && !Skipped(u)
    requires Siblings(db.rows, ItemIdentity(u)) != []
    ensures var s := Survivor(Siblings(db.rows, ItemIdentity(u)), u.path);
            s.Some? && Siblings(UpsertAll(db, items).rows, ItemIdentity(u)) == [Put(s.value, u.values)]
    decreases |items|
  {
    var v := items[0];
    var next := UpsertOne(db, v);
    var who := ItemIdentity(u);
    DistinctHead(items);
    UpsertKeepsWellFormed(db, v);
    SurvivorIsSibling(Siblings(db.rows, who), u.path);
    if u == v {
      UpsertLeavesOne(db, u);
      LastIsItem(items[1..], who);
      BatchResult(next, items[1..], who);
    } else {
      if !Skipped(v) {
        assert u in items[1..] && ItemIdentity(v) != who;
      }
      OtherSiblings(db, v, who);
      MentionedResult(next, items[1..], u);
    }
  }

  // ----- What a batch removes -----

  ghost predicate Mentions(items: seq<Item>, who: Identity) {
    exists u :: u in items && !Skipped(u) && ItemIdentity(u) == who
  }

  /** A stored row disappears in the batch exactly when it is a second row of an identity the batch mentions. */
  lemma GoneIffSecond(db: Db, items: seq<Item>, r: Row, u: Item)
    requires WellFormed(db) && DistinctItems(items) && r in db.rows && u in items && !Skipped(u) && ItemIdentity(u) == RowIdentity(r)
    ensures Survivor(Siblings(db.rows, RowIdentity(r)), u.path).Some?
    ensures HasId(UpsertAll(db, items).rows, r.id) <==> Survivor(Siblings(db.rows, RowIdentity(r)), u.path).value == r
  {
    var who := RowIdentity(r);
    var after := UpsertAll(db, items);
    SiblingsMember(db.rows, who, r);
    SurvivorIsSibling(Siblings(db.rows, who), u.path);
    MentionedResult(db, items, u);
    var s := Survivor(Siblings(db.rows, who), u.path).value;
    SiblingsMember(db.rows, who, s);
    SiblingsMember(after.rows, who, Put(s, u.values));
    assert Put(s, u.values) in [Put(s, u.values)];
    if x :| x in after.rows && x.id == r.id {
      BatchIds(db, items, x);
      var y :| y in db.rows && y.id == x.id && RowIdentity(y) == RowIdentity(x);
      SameIdSameRow(db, y, r);
      SiblingsMember(after.rows, who, x);
      assert x == Put(s, u.values);
      SameIdSameRow(db, s, r);
    }
  }

  /** No identity is stored twice. */
  ghost predicate CaseUnique(rows: seq<Row>, items: seq<Item>) {
    forall u :: u in items && !Skipped(u) ==> |Siblings(rows, ItemIdentity(u))| <= 1
  }

  lemma UniqueKeepsAll(db: Db, items: seq<Item>, r: Row)
    requires WellFormed(db) && DistinctItems(items) && CaseUnique(db.rows, items) && r in db.rows
    ensures HasId(UpsertAll(db, items).rows, r.id)
  {
    if Mentions(items, RowIdentity(r)) {
      var u :| u in items && !Skipped(u) && ItemIdentity(u) == RowIdentity(r);
      GoneIffSecond(db, items, r, u);
      SiblingsMember(db.rows, RowIdentity(r), r);
      SurvivorIsSibling(Siblings(db.rows, RowIdentity(r)), u.path);
    } else {
      UnmentionedStays(db, items, r);
    }
  }

  lemma SecondIsLost(db: Db, items: seq<Item>) returns (r: Row)
    requires WellFormed(db) && DistinctItems(items) && !CaseUnique(db.rows, items)
    ensures r in db.rows && Mentions(items, RowIdentity(r)) && !HasId(UpsertAll(db, items).rows, r.id)
  {
    var u :| u in items && !Skipped(u) && |Siblings(db.rows, ItemIdentity(u))| > 1;
    var siblings := Siblings(db.rows, ItemIdentity(u));
    SurvivorIsSibling(siblings, u.path);
    var s := Survivor(siblings, u.path).value;
    SiblingsDistinct(db, ItemIdentity(u));
    r := if siblings[0] == s then siblings[1] else siblings[0];
    SiblingsMember(db.rows, ItemIdentity(u), r);
    GoneIffSecond(db, items, r, u);
  }

  // ----- The plan and the refresh -----

  /** The records came from discovery: no blanks around their kinds, and their kinds are among those found. */
  ghost predicate Discovered(records: seq<Record>, found: set<(string, bool)>) {
    forall r :: r in records ==> Strip(r.ext) == r.ext && Strip(r.group) == r.group && (Lower(r.group), r.isDwg) in found
  }

  lemma LowerTwice(s: string)
    ensures Lower(Lower(s)) == Lower(s) && (Lower(s) == "" <==> s == "")
  {
  }

  /** The rows after the whole refresh: upsert, then removal of the planned stale rows. */
  function Refreshed(db: Db, pn: string, rev: string, records: seq<Record>, found: set<(string, bool)>, onDisk: Row -> bool): seq<Row> {
    var after := UpsertAll(db, Items(pn, Some(rev), records));
    var planned := Ids(Filter(Stale(pn, rev, found, onDisk), db.rows));
    Without(after.rows, Ids(Removed(after.rows, pn, rev, found, onDisk, Some(planned))))
  }

  lemma MentionedIsFound(pn: string, rev: string, records: seq<Record>, found: set<(string, bool)>, onDisk: Row -> bool, r: Row)
    requires Discovered(records, found) && Mentions(Items(pn, Some(rev), records), RowIdentity(r))
    ensures !IsStale(r, pn, rev, found, onDisk)
  {
    var items := Items(pn, Some(rev), records);
    var u :| u in items && !Skipped(u) && ItemIdentity(u) == RowIdentity(r);
    var i :| 0 <= i < |items| && items[i] == u;
    assert records[i] in records && r.group == Lower(records[i].group) && r.isDwg == records[i].isDwg;
    LowerTwice(records[i].group);
  }

  lemma StaleMember(rows: seq<Row>, pn: string, rev: string, found: set<(string, bool)>, onDisk: Row -> bool, r: Row)
    ensures r in Filter(Stale(pn, rev, found, onDisk), rows) <==> r in rows && IsStale(r, pn, rev, found, onDisk)
  {
    FilterMember(Stale(pn, rev, found, onDisk), rows, r);
  }

  ghost predicate PlannedStale(db: Db, pn: string, rev: string, found: set<(string, bool)>, onDisk: Row -> bool, id: nat) {
    exists r :: r in db.rows && r.id == id && IsStale(r, pn, rev, found, onDisk)
  }

  lemma PlannedMember(db: Db, pn: string, rev: string, found: set<(string, bool)>, onDisk: Row -> bool, id: nat)
    ensures id in Ids(Filter(Stale(pn, rev, found, onDisk), db.rows)) <==> PlannedStale(db, pn, rev, found, onDisk, id)
  {
    var stale := Filter(Stale(pn, rev, found, onDisk), db.rows);
    if id in Ids(stale) {
      var r :| r in stale && r.id == id;
      StaleMember(db.rows, pn, rev, found, onDisk, r);
    }
    if r :| r in db.rows && r.id == id && IsStale(r, pn, rev, found, onDisk) {
      StaleMember(db.rows, pn, rev, found, onDisk, r);
    }
  }

  /** A row is there after the refresh when the upsert left it and the removal did not want it. */
  lemma RefreshedMember(db: Db, pn: string, rev: string, records: seq<Record>, found: set<(string, bool)>, onDisk: Row -> bool, x: Row)
    requires WellFormed(db) && Strip(pn) == pn
    ensures x in Refreshed(db, pn, rev, records, found, onDisk)
            <==> x in UpsertAll(db, Items(pn, Some(rev), records)).rows
                 && !(IsStale(x, pn, rev, found, onDisk) && PlannedStale(db, pn, rev, found, onDisk, x.id))
  {
    var items := Items(pn, Some(rev), records);
    var after := UpsertAll(db, items);
    var planned := Ids(Filter(Stale(pn, rev, found, onDisk), db.rows));
    var removed := Removed(after.rows, pn, rev, found, onDisk, Some(planned));
    BatchKeepsWellFormed(db, items);
    PlannedMember(db, pn, rev, found, onDisk, x.id);
    FilterMember(NotIn(Ids(removed)), after.rows, x);
    FilterMember(Doomed(pn, rev, found, onDisk, Some(planned)), after.rows, x);
    if x in after.rows && x.id in Ids(removed) {
      var y :| y in removed && y.id == x.id;
      FilterMember(Doomed(pn, rev, found, onDisk, Some(planned)), after.rows, y);
      SameIdSameRow(after, x, y);
    }
  }

  /** A stored row's id is gone after the refresh exactly when the row was planned as stale or the upsert dropped it. */
  lemma RefreshRemoves(db: Db, pn: string, rev: string, records: seq<Record>, found: set<(string, bool)>, onDisk: Row -> bool, r: Row)
    requires WellFormed(db) && r in db.rows && pn != "" && Strip(pn) == pn
    requires Discovered(records, found) && DistinctItems(Items(pn, Some(rev), records))
    ensures !HasId(Refreshed(db, pn, rev, records, found, onDisk), r.id)
            <==> IsStale(r, pn, rev, found, onDisk) || !HasId(UpsertAll(db, Items(pn, Some(rev), records)).rows, r.id)
  {
    var items := Items(pn, Some(rev), records);
    var after := UpsertAll(db, items);
    if IsStale(r, pn, rev, found, onDisk) {
      StaleGoes(db, pn, rev, records, found, onDisk, r);
    } else if x :| x in after.rows && x.id == r.id {
      RefreshedMember(db, pn, rev, records, found, onDisk, x);
      if y :| y in db.rows && y.id == x.id && IsStale(y, pn, rev, found, onDisk) {
        SameIdSameRow(db, y, r);
      }
    } else if x :| x in Refreshed(db, pn, rev, records, found, onDisk) && x.id == r.id {
      RefreshedMember(db, pn, rev, records, found, onDisk, x);
    }
  }

  lemma StaleGoes(db: Db, pn: string, rev: string, records: seq<Record>, found: set<(string, bool)>, onDisk: Row -> bool, r: Row)
    requires WellFormed(db) && r in db.rows && Strip(pn) == pn
    requires Discovered(records, found) && IsStale(r, pn, rev, found, onDisk)
    ensures !HasId(Refreshed(db, pn, rev, records, found, onDisk), r.id)
  {
    var items := Items(pn, Some(rev), records);
    var after := UpsertAll(db, items);
    if x :| x in Refreshed(db, pn, rev, records, found, onDisk) && x.id == r.id {
      RefreshedMember(db, pn, rev, records, found, onDisk, x);
      BatchKeepsWellFormed(db, items);
      if Mentions(items, RowIdentity(r)) {
        MentionedIsFound(pn, rev, records, found, onDisk, r);
      }
      UnmentionedStays(db, items, r);
      SameIdSameRow(after, x, r);
    }
  }

  /** The rows that go are exactly those planned as stale, if and only if no identity in the batch is stored twice. */
  lemma PlanCoversRemovals(db: Db, pn: string, rev: string, records: seq<Record>, found: set<(string, bool)>, onDisk: Row -> bool)
    requires WellFormed(db) && pn != "" && Strip(pn) == pn
    requires Discovered(records, found) && DistinctItems(Items(pn, Some(rev), records))
    ensures (forall r :: r in db.rows ==> (!HasId(Refreshed(db, pn, rev, records, found, onDisk), r.id)
                                          <==> r in Filter(Stale(pn, rev, found, onDisk), db.rows)))
            <==> CaseUnique(db.rows, Items(pn, Some(rev), records))
  {
    var items := Items(pn, Some(rev), records);
    forall r | r in db.rows
      ensures r in Filter(Stale(pn, rev, found, onDisk), db.rows) <==> IsStale(r, pn, rev, found, onDisk)
      ensures !HasId(Refreshed(db, pn, rev, records, found, onDisk), r.id)
              <==> IsStale(r, pn, rev, found, onDisk) || !HasId(UpsertAll(db, items).rows, r.id)
    {
      StaleMember(db.rows, pn, rev, found, onDisk, r);
      RefreshRemoves(db, pn, rev, records, found, onDisk, r);
    }
    if CaseUnique(db.rows, items) {
      forall r | r in db.rows ensures HasId(UpsertAll(db, items).rows, r.id) {
        UniqueKeepsAll(db, items, r);
      }
    } else {
      var r := SecondIsLost(db, items);
      MentionedIsFound(pn, rev, records, found, onDisk, r);
    }
  }

  lemma {:induction false} AddsAreNew(rows: seq<Row>, pn: string, rev: string, records: seq<Record>, found: set<(string, bool)>)
    requires pn != "" && Discovered(records, found)
    ensures |Filter(Adds(rows, pn, rev), records)| == |Filter(IsNew(rows), Items(pn, Some(rev), records))|
  {
    if records != [] {
      var items := Items(pn, Some(rev), records);
      assert items[1..] == Items(pn, Some(rev), records[1..]);
      assert records[0] in records;
      LowerTwice(records[0].ext);
      AddsAreNew(rows, pn, rev, records[1..], found);
    }
  }

  /** The new ids after the refresh are as many as the plan's additions. */
  lemma PlanCoversAdditions(db: Db, pn: string, rev: string, records: seq<Record>, found: set<(string, bool)>, onDisk: Row -> bool, id: nat)
    requires WellFormed(db) && pn != "" && Strip(pn) == pn
    requires Discovered(records, found) && DistinctItems(Items(pn, Some(rev), records))
    ensures HasId(Refreshed(db, pn, rev, records, found, onDisk), id) && !HasId(db.rows, id)
            <==> db.next <= id < db.next + |Filter(Adds(db.rows, pn, rev), records)|
  {
    var items := Items(pn, Some(rev), records);
    AddsAreNew(db.rows, pn, rev, records, found);
    NewIds(db, items);
    BatchKeepsWellFormed(db, items);
    if x :| x in Refreshed(db, pn, rev, records, found, onDisk) && x.id == id {
      RefreshedMember(db, pn, rev, records, found, onDisk, x);
      if x.id < db.next {
        BatchIds(db, items, x);
      }
    }
    if db.next <= id < UpsertAll(db, items).next {
      NewIdsUsed(db, items, id);
      var x :| x in UpsertAll(db, items).rows && x.id == id && exists u :: u in items && !Skipped(u) && RowIdentity(x) == ItemIdentity(u);
      RefreshedMember(db, pn, rev, records, found, onDisk, x);
    }
  }

  /** A stored row that is still there but changed is one that a planned replacement names. */
  lemma PlanCoversChanges(db: Db, pn: string, rev: string, records: seq<Record>, found: set<(string, bool)>, onDisk: Row -> bool, r: Row)
    requires WellFormed(db) && pn != "" && Strip(pn) == pn && r in db.rows
    requires Discovered(records, found) && DistinctItems(Items(pn, Some(rev), records))
    requires HasId(Refreshed(db, pn, rev, records, found, onDisk), r.id) && r !in Refreshed(db, pn, rev, records, found, onDisk)
    ensures exists rec :: rec in Filter(Replaces(db.rows, pn, rev), records) && PlanIdentity(pn, rev, rec) == RowIdentity(r)
  {
    var items := Items(pn, Some(rev), records);
    RefreshRemoves(db, pn, rev, records, found, onDisk, r);
    RefreshedMember(db, pn, rev, records, found, onDisk, r);
    if !Mentions(items, RowIdentity(r)) {
      UnmentionedStays(db, items, r);
    }
    var u :| u in items && !Skipped(u) && ItemIdentity(u) == RowIdentity(r);
    var i :| 0 <= i < |items| && items[i] == u;
    ReplacedRecord(db, pn, rev, records, found, r, i);
  }

  lemma ReplacedRecord(db: Db, pn: string, rev: string, records: seq<Record>, found: set<(string, bool)>, r: Row, i: nat)
    requires r in db.rows && pn != "" && Discovered(records, found) && i < |records|
    requires var u := ToItem(pn, Some(rev), records[i]); !Skipped(u) && ItemIdentity(u) == RowIdentity(r)
    ensures records[i] in Filter(Replaces(db.rows, pn, rev), records) && PlanIdentity(pn, rev, records[i]) == RowIdentity(r)
  {
    var rec := records[i];
    assert rec in records;
    LowerTwice(rec.ext);
    SiblingsMember(db.rows, RowIdentity(r), r);
    FilterMember(Replaces(db.rows, pn, rev), records, rec);
  }
}
