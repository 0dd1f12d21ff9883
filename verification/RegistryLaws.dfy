/** What upserting file records guarantees (app/services/filescan.py). */
module RegistryLaws {
  import opened Wrappers
  import opened AttrKeys
  import opened Filters
  import opened FileRegistry

  // ----- Rows of other identities -----

  lemma {:induction false} FilterWritten(p: Row -> bool, rows: seq<Row>, id: nat, values: map<Field, Val>)
    requires forall r :: r in rows && r.id == id ==> !p(r) && !p(Put(r, values))
    ensures Filter(p, Written(rows, id, values)) == Filter(p, rows)
  {
    if rows != [] {
      assert rows[0] in rows;
      assert Written(rows, id, values)[1..] == Written(rows[1..], id, values);
      FilterWritten(p, rows[1..], id, values);
    }
  }

  lemma SameIdSameRow(db: Db, a: Row, b: Row)
    requires WellFormed(db) && a in db.rows && b in db.rows && a.id == b.id
    ensures a == b
  {
  }

  lemma SurvivorIsSibling(siblings: seq<Row>, path: string)
    ensures Survivor(siblings, path).None? <==> siblings == []
    ensures Survivor(siblings, path).Some? ==> Survivor(siblings, path).value in siblings
  {
    HoldingMember(siblings, path);
  }

  lemma {:induction false} HoldingMember(rows: seq<Row>, path: string)
    ensures var r := FirstHolding(rows, path);
            && (r.Some? ==> r.value in rows && HoldsPath(r.value, path))
            && (r.None? ==> forall x :: x in rows ==> !HoldsPath(x, path))
  {
    if rows != [] {
      HoldingMember(rows[1..], path);
    }
  }

  lemma SiblingsMember(rows: seq<Row>, who: Identity, r: Row)
    ensures r in Siblings(rows, who) <==> r in rows && RowIdentity(r) == who
  {
    FilterMember(Of(who), rows, r);
  }

  /** Rows selected by any condition that leaves this identity out are as before, in the same order. */
  lemma UpsertLeavesOthers(db: Db, u: Item, p: Row -> bool)
    requires WellFormed(db) && forall r {:trigger RowIdentity(r)} :: RowIdentity(r) == ItemIdentity(u) ==> !p(r)
    ensures Filter(p, UpsertOne(db, u).rows) == Filter(p, db.rows)
  {
    var who := ItemIdentity(u);
    var siblings := Siblings(db.rows, who);
    SurvivorIsSibling(siblings, u.path);
    if !Skipped(u) {
      match Survivor(siblings, u.path)
      case None =>
        assert RowIdentity(NewRow(u, db.next)) == who;
        FilterJoin(p, db.rows, [NewRow(u, db.next)]);
        FilterOne(p, NewRow(u, db.next));
      case Some(r) =>
        var dead := Ids(siblings) - {r.id};
        var left := Without(db.rows, dead);
        SiblingsMember(db.rows, who, r);
        forall x | x in left && x.id == r.id ensures !p(x) && !p(Put(x, u.values)) {
          FilterMember(NotIn(dead), db.rows, x);
          SameIdSameRow(db, x, r);
          assert RowIdentity(Put(x, u.values)) == who;
        }
        FilterWritten(p, left, r.id, u.values);
        forall x | x in db.rows ensures p(x) == (p(x) && NotIn(dead)(x)) {
          if x.id in dead {
            var y :| y in siblings && y.id == x.id;
            SiblingsMember(db.rows, who, y);
            SameIdSameRow(db, x, y);
          }
        }
        FilterTwice(p, NotIn(dead), p, db.rows);
    }
  }

  // ----- The rows of the identity itself -----

  lemma {:induction false} WrittenSiblings(rows: seq<Row>, who: Identity, id: nat, values: map<Field, Val>)
    ensures Siblings(Written(rows, id, values), who) == Written(Siblings(rows, who), id, values)
  {
    if rows != [] {
      assert Written(rows, id, values)[1..] == Written(rows[1..], id, values);
      WrittenSiblings(rows[1..], who, id, values);
    }
  }

  lemma {:induction false} OnlyOneLeft(rows: seq<Row>, r: Row, dead: set<nat>)
    requires forall i, j :: 0 <= i < j < |rows| ==> rows[i].id != rows[j].id
    requires r in rows && forall x :: x in rows ==> (x.id in dead <==> x.id != r.id)
    ensures Without(rows, dead) == [r]
  {
    assert rows[0] in rows;
    if rows[0] == r {
      forall x | x in rows[1..] ensures x in rows && x.id != r.id {
        var i :| 0 <= i < |rows[1..]| && rows[1..][i] == x;
        assert rows[i + 1] == x;
      }
      FilterNone(NotIn(dead), rows[1..]);
    } else {
      assert r in rows[1..];
      var i :| 0 <= i < |rows[1..]| && rows[1..][i] == r;
      assert rows[i + 1] == r;
      OnlyOneLeft(rows[1..], r, dead);
    }
  }

  function IdOf(): Row -> nat {
    (r: Row) => r.id
  }

  lemma SiblingsDistinct(db: Db, who: Identity)
    requires WellFormed(db)
    ensures var s := Siblings(db.rows, who); forall i, j :: 0 <= i < j < |s| ==> s[i].id != s[j].id
  {
    var id := IdOf();
    assert DistinctBy(id, db.rows) by {
      forall i, j | 0 <= i < j < |db.rows| ensures id(db.rows[i]) != id(db.rows[j]) {
      }
    }
    FilterDistinct(Of(who), id, db.rows);
    var s := Siblings(db.rows, who);
    forall i, j | 0 <= i < j < |s| ensures s[i].id != s[j].id {
      assert id(s[i]) != id(s[j]);
    }
  }

  /** After an upsert exactly one row has the record's identity: the survivor with the new values written over it, else a
      new row. */
  lemma UpsertLeavesOne(db: Db, u: Item)
    requires WellFormed(db) && !Skipped(u)
    ensures Siblings(UpsertOne(db, u).rows, ItemIdentity(u))
            == match Survivor(Siblings(db.rows, ItemIdentity(u)), u.path)
               case None => [NewRow(u, db.next)]
               case Some(r) => [Put(r, u.values)]
  {
    var who := ItemIdentity(u);
    var siblings := Siblings(db.rows, who);
    SurvivorIsSibling(siblings, u.path);
    match Survivor(siblings, u.path)
    case None =>
      FilterJoin(Of(who), db.rows, [NewRow(u, db.next)]);
      FilterOne(Of(who), NewRow(u, db.next));
    case Some(r) =>
      var dead := Ids(siblings) - {r.id};
      SiblingsDistinct(db, who);
      OnlyOneLeft(siblings, r, dead);
      FilterSwap(Of(who), NotIn(dead), db.rows);
      WrittenSiblings(Without(db.rows, dead), who, r.id, u.values);
      assert Written([r], r.id, u.values) == [Put(r, u.values)];
  }

  // ----- The same, read off the rows and the record -----

  /** The row is of the record's part, whatever the letter case, and of its kind of file. */
  ghost predicate Matches(r: Row, u: Item) {
    Lower(r.pn) == Lower(u.pn) && Lower(r.rev) == Lower(u.rev) && r.group == u.group && r.ext == u.ext && r.isDwg == u.isDwg
  }

  ghost predicate AtPath(r: Row, path: string) {
    Path in r.fields && r.fields[Path] == Text(path)
  }

  /** The i-th row is the one kept: the first match at the record's path, or the first match when none is there. */
  ghost predicate IsKept(rows: seq<Row>, u: Item, i: int) {
    && 0 <= i < |rows| && Matches(rows[i], u)
    && (AtPath(rows[i], u.path) ==> forall j :: 0 <= j < i && Matches(rows[j], u) ==> !AtPath(rows[j], u.path))
    && (!AtPath(rows[i], u.path) ==> forall j :: 0 <= j < |rows| && Matches(rows[j], u) ==> i <= j && !AtPath(rows[j], u.path))
  }

  /** A stored value: times without what is below a millisecond. */
  ghost predicate IsStored(v: Val, given: Val) {
    if given.Time? then v == Time(given.micros - given.micros % 1000) else v == given
  }

  /** The row reads what the record says, and for the rest as `other` has it. */
  ghost predicate ReadsOver(r: Row, u: Item, other: map<Field, Val>) {
    forall f ::
      if f in u.values then f in r.fields && IsStored(r.fields[f], u.values[f])
      else (f in r.fields <==> f in other) && (f in other ==> r.fields[f] == other[f])
  }

  ghost predicate IsRecorded(before: Db, after: Db, u: Item, r: Row) {
    if forall x :: x in before.rows ==> !Matches(x, u) then
      && r.id == before.next && after.next == before.next + 1
      && (r.pn, r.rev, r.group, r.ext, r.isDwg) == (u.pn, u.rev, u.group, u.ext, u.isDwg)
      && ReadsOver(r, u, map[Drawing := Flag(u.isDwg)])
    else
      && after.next == before.next
      && exists i :: IsKept(before.rows, u, i) && r == before.rows[i].(fields := r.fields) && ReadsOver(r, u, before.rows[i].fields)
  }

  /** A record without a part number or an extension changes nothing. Any other leaves one row of its part and kind: the
      row kept with the record's values over its own, or a new one; and all rows of other parts and kinds. */
  lemma UpsertRecords(db: Db, u: Item) returns (r: Row)
    requires WellFormed(db)
    ensures u.pn == "" || u.ext == "" ==> UpsertOne(db, u) == db
    ensures u.pn != "" && u.ext != "" ==>
              && IsRecorded(db, UpsertOne(db, u), u, r)
              && forall x :: x in UpsertOne(db, u).rows <==> x == r || (x in db.rows && !Matches(x, u))
  {
    var who := ItemIdentity(u);
    var siblings := Siblings(db.rows, who);
    var after := UpsertOne(db, u);
    r := NewRow(u, db.next);
    if u.pn != "" && u.ext != "" {
      UpsertLeavesOne(db, u);
      SurvivorPlace(db.rows, u);
      forall x | x in db.rows ensures x in siblings <==> Matches(x, u) {
        SiblingsMember(db.rows, who, x);
      }
      if Survivor(siblings, u.path).Some? {
        var k := Survivor(siblings, u.path).value;
        SurvivorIsSibling(siblings, u.path);
        SiblingsMember(db.rows, who, k);
        r := Put(k, u.values);
        PutReadsOver(k, u);
      } else {
        NewReadsOver(u, db.next);
      }
      forall x ensures x in after.rows <==> x == r || (x in db.rows && !Matches(x, u)) {
        if !Matches(x, u) {
          OthersMember(db, u, x);
        }
        SiblingsMember(after.rows, who, x);
        assert x in Siblings(after.rows, who) <==> x == r;
      }
    }
  }

  lemma PutReadsOver(k: Row, u: Item)
    ensures ReadsOver(Put(k, u.values), u, k.fields)
  {
  }

  lemma NewReadsOver(u: Item, id: nat)
    ensures ReadsOver(NewRow(u, id), u, map[Drawing := Flag(u.isDwg)])
  {
  }

  lemma OthersMember(db: Db, u: Item, x: Row)
    requires WellFormed(db) && !Matches(x, u)
    ensures x in UpsertOne(db, u).rows <==> x in db.rows
  {
    var other := (r: Row) => RowIdentity(r) != ItemIdentity(u);
    UpsertLeavesOthers(db, u, other);
    FilterMember(other, UpsertOne(db, u).rows, x);
    FilterMember(other, db.rows, x);
  }

  lemma {:induction false} HoldingPlace(rows: seq<Row>, u: Item)
    ensures match FirstHolding(Siblings(rows, ItemIdentity(u)), u.path)
            case None => forall j :: 0 <= j < |rows| && Matches(rows[j], u) ==> !AtPath(rows[j], u.path)
            case Some(r) => exists i :: 0 <= i < |rows| && rows[i] == r && Matches(r, u) && AtPath(r, u.path)
                                        && forall j :: 0 <= j < i && Matches(rows[j], u) ==> !AtPath(rows[j], u.path)
  {
    if rows != [] {
      HoldingPlace(rows[1..], u);
      var siblings := Siblings(rows, ItemIdentity(u));
      var rest := Siblings(rows[1..], ItemIdentity(u));
      assert siblings == if Matches(rows[0], u) then [rows[0]] + rest else rest;
      assert ([rows[0]] + rest)[1..] == rest;
      var r := FirstHolding(rest, u.path);
      if Matches(rows[0], u) && AtPath(rows[0], u.path) {
        assert FirstHolding(siblings, u.path) == Some(rows[0]);
      } else if r.Some? {
        var i :| 0 <= i < |rows| - 1 && rows[1..][i] == r.value
                 && forall j :: 0 <= j < i && Matches(rows[1..][j], u) ==> !AtPath(rows[1..][j], u.path);
        Shifted(rows, u, i);
        assert rows[i + 1] == r.value;
      } else {
        forall j | 0 <= j < |rows| && Matches(rows[j], u) ensures !AtPath(rows[j], u.path) {
          if j > 0 {
            assert rows[1..][j - 1] == rows[j];
          }
        }
      }
    }
  }

  lemma Shifted(rows: seq<Row>, u: Item, i: nat)
    requires i < |rows| - 1 && !(Matches(rows[0], u) && AtPath(rows[0], u.path))
    requires forall j :: 0 <= j < i && Matches(rows[1..][j], u) ==> !AtPath(rows[1..][j], u.path)
    ensures forall j :: 0 <= j < i + 1 && Matches(rows[j], u) ==> !AtPath(rows[j], u.path)
  {
    forall j | 0 <= j < i + 1 && Matches(rows[j], u) ensures !AtPath(rows[j], u.path) {
      if j > 0 {
        assert rows[1..][j - 1] == rows[j];
      }
    }
  }

  lemma {:induction false} FirstPlace(rows: seq<Row>, u: Item)
    ensures var s := Siblings(rows, ItemIdentity(u));
            if s == [] then forall j :: 0 <= j < |rows| ==> !Matches(rows[j], u)
            else exists i :: 0 <= i < |rows| && rows[i] == s[0] && Matches(s[0], u)
                             && forall j :: 0 <= j < i ==> !Matches(rows[j], u)
  {
    if rows != [] {
      FirstPlace(rows[1..], u);
      var s := Siblings(rows[1..], ItemIdentity(u));
      if Matches(rows[0], u) {
        assert Siblings(rows, ItemIdentity(u)) == [rows[0]] + s;
      } else {
        assert Siblings(rows, ItemIdentity(u)) == s;
        if s != [] {
          var i :| 0 <= i < |rows| - 1 && rows[1..][i] == s[0] && forall j :: 0 <= j < i ==> !Matches(rows[1..][j], u);
          assert rows[i + 1] == s[0];
          assert forall j :: 1 <= j < i + 1 ==> rows[j] == rows[1..][j - 1];
        } else {
          assert forall j :: 1 <= j < |rows| ==> rows[j] == rows[1..][j - 1];
        }
      }
    }
  }

  lemma SurvivorPlace(rows: seq<Row>, u: Item)
    ensures match Survivor(Siblings(rows, ItemIdentity(u)), u.path)
            case None => forall x :: x in rows ==> !Matches(x, u)
            case Some(r) => exists i :: IsKept(rows, u, i) && rows[i] == r
  {
    var siblings := Siblings(rows, ItemIdentity(u));
    HoldingPlace(rows, u);
    FirstPlace(rows, u);
    if FirstHolding(siblings, u.path).Some? {
      var i :| 0 <= i < |rows| && rows[i] == FirstHolding(siblings, u.path).value && AtPath(rows[i], u.path)
               && forall j :: 0 <= j < i && Matches(rows[j], u) ==> !AtPath(rows[j], u.path);
      assert IsKept(rows, u, i);
    } else if siblings != [] {
      var i :| 0 <= i < |rows| && rows[i] == siblings[0] && forall j :: 0 <= j < i ==> !Matches(rows[j], u);
      assert IsKept(rows, u, i);
    }
  }

  lemma {:induction false} FilterSwap(p: Row -> bool, q: Row -> bool, rows: seq<Row>)
    ensures Filter(p, Filter(q, rows)) == Filter(q, Filter(p, rows))
  {
    var both := (r: Row) => p(r) && q(r);
    FilterTwice(p, q, both, rows);
    FilterTwice(q, p, both, rows);
  }

  /** The report of one record: a new row with all it says, or the fields in which the kept row read otherwise, if any. */
  ghost predicate IsReported(db: Db, u: Item, report: seq<Change>) {
    if u.pn == "" || u.ext == "" then report == []
    else if forall x :: x in db.rows ==> !Matches(x, u) then
      |report| == 1 && IsChange(report[0], u, (u.pn, u.rev), true, u.values.Keys)
    else
      exists i :: IsKept(db.rows, u, i) && IsRewritten(db.rows[i], u, report)
  }

  ghost predicate IsRewritten(r: Row, u: Item, report: seq<Change>) {
    var fields := set f | f in u.values && !ReadsAs(r, f, u.values[f]);
    if fields == {} then report == [] else |report| == 1 && IsChange(report[0], u, (r.pn, r.rev), false, fields)
  }

  /** A field that is not set reads as nothing. */
  ghost predicate ReadsAs(r: Row, f: Field, v: Val) {
    if f in r.fields then r.fields[f] == v else v == Nothing
  }

  ghost predicate IsChange(c: Change, u: Item, spelling: (string, string), added: bool, fields: set<Field>) {
    && c.spelling == spelling && c.added == added && c.fields == fields
    && c.who == Identity(Lower(u.pn), Lower(u.rev), u.group, u.ext, u.isDwg)
    && c.relPath == if RelPath in u.values then u.values[RelPath] else Text("")
  }

  lemma UpsertReports(db: Db, u: Item)
    ensures IsReported(db, u, Report(db, u))
  {
    SurvivorPlace(db.rows, u);
    match Survivor(Siblings(db.rows, ItemIdentity(u)), u.path)
    case None =>
    case Some(r) =>
      var i :| IsKept(db.rows, u, i) && db.rows[i] == r;
      assert r in db.rows;
      DifferingAre(r, u);
      assert u.pn != "" && u.ext != "" ==> IsRewritten(r, u, Report(db, u));
  }

  lemma DifferingAre(r: Row, u: Item)
    ensures Differing(r, u.values) == set f | f in u.values && !ReadsAs(r, f, u.values[f])
  {
  }

  /** An upsert that reports nothing about a record leaves the one row of its identity reading as the survivor did. */
  lemma UnreportedKeepsRow(db: Db, u: Item, f: Field)
    requires WellFormed(db) && !Skipped(u) && Report(db, u) == []
    requires forall r, g :: r in db.rows && g in r.fields ==> Kept(r.fields[g]) == r.fields[g]
    ensures var after := Siblings(UpsertOne(db, u).rows, ItemIdentity(u));
            var before := Survivor(Siblings(db.rows, ItemIdentity(u)), u.path);
            before.Some? && |after| == 1 && after[0].id == before.value.id && Read(after[0], f) == Read(before.value, f)
  {
    var siblings := Siblings(db.rows, ItemIdentity(u));
    UpsertLeavesOne(db, u);
    SurvivorIsSibling(siblings, u.path);
    var r := Survivor(siblings, u.path).value;
    SiblingsMember(db.rows, ItemIdentity(u), r);
    SamePutReadsSame(r, u.values, f);
  }

  lemma SamePutReadsSame(r: Row, values: map<Field, Val>, f: Field)
    requires Differing(r, values) == {} && forall g :: g in r.fields ==> Kept(r.fields[g]) == r.fields[g]
    ensures Read(Put(r, values), f) == Read(r, f)
  {
    if f in values {
      assert f !in Differing(r, values);
    }
  }

  lemma UpsertKeepsWellFormed(db: Db, u: Item)
    requires WellFormed(db)
    ensures WellFormed(UpsertOne(db, u)) && db.next <= UpsertOne(db, u).next
  {
    var siblings := Siblings(db.rows, ItemIdentity(u));
    if !Skipped(u) && Survivor(siblings, u.path).Some? {
      var r := Survivor(siblings, u.path).value;
      WithoutKeepsIds(db, Ids(siblings) - {r.id});
      WrittenKeepsIds(Without(db.rows, Ids(siblings) - {r.id}), r.id, u.values, db.next);
    } else if !Skipped(u) {
      forall x | x in UpsertOne(db, u).rows ensures x.id < db.next + 1 {
      }
    }
  }

  lemma WithoutKeepsIds(db: Db, dead: set<nat>)
    requires WellFormed(db)
    ensures WellFormed(Db(Without(db.rows, dead), db.next))
  {
    var id := IdOf();
    var left := Without(db.rows, dead);
    assert DistinctBy(id, db.rows) by {
      forall i, j | 0 <= i < j < |db.rows| ensures id(db.rows[i]) != id(db.rows[j]) {
      }
    }
    FilterDistinct(NotIn(dead), id, db.rows);
    forall i, j | 0 <= i < j < |left| ensures left[i].id != left[j].id {
      assert id(left[i]) != id(left[j]);
    }
    forall x | x in left ensures x.id < db.next {
      FilterMember(NotIn(dead), db.rows, x);
    }
  }

  lemma WrittenKeepsIds(rows: seq<Row>, id: nat, values: map<Field, Val>, next: nat)
    requires WellFormed(Db(rows, next))
    ensures WellFormed(Db(Written(rows, id, values), next))
  {
    var after := Written(rows, id, values);
    forall i | 0 <= i < |after| ensures after[i].id == rows[i].id < next {
      assert rows[i] in rows;
    }
  }

  // ----- A whole batch -----

  lemma {:induction false} UpsertAllLast(db: Db, items: seq<Item>)
    requires items != []
    ensures UpsertAll(db, items) == UpsertOne(UpsertAll(db, items[..|items| - 1]), items[|items| - 1])
    decreases |items|
  {
    if |items| == 1 {
      assert items[..0] == [] && items[1..] == [];
    } else {
      var front := items[..|items| - 1];
      UpsertAllLast(UpsertOne(db, items[0]), items[1..]);
      assert items[1..][..|items| - 2] == front[1..];
    }
  }

  lemma {:induction false} BatchKeepsWellFormed(db: Db, items: seq<Item>)
    requires WellFormed(db)
    ensures WellFormed(UpsertAll(db, items)) && db.next <= UpsertAll(db, items).next
    decreases |items|
  {
    if items != [] {
      UpsertKeepsWellFormed(db, items[0]);
      BatchKeepsWellFormed(UpsertOne(db, items[0]), items[1..]);
    }
  }

  /** The batch touches no row whose identity is not in it. */
  lemma {:induction false} BatchLeavesOthers(db: Db, items: seq<Item>, p: Row -> bool)
    requires WellFormed(db)
    requires forall r, u {:trigger RowIdentity(r), ItemIdentity(u)} :: u in items && RowIdentity(r) == ItemIdentity(u) ==> !p(r)
    ensures Filter(p, UpsertAll(db, items).rows) == Filter(p, db.rows)
    decreases |items|
  {
    if items != [] {
      var u := items[0];
      assert u in items;
      UpsertLeavesOthers(db, u, p);
      UpsertKeepsWellFormed(db, u);
      BatchLeavesOthers(UpsertOne(db, u), items[1..], p);
    }
  }

  /** The last record of the batch with this identity. */
  function LastOf(items: seq<Item>, who: Identity): Option<Item> {
    if items == [] then None
    else
      var u := items[|items| - 1];
      if !Skipped(u) && ItemIdentity(u) == who then Some(u) else LastOf(items[..|items| - 1], who)
  }

  /** The row holds everything the record says, as the database keeps it. */
  predicate Carries(r: Row, u: Item) {
    forall f :: f in u.values ==> f in r.fields && r.fields[f] == Kept(u.values[f])
  }

  lemma {:induction false} BatchResult(db: Db, items: seq<Item>, who: Identity)
    requires WellFormed(db)
    ensures var after := Siblings(UpsertAll(db, items).rows, who);
            match LastOf(items, who)
            case None => after == Siblings(db.rows, who)
            case Some(u) => |after| == 1 && RowIdentity(after[0]) == who && Carries(after[0], u)
  {
    if items != [] {
      var n := |items| - 1;
      var before := UpsertAll(db, items[..n]);
      BatchResult(db, items[..n], who);
      BatchKeepsWellFormed(db, items[..n]);
      UpsertAllLast(db, items);
      var u := items[n];
      if Skipped(u) {
      } else if ItemIdentity(u) == who {
        UpsertLeavesOne(before, u);
        SiblingsMember(UpsertAll(db, items).rows, who, Siblings(UpsertAll(db, items).rows, who)[0]);
      } else {
        UpsertLeavesOthers(before, u, Of(who));
      }
    }
  }

  /** The path has forward slashes only, and none in front. */
  ghost predicate IsRelative(given: string, rel: string, cut: nat) {
    && cut <= |given| && |rel| == |given| - cut && (rel != "" ==> rel[0] != '/')
    && (forall i :: 0 <= i < cut ==> given[i] == '/' || given[i] == '\\')
    && (forall i :: 0 <= i < |rel| ==> rel[i] == if given[cut + i] == '\\' then '/' else given[cut + i])
  }

  /** A field of the record is what the first source for it that is not blank says. */
  ghost predicate IsFirstSet(value: string, sources: seq<string>) {
    if forall i :: 0 <= i < |sources| ==> sources[i] == "" then value == ""
    else exists i :: 0 <= i < |sources| && value == sources[i] != "" && forall j :: 0 <= j < i ==> sources[j] == ""
  }

  /** What a record says once its defaults are filled in. Its path is the absolute one, or the relative one. */
  lemma ItemSays(pn: string, rev: Option<string>, r: Record) returns (rel: string, cut: nat)
    ensures IsRelative(r.relPath, rel, cut)
    ensures var u := ToItem(pn, rev, r);
            && IsFirstSet(u.pn, [pn, r.pn, r.partNumber]) && (rev.None? ==> IsFirstSet(u.rev, [r.rev, r.revision]))
            && (rev.Some? ==> u.rev == rev.value) && u.group == Lower(r.group) && u.ext == Lower(r.ext) && u.isDwg == r.isDwg
            && IsFirstSet(u.path, [Strip(r.absPath), rel]) && HasValues(u, r, rel)
  {
    rel := NormRel(r);
    var slashes := TrimLeftMeaning(ForwardSlashes(r.relPath), FileRegistry.IsSlash);
    cut := |slashes|;
    CutSlashes(r.relPath, slashes, rel);
    FirstSet([Strip(r.absPath), rel]);
    FirstSet([pn, r.pn, r.partNumber]);
    FirstSet([r.rev, r.revision]);
    ValuesSay(pn, rev, r);
  }

  /** The fields set: both paths where there are any, and the record's other ones as given. */
  ghost predicate HasValues(u: Item, r: Record, rel: string) {
    && (RelPath in u.values <==> rel != "") && (rel != "" ==> u.values[RelPath] == Text(rel))
    && (Path in u.values <==> u.path != "") && (u.path != "" ==> u.values[Path] == Text(u.path))
    && forall f :: f != RelPath && f != Path ==>
         (f in u.values <==> f in r.extras) && (f in u.values ==> u.values[f] == r.extras[f])
  }

  lemma ValuesSay(pn: string, rev: Option<string>, r: Record)
    ensures HasValues(ToItem(pn, rev, r), r, NormRel(r))
  {
  }

  lemma CutSlashes(given: string, slashes: string, rel: string)
    requires ForwardSlashes(given) == slashes + rel && forall i :: 0 <= i < |slashes| ==> slashes[i] == '/'
    requires rel != "" ==> rel[0] != '/'
    ensures IsRelative(given, rel, |slashes|)
  {
    forall i | 0 <= i < |given| ensures (slashes + rel)[i] == if given[i] == '\\' then '/' else given[i] {
    }
  }

  lemma FirstSet(sources: seq<string>)
    requires |sources| == 2 || |sources| == 3
    ensures IsFirstSet(if |sources| == 2 then FirstNonBlank(sources[0], sources[1])
                       else FirstNonBlank(sources[0], FirstNonBlank(sources[1], sources[2])), sources)
  {
  }

  lemma ItemsHoldTheirPath(pn: string, rev: Option<string>, r: Record)
    ensures var u := ToItem(pn, rev, r); u.path != "" ==> Path in u.values && u.values[Path] == Text(u.path)
  {
  }

  lemma {:induction false} LastIsItem(items: seq<Item>, who: Identity)
    ensures match LastOf(items, who)
            case Some(u) => u in items && !Skipped(u) && ItemIdentity(u) == who
            case None => forall u :: u in items && !Skipped(u) ==> ItemIdentity(u) != who
  {
    if items != [] {
      var n := |items| - 1;
      LastIsItem(items[..n], who);
      assert items == items[..n] + [items[n]];
    }
  }

  /** For every identity in a batch of records there is exactly one row afterwards, holding the path that came in last
      for it. */
  lemma OneRowPerIdentity(db: Db, pn: string, rev: Option<string>, records: seq<Record>, u: Item)
    requires WellFormed(db) && u in Items(pn, rev, records) && !Skipped(u)
    ensures var items := Items(pn, rev, records);
            var after := Siblings(UpsertAll(db, items).rows, ItemIdentity(u));
            && LastOf(items, ItemIdentity(u)).Some? && |after| == 1
            && var last := LastOf(items, ItemIdentity(u)).value;
               Carries(after[0], last) && (last.path != "" ==> HoldsPath(after[0], last.path))
  {
    var items := Items(pn, rev, records);
    var who := ItemIdentity(u);
    BatchResult(db, items, who);
    LastIsItem(items, who);
    var last := LastOf(items, who).value;
    var i :| 0 <= i < |items| && items[i] == last;
    ItemsHoldTheirPath(pn, rev, records[i]);
  }

  // ----- Running a batch again -----

  ghost predicate DistinctItems(items: seq<Item>) {
    forall i, j :: 0 <= i < j < |items| && !Skipped(items[i]) && !Skipped(items[j]) ==> ItemIdentity(items[i]) != ItemIdentity(items[j])
  }

  ghost predicate Settled(db: Db, u: Item) {
    !Skipped(u) ==> var s := Siblings(db.rows, ItemIdentity(u)); |s| == 1 && Carries(s[0], u)
  }

  /** All times in the record are whole milliseconds. */
  predicate WholeMillis(u: Item) {
    forall f :: f in u.values && u.values[f].Time? ==> u.values[f].micros % 1000 == 0
  }

  lemma {:induction false} WrittenSame(rows: seq<Row>, id: nat, values: map<Field, Val>)
    requires forall r :: r in rows && r.id == id ==> Put(r, values) == r
    ensures Written(rows, id, values) == rows
  {
    forall i | 0 <= i < |rows| ensures Written(rows, id, values)[i] == rows[i] {
      assert rows[i] in rows;
    }
  }

  lemma CarriedIsKept(r: Row, u: Item)
    requires Carries(r, u)
    ensures Put(r, u.values) == r
    ensures Differing(r, u.values) == {} <==> WholeMillis(u)
  {
    assert r.fields + KeptValues(u.values) == r.fields;
    forall f | f in u.values ensures f in Differing(r, u.values) <==> u.values[f].Time? && u.values[f].micros % 1000 != 0 {
    }
    if WholeMillis(u) {
      assert Differing(r, u.values) == {};
    } else {
      var f :| f in u.values && u.values[f].Time? && u.values[f].micros % 1000 != 0;
      assert f in Differing(r, u.values);
    }
  }

  lemma SettledStays(db: Db, u: Item)
    requires WellFormed(db) && Settled(db, u)
    ensures UpsertOne(db, u) == db
    ensures Report(db, u) == [] <==> Skipped(u) || WholeMillis(u)
  {
    if !Skipped(u) {
      var who := ItemIdentity(u);
      var siblings := Siblings(db.rows, who);
      var r := siblings[0];
      SiblingsMember(db.rows, who, r);
      assert siblings == [r] && siblings[1..] == [];
      assert FirstHolding(siblings[1..], u.path) == None;
      assert Survivor(siblings, u.path) == Some(r);
      assert Ids(siblings) - {r.id} == {};
      WithoutNone(db.rows);
      CarriedIsKept(r, u);
      WrittenSame(db.rows, r.id, u.values);
    }
  }

  lemma {:induction false} SettledBatchStays(db: Db, items: seq<Item>)
    requires WellFormed(db) && forall u :: u in items ==> Settled(db, u)
    ensures UpsertAll(db, items) == db
    ensures ReportAll(db, items) == [] <==> forall u :: u in items ==> Skipped(u) || WholeMillis(u)
    decreases |items|
  {
    if items != [] {
      assert items[0] in items;
      SettledStays(db, items[0]);
      SettledBatchStays(db, items[1..]);
      assert forall u :: u in items <==> u == items[0] || u in items[1..];
    }
  }

  /** In a batch of distinct identities the last record of an identity is the only one. */
  lemma {:induction false} OnlyIsLast(items: seq<Item>, k: nat)
    requires DistinctItems(items) && k < |items| && !Skipped(items[k])
    ensures LastOf(items, ItemIdentity(items[k])) == Some(items[k])
  {
    var n := |items| - 1;
    if k < n {
      assert DistinctItems(items[..n]);
      OnlyIsLast(items[..n], k);
    }
  }

  lemma BatchSettles(db: Db, items: seq<Item>, u: Item)
    requires WellFormed(db) && DistinctItems(items) && u in items
    ensures Settled(UpsertAll(db, items), u)
  {
    if !Skipped(u) {
      var k :| 0 <= k < |items| && items[k] == u;
      OnlyIsLast(items, k);
      BatchResult(db, items, ItemIdentity(u));
    }
  }

  /** Running a batch of distinct identities again changes no row; it reports no change exactly when every time in it is
      whole milliseconds, since the database keeps no finer ones. */
  lemma RerunChangesNothing(db: Db, items: seq<Item>)
    requires WellFormed(db) && DistinctItems(items)
    ensures var after := UpsertAll(db, items);
            && UpsertAll(after, items) == after
            && (ReportAll(after, items) == [] <==> forall u :: u in items ==> Skipped(u) || WholeMillis(u))
  {
    var after := UpsertAll(db, items);
    BatchKeepsWellFormed(db, items);
    forall u | u in items ensures Settled(after, u) {
      BatchSettles(db, items, u);
    }
    SettledBatchStays(after, items);
  }
}
