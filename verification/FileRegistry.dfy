/** The stored file records of the parts and how a scan refreshes them (app/services/filescan.py). */
module FileRegistry {
  import opened Wrappers
  import opened AttrKeys
  import opened Filters

  datatype Field = RelPath | Path | HttpUrl | Size | MtimeIso | Drawing | ContentType | Origin | MetaInfo

  /** A field's value. Times are in microseconds. */
  datatype Val = Text(text: string) | Number(n: real) | Time(micros: int) | Flag(b: bool) | Nothing

  /** What makes two records the same artifact: letter case of the part number and revision is ignored. */
  datatype Identity = Identity(pn: string, rev: string, group: string, ext: string, isDwg: bool)

  datatype Row = Row(id: nat, pn: string, rev: string, group: string, ext: string, isDwg: bool, fields: map<Field, Val>)

  function RowIdentity(r: Row): Identity {
    Identity(Lower(r.pn), Lower(r.rev), r.group, r.ext, r.isDwg)
  }

  /** The rows in order of their ids, and the id the next new row gets. */
  datatype Db = Db(rows: seq<Row>, next: nat)

  ghost predicate WellFormed(db: Db) {
    && (forall i, j :: 0 <= i < j < |db.rows| ==> db.rows[i].id != db.rows[j].id)
    && (forall r :: r in db.rows ==> r.id < db.next)
  }

  // ----- Incoming records -----

  datatype Record = Record(pn: string, partNumber: string, rev: string, revision: string, group: string, ext: string,
                           isDwg: bool, relPath: string, absPath: string, extras: map<Field, Val>)

  /** A record with its defaults filled in, as it is upserted. */
  datatype Item = Item(pn: string, rev: string, group: string, ext: string, isDwg: bool, path: string, values: map<Field, Val>)

  function FirstNonBlank(a: string, b: string): string {
    if a != "" then a else b
  }

  function ForwardSlashes(s: string): string {
    seq(|s|, i requires 0 <= i < |s| => if s[i] == '\\' then '/' else s[i])
  }

  predicate IsSlash(c: char) {
    c == '/'
  }

  function NormRel(r: Record): string {
    TrimLeft(ForwardSlashes(r.relPath), IsSlash)
  }

  function UniquePath(r: Record): string {
    FirstNonBlank(Strip(r.absPath), NormRel(r))
  }

  function Values(r: Record): map<Field, Val> {
    (map f | f in r.extras && f != RelPath && f != Path :: r.extras[f])
      + (if NormRel(r) != "" then map[RelPath := Text(NormRel(r))] else map[])
      + (if UniquePath(r) != "" then map[Path := Text(UniquePath(r))] else map[])
  }

  function ToItem(pn: string, rev: Option<string>, r: Record): Item {
    Item(FirstNonBlank(pn, FirstNonBlank(r.pn, r.partNumber)),
         if rev.Some? then rev.value else FirstNonBlank(r.rev, r.revision),
         Lower(r.group), Lower(r.ext), r.isDwg, UniquePath(r), Values(r))
  }

  predicate Skipped(u: Item) {
    u.pn == "" || u.ext == ""
  }

  function ItemIdentity(u: Item): Identity {
    Identity(Lower(u.pn), Lower(u.rev), u.group, u.ext, u.isDwg)
  }

  // ----- One upsert -----

  /** What the database gives back for a stored value: times keep whole milliseconds. */
  function Kept(v: Val): Val {
    if v.Time? then Time(v.micros / 1000 * 1000) else v
  }

  function KeptValues(values: map<Field, Val>): map<Field, Val> {
    map f | f in values :: Kept(values[f])
  }

  function Read(r: Row, f: Field): Val {
    if f in r.fields then r.fields[f] else Nothing
  }

  predicate HoldsPath(r: Row, path: string) {
    Read(r, Path) == Text(path)
  }

  function Of(who: Identity): Row -> bool {
    (r: Row) => RowIdentity(r) == who
  }

  function Siblings(rows: seq<Row>, who: Identity): seq<Row> {
    Filter(Of(who), rows)
  }

  function FirstHolding(rows: seq<Row>, path: string): Option<Row> {
    if rows == [] then None else if HoldsPath(rows[0], path) then Some(rows[0]) else FirstHolding(rows[1..], path)
  }

  /** The row that stays: the one already holding the path, else the oldest. */
  function Survivor(siblings: seq<Row>, path: string): Option<Row> {
    match FirstHolding(siblings, path)
    case Some(r) => Some(r)
    case None => if siblings == [] then None else Some(siblings[0])
  }

  function Put(r: Row, values: map<Field, Val>): Row {
    r.(fields := r.fields + KeptValues(values))
  }

  function Written(rows: seq<Row>, id: nat, values: map<Field, Val>): seq<Row> {
    seq(|rows|, i requires 0 <= i < |rows| => if rows[i].id == id then Put(rows[i], values) else rows[i])
  }

  function NotIn(dead: set<nat>): Row -> bool {
    (r: Row) => r.id !in dead
  }

  function Without(rows: seq<Row>, dead: set<nat>): seq<Row> {
    Filter(NotIn(dead), rows)
  }

  function Ids(rows: seq<Row>): set<nat> {
    set r | r in rows :: r.id
  }

  function NewRow(u: Item, id: nat): Row {
    Row(id, u.pn, u.rev, u.group, u.ext, u.isDwg, map[Drawing := Flag(u.isDwg)] + KeptValues(u.values))
  }

  function UpsertOne(db: Db, u: Item): Db {
    if Skipped(u) then db
    else
      var siblings := Siblings(db.rows, ItemIdentity(u));
      match Survivor(siblings, u.path)
      case None => Db(db.rows + [NewRow(u, db.next)], db.next + 1)
      case Some(r) => Db(Written(Without(db.rows, Ids(siblings) - {r.id}), r.id, u.values), db.next)
  }

  /** What the report says about one record. `spelling` is the part number and revision as stored. */
  datatype Change = Change(spelling: (string, string), who: Identity, relPath: Val, added: bool, fields: set<Field>)

  function Differing(r: Row, values: map<Field, Val>): set<Field> {
    set f | f in values && Read(r, f) != values[f]
  }

  function Report(db: Db, u: Item): seq<Change> {
    var relPath := if RelPath in u.values then u.values[RelPath] else Text("");
    if Skipped(u) then []
    else
      match Survivor(Siblings(db.rows, ItemIdentity(u)), u.path)
      case None => [Change((u.pn, u.rev), ItemIdentity(u), relPath, true, u.values.Keys)]
      case Some(r) =>
        if Differing(r, u.values) == {} then []
        else [Change((r.pn, r.rev), ItemIdentity(u), relPath, false, Differing(r, u.values))]
  }

  // ----- A batch -----

  function UpsertAll(db: Db, items: seq<Item>): Db
    decreases |items|
  {
    if items == [] then db else UpsertAll(UpsertOne(db, items[0]), items[1..])
  }

  function ReportAll(db: Db, items: seq<Item>): seq<Change>
    decreases |items|
  {
    if items == [] then [] else Report(db, items[0]) + ReportAll(UpsertOne(db, items[0]), items[1..])
  }

  function Items(pn: string, rev: Option<string>, records: seq<Record>): seq<Item> {
    seq(|records|, i requires 0 <= i < |records| => ToItem(pn, rev, records[i]))
  }

  class Registry {
    var rows: seq<Row>
    var next: nat

    constructor (db: Db)
      ensures State() == db
    {
      rows, next := db.rows, db.next;
    }

    function State(): Db
      reads this
    {
      Db(rows, next)
    }

    method Delete(id: nat)
      modifies this
      ensures rows == Without(old(rows), {id}) && next == old(next)
    {
      rows := Without(rows, {id});
    }

    /** Delete the rows of a list except one. */
    method DeleteOthers(siblings: seq<Row>, id: nat)
      modifies this
      ensures rows == Without(old(rows), Ids(siblings) - {id}) && next == old(next)
    {
      WithoutNone(rows);
      assert Ids(siblings[..0]) - {id} == {};
      for n := 0 to |siblings|
        invariant next == old(next)
        invariant rows == Without(old(rows), Ids(siblings[..n]) - {id})
      {
        ghost var dead := Ids(siblings[..n]) - {id};
        assert siblings[..n + 1] == siblings[..n] + [siblings[n]];
        assert Ids(siblings[..n + 1]) == Ids(siblings[..n]) + {siblings[n].id};
        if siblings[n].id != id {
          WithoutMore(old(rows), dead, siblings[n].id);
          assert Ids(siblings[..n + 1]) - {id} == dead + {siblings[n].id};
          Delete(siblings[n].id);
        } else {
          assert Ids(siblings[..n + 1]) - {id} == dead;
        }
      }
      assert siblings[..|siblings|] == siblings;
    }

    method Upsert(u: Item) returns (count: nat, change: seq<Change>)
      modifies this
      ensures State() == UpsertOne(old(State()), u)
      ensures change == Report(old(State()), u) && count == if Skipped(u) then 0 else 1
    {
      if u.pn == "" || u.ext == "" {
        return 0, [];
      }
      count, change := 1, [];
      var siblings := Siblings(rows, ItemIdentity(u));
      var relPath := if RelPath in u.values then u.values[RelPath] else Text("");
      var existing := FindSurvivor(siblings, u.path);
      match existing {
        case None =>
          rows := rows + [NewRow(u, next)];
          next := next + 1;
          change := [Change((u.pn, u.rev), ItemIdentity(u), relPath, true, u.values.Keys)];
        case Some(r) =>
          DeleteOthers(siblings, r.id);
          var changed := Differing(r, u.values);
          rows := Written(rows, r.id, u.values);
          if changed != {} {
            change := [Change((r.pn, r.rev), ItemIdentity(u), relPath, false, changed)];
          }
      }
    }

    /** `upsert_part_files_detailed`. */
    method UpsertBatch(records: seq<Record>, pn: string, rev: Option<string>) returns (count: nat, changes: seq<Change>)
      modifies this
      ensures State() == UpsertAll(old(State()), Items(pn, rev, records))
      ensures changes == ReportAll(old(State()), Items(pn, rev, records))
      ensures count == |Filter((u: Item) => !Skipped(u), Items(pn, rev, records))|
    {
      count, changes := 0, [];
      ghost var items := Items(pn, rev, records);
      ghost var db := State();
      var counts := (u: Item) => !Skipped(u);
      for n := 0 to |records|
        invariant UpsertAll(State(), items[n..]) == UpsertAll(db, items)
        invariant changes + ReportAll(State(), items[n..]) == ReportAll(db, items)
        invariant count + |Filter(counts, items[n..])| == |Filter(counts, items)|
      {
        assert items[n..][0] == items[n] && items[n..][1..] == items[n + 1..];
        var one, change := Upsert(ToItem(pn, rev, records[n]));
        count, changes := count + one, changes + change;
      }
      assert items[|records|..] == [];
      FilterSame(counts, (u: Item) => !Skipped(u), items);
    }

    /** `remove_stale_part_files`. Nothing is removed when no source can be reached. */
    method RemoveStale(pn: string, rev: string, found: set<(string, bool)>, onDisk: Row -> bool, reachable: bool,
                       allowed: Option<set<nat>>)
      returns (removed: seq<Row>)
      modifies this
      ensures removed == if Strip(pn) == "" || !reachable then [] else Removed(old(rows), pn, rev, found, onDisk, allowed)
      ensures rows == Without(old(rows), Ids(removed)) && next == old(next)
      ensures forall r :: r in removed <==>
                            && Strip(pn) != "" && reachable && r in old(rows) && !onDisk(r)
                            && Lower(r.pn) == Lower(Strip(pn)) && Lower(r.rev) == Lower(rev)
                            && (Lower(r.group), r.isDwg) !in found && (allowed == None || r.id in allowed.value)
      ensures WellFormed(old(State())) ==> forall r :: r in rows <==> r in old(rows) && r !in removed
    {
      RemovedMember(rows, pn, rev, found, onDisk, allowed);
      removed := [];
      WithoutNone(rows);
      assert Ids(removed) == {};
      if Strip(pn) == "" || !reachable {
        return;
      }
      assert old(State()) == Db(rows, next);
      var was := rows;
      var doomed := Doomed(pn, rev, found, onDisk, allowed);
      for n := 0 to |was|
        invariant next == old(next)
        invariant removed + Filter(doomed, was[n..]) == Filter(doomed, was)
        invariant rows == Without(was, Ids(removed))
      {
        RemovedStep(doomed, was, n, removed, Filter(doomed, was));
        if doomed(was[n]) {
          WithoutMore(was, Ids(removed), was[n].id);
          Delete(was[n].id);
          removed := removed + [was[n]];
        }
      }
      assert was[|was|..] == [];
      if WellFormed(Db(was, next)) {
        WithoutMember(Db(was, next), removed);
      }
    }
  }

  // ----- Stale rows -----

  /** The rows of one part, whatever the letter case. */
  predicate IsOfPart(r: Row, pn: string, rev: string) {
    Lower(r.pn) == Lower(pn) && Lower(r.rev) == Lower(rev)
  }

  /** A row of the part that was not found again and whose file is gone. */
  predicate IsStale(r: Row, pn: string, rev: string, found: set<(string, bool)>, onDisk: Row -> bool) {
    IsOfPart(r, pn, rev) && (Lower(r.group), r.isDwg) !in found && !onDisk(r)
  }

  predicate IsDoomed(r: Row, pn: string, rev: string, found: set<(string, bool)>, onDisk: Row -> bool, allowed: Option<set<nat>>) {
    IsStale(r, Strip(pn), rev, found, onDisk) && (allowed.Some? ==> r.id in allowed.value)
  }

  function Removed(rows: seq<Row>, pn: string, rev: string, found: set<(string, bool)>, onDisk: Row -> bool,
                   allowed: Option<set<nat>>): seq<Row> {
    Filter(Doomed(pn, rev, found, onDisk, allowed), rows)
  }

  function Doomed(pn: string, rev: string, found: set<(string, bool)>, onDisk: Row -> bool, allowed: Option<set<nat>>): Row -> bool {
    (r: Row) => IsDoomed(r, pn, rev, found, onDisk, allowed)
  }

  lemma RemovedMember(rows: seq<Row>, pn: string, rev: string, found: set<(string, bool)>, onDisk: Row -> bool,
                      allowed: Option<set<nat>>)
    ensures forall r :: r in Removed(rows, pn, rev, found, onDisk, allowed) <==>
                          && r in rows && !onDisk(r) && Lower(r.pn) == Lower(Strip(pn)) && Lower(r.rev) == Lower(rev)
                          && (Lower(r.group), r.isDwg) !in found && (allowed == None || r.id in allowed.value)
  {
    forall r ensures r in Removed(rows, pn, rev, found, onDisk, allowed)
                     <==> r in rows && IsDoomed(r, pn, rev, found, onDisk, allowed) {
      FilterMember(Doomed(pn, rev, found, onDisk, allowed), rows, r);
    }
  }

  lemma WithoutMember(db: Db, removed: seq<Row>)
    requires WellFormed(db) && forall r :: r in removed ==> r in db.rows
    ensures forall r :: r in Without(db.rows, Ids(removed)) <==> r in db.rows && r !in removed
  {
    forall r ensures r in Without(db.rows, Ids(removed)) <==> r in db.rows && r !in removed {
      FilterMember(NotIn(Ids(removed)), db.rows, r);
    }
  }

  lemma RemovedStep(p: Row -> bool, was: seq<Row>, n: nat, removed: seq<Row>, all: seq<Row>)
    requires n < |was| && removed + Filter(p, was[n..]) == all
    ensures (if p(was[n]) then removed + [was[n]] else removed) + Filter(p, was[n + 1..]) == all
    ensures Ids(removed + [was[n]]) == Ids(removed) + {was[n].id}
  {
    assert was[n..][0] == was[n] && was[n..][1..] == was[n + 1..];
  }

  method FindSurvivor(siblings: seq<Row>, path: string) returns (r: Option<Row>)
    ensures r == Survivor(siblings, path)
  {
    for n := 0 to |siblings|
      invariant FirstHolding(siblings, path) == FirstHolding(siblings[n..], path)
    {
      assert siblings[n..][0] == siblings[n] && siblings[n..][1..] == siblings[n + 1..];
      if HoldsPath(siblings[n], path) {
        return Some(siblings[n]);
      }
    }
    assert siblings[|siblings|..] == [];
    r := if siblings == [] then None else Some(siblings[0]);
  }

  lemma WithoutNone(rows: seq<Row>)
    ensures Without(rows, {}) == rows
  {
    FilterAll(NotIn({}), rows);
  }

  lemma WithoutMore(rows: seq<Row>, dead: set<nat>, id: nat)
    ensures Without(Without(rows, dead), {id}) == Without(rows, dead + {id})
  {
    FilterTwice(NotIn({id}), NotIn(dead), NotIn(dead + {id}), rows);
  }
}
