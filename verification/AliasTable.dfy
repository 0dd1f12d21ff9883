/** Sanitising the attribute names of the canonical fields (app/services/canonical_fields.py). */
module AliasTable {
  import opened AttrKeys
  import opened Filters

  /** The names configured for a field: a text to be split, a list, or anything else. */
  datatype Names = AsText(text: string) | AsList(items: seq<string>) | AsOther

  /** The configuration: a dictionary by field, a list of records, or anything else. A record may carry its field under
      `field_id` or `id`. */
  datatype Raw = RawDict(fields: seq<(string, Names)>) | RawList(records: seq<Record>) | RawOther
  datatype Record = NotARecord | Record(fieldId: string, id: string, names: Names)

  datatype Entry = Entry(fieldId: string, aliases: seq<string>)

  // ----- Reading the configuration -----

  predicate IsSeparator(c: char) {
    c == ',' || c == ';' || c == '\r' || c == '\n'
  }

  /** The pieces of a text between runs of separators. `piece` is the piece being read. */
  function Pieces(s: string, piece: string): seq<string>
    decreases |s|
  {
    if s == [] then [piece]
    else if !IsSeparator(s[0]) then Pieces(s[1..], piece + [s[0]])
    else if |s| > 1 && IsSeparator(s[1]) then Pieces(s[1..], piece)
    else [piece] + Pieces(s[1..], [])
  }

  function RawItems(names: Names): seq<string> {
    match names
    case AsText(text) => Pieces(text, [])
    case AsList(items) => items
    case AsOther => []
  }

  function FieldOf(key: string -> string, r: Record): string {
    if r.NotARecord? then "" else key(if r.fieldId != "" then r.fieldId else r.id)
  }

  /** The names configured under each field; the last mention of a field counts. */
  function FieldIndex(key: string -> string, fields: seq<(string, Names)>): map<string, Names> {
    if fields == [] then map[]
    else
      var last := fields[|fields| - 1];
      FieldIndex(key, fields[..|fields| - 1])[key(last.0) := last.1]
  }

  function RecordIndex(key: string -> string, records: seq<Record>): map<string, Names> {
    if records == [] then map[]
    else
      var last := records[|records| - 1];
      var before := RecordIndex(key, records[..|records| - 1]);
      if FieldOf(key, last) == "" then before else before[FieldOf(key, last) := last.names]
  }

  function Index(key: string -> string, raw: Raw): map<string, Names> {
    match raw
    case RawDict(fields) => FieldIndex(key, fields)
    case RawList(records) => RecordIndex(key, records)
    case RawOther => map[]
  }

  method BuildIndex(key: string -> string, raw: Raw) returns (index: map<string, Names>)
    ensures index == Index(key, raw)
  {
    index := map[];
    match raw {
      case RawDict(fields) =>
        for n := 0 to |fields|
          invariant index == FieldIndex(key, fields[..n])
        {
          assert fields[..n + 1][..n] == fields[..n];
          index := index[key(fields[n].0) := fields[n].1];
        }
        assert fields[..|fields|] == fields;
      case RawList(records) =>
        for n := 0 to |records|
          invariant index == RecordIndex(key, records[..n])
        {
          assert records[..n + 1][..n] == records[..n];
          var field := FieldOf(key, records[n]);
          if field != "" {
            index := index[field := records[n].names];
          }
        }
        assert records[..|records|] == records;
      case RawOther =>
    }
  }

  // ----- Picking names -----

  function Keyed(key: string -> string, items: seq<string>): seq<string> {
    seq(|items|, i requires 0 <= i < |items| => key(items[i]))
  }

  /** The tokens that are not blank and have not come up before, in order. */
  function Unseen(tokens: seq<string>, seen: set<string>): seq<string> {
    if tokens == [] then []
    else if tokens[0] == "" || tokens[0] in seen then Unseen(tokens[1..], seen)
    else [tokens[0]] + Unseen(tokens[1..], seen + {tokens[0]})
  }

  function WithOwn(own: string, tokens: seq<string>): seq<string> {
    if own in tokens then tokens else [own] + tokens
  }

  predicate Distinct(tokens: seq<string>) {
    forall i, j :: 0 <= i < j < |tokens| ==> tokens[i] != tokens[j]
  }

  lemma {:induction false} UnseenMember(tokens: seq<string>, seen: set<string>, t: string)
    ensures t in Unseen(tokens, seen) <==> t in tokens && t != "" && t !in seen
    decreases |tokens|
  {
    if tokens != [] {
      UnseenMember(tokens[1..], seen, t);
      UnseenMember(tokens[1..], seen + {tokens[0]}, t);
    }
  }

  lemma {:induction false} UnseenDistinct(tokens: seq<string>, seen: set<string>)
    ensures Distinct(Unseen(tokens, seen))
    decreases |tokens|
  {
    if tokens != [] && tokens[0] != "" && tokens[0] !in seen {
      var rest := Unseen(tokens[1..], seen + {tokens[0]});
      UnseenDistinct(tokens[1..], seen + {tokens[0]});
      UnseenMember(tokens[1..], seen + {tokens[0]}, tokens[0]);
      assert Unseen(tokens, seen) == [tokens[0]] + rest;
    } else if tokens != [] {
      UnseenDistinct(tokens[1..], seen);
    }
  }

  /** Tokens that are all new are taken as they are. */
  lemma {:induction false} UnseenAll(tokens: seq<string>, seen: set<string>)
    requires Distinct(tokens) && forall t :: t in tokens ==> t != "" && t !in seen
    ensures Unseen(tokens, seen) == tokens
    decreases |tokens|
  {
    if tokens != [] {
      assert tokens[0] in tokens;
      forall t | t in tokens[1..] ensures t in tokens && t != tokens[0] {
        var i :| 0 <= i < |tokens[1..]| && tokens[1..][i] == t;
        assert tokens[i + 1] == t;
      }
      UnseenAll(tokens[1..], seen + {tokens[0]});
    }
  }

  /** `_normalize_alias_list`. */
  function AliasList(key: string -> string, names: Names, fieldId: string): seq<string> {
    var picked := Unseen(Keyed(key, RawItems(names)), {});
    if key(fieldId) == "" then picked else WithOwn(key(fieldId), picked)
  }

  method NormalizeAliasList(key: string -> string, names: Names, fieldId: string) returns (out: seq<string>)
    ensures out == AliasList(key, names, fieldId)
  {
    var items := RawItems(names);
    var own := key(fieldId);
    ghost var tokens := Keyed(key, items);
    out := [];
    var seen: set<string> := {};
    for n := 0 to |items|
      invariant out + Unseen(tokens[n..], seen) == Unseen(tokens, {})
      invariant forall t :: t in seen <==> t in out
    {
      var token := key(items[n]);
      assert tokens[n..][0] == token && tokens[n..][1..] == tokens[n + 1..];
      if token != "" && token !in seen {
        Regroup(out, [token], Unseen(tokens[n + 1..], seen + {token}));
        seen := seen + {token};
        out := out + [token];
      }
    }
    assert tokens[|items|..] == [];
    if own != "" && own !in seen {
      out := [own] + out;
    }
  }

  // ----- Sanitising -----

  function Ids(defs: seq<Entry>): set<string> {
    set d | d in defs :: d.fieldId
  }

  /** The field ids of the definitions are keys, not blank, and name each field once. */
  ghost predicate Proper(key: string -> string, defs: seq<Entry>) {
    && (forall i :: 0 <= i < |defs| ==> key(defs[i].fieldId) == defs[i].fieldId && defs[i].fieldId != "")
    && (forall i, j :: 0 <= i < j < |defs| ==> defs[i].fieldId != defs[j].fieldId)
  }

  ghost predicate Idempotent(key: string -> string) {
    forall s {:trigger key(key(s))} :: key(key(s)) == key(s)
  }

  /** The names asked for on behalf of a field: those configured, else its defaults. */
  function Requested(key: string -> string, index: map<string, Names>, def: Entry): seq<string> {
    AliasList(key, if def.fieldId in index then index[def.fieldId] else AsList(def.aliases), def.fieldId)
  }

  function Requests(key: string -> string, index: map<string, Names>, defs: seq<Entry>): seq<Entry> {
    seq(|defs|, i requires 0 <= i < |defs| => Entry(defs[i].fieldId, Requested(key, index, defs[i])))
  }

  /** What one field gets, given the names other fields own and the names taken so far. */
  function Granted(key: string -> string, e: Entry, reserved: set<string>, claimed: set<string>): seq<string> {
    WithOwn(key(e.fieldId), Unseen(Keyed(key, e.aliases), claimed + (reserved - {key(e.fieldId)})))
  }

  function Grants(key: string -> string, entries: seq<Entry>, reserved: set<string>, claimed: set<string>): seq<Entry>
    decreases |entries|
  {
    if entries == [] then []
    else
      var got := Granted(key, entries[0], reserved, claimed);
      [Entry(entries[0].fieldId, got)] + Grants(key, entries[1..], reserved, claimed + set t | t in got)
  }

  function Sanitised(key: string -> string, raw: Raw, defs: seq<Entry>): seq<Entry> {
    Grants(key, Requests(key, Index(key, raw), defs), set d | d in defs :: key(d.fieldId), {})
  }

  method Grant(key: string -> string, e: Entry, reserved: set<string>, was: set<string>)
    returns (unique: seq<string>, claimed: set<string>)
    requires key(e.fieldId) !in was && key(e.fieldId) in reserved
    ensures unique == Granted(key, e, reserved, was)
    ensures claimed == was + set t | t in unique
  {
    var own := key(e.fieldId);
    ghost var tokens := Keyed(key, e.aliases);
    ghost var others := reserved - {own};
    ghost var all := Unseen(tokens, was + others);
    unique, claimed := [], was;
    for n := 0 to |e.aliases|
      invariant unique + Unseen(tokens[n..], claimed + others) == all
      invariant claimed == was + set t | t in unique
    {
      var token := key(e.aliases[n]);
      assert tokens[n..][0] == token && tokens[n..][1..] == tokens[n + 1..];
      if token == "" || (token in reserved && token != own) || token in claimed {
        continue;
      }
      assert (claimed + {token}) + others == (claimed + others) + {token};
      Regroup(unique, [token], Unseen(tokens[n + 1..], (claimed + others) + {token}));
      claimed := claimed + {token};
      unique := unique + [token];
    }
    assert tokens[|e.aliases|..] == [];
    if own !in unique {
      unique := [own] + unique;
      claimed := claimed + {own};
    }
  }

  method CollectRequests(key: string -> string, index: map<string, Names>, defs: seq<Entry>) returns (entries: seq<Entry>)
    ensures entries == Requests(key, index, defs)
  {
    entries := [];
    for n := 0 to |defs|
      invariant |entries| == n && forall m :: 0 <= m < n ==> entries[m] == Requests(key, index, defs)[m]
    {
      var def := defs[n];
      var aliases := NormalizeAliasList(key, if def.fieldId in index then index[def.fieldId] else AsList(def.aliases), def.fieldId);
      entries := entries + [Entry(def.fieldId, aliases)];
    }
  }  /** A field's own id is not taken by any other field. */
  lemma OwnIdsStayFree(key: string -> string, e: Entry, reserved: set<string>, claimed: set<string>, id: string)
    requires id in reserved && id !in claimed && id != key(e.fieldId)
    ensures id !in Granted(key, e, reserved, claimed)
  {
    UnseenMember(Keyed(key, e.aliases), claimed + (reserved - {key(e.fieldId)}), id);
  }

  lemma GrantsStep(key: string -> string, entries: seq<Entry>, n: nat, reserved: set<string>, claimed: set<string>,
                   out: seq<Entry>, all: seq<Entry>)
    requires n < |entries| && out + Grants(key, entries[n..], reserved, claimed) == all
    ensures var got := Granted(key, entries[n], reserved, claimed);
            (out + [Entry(entries[n].fieldId, got)]) + Grants(key, entries[n + 1..], reserved, claimed + set t | t in got) == all
  {
    assert entries[n..][0] == entries[n] && entries[n..][1..] == entries[n + 1..];
  }

  method GrantAll(key: string -> string, entries: seq<Entry>, reserved: set<string>) returns (out: seq<Entry>)
    requires forall m :: 0 <= m < |entries| ==> key(entries[m].fieldId) in reserved
    requires forall m, n :: 0 <= m < n < |entries| ==> key(entries[m].fieldId) != key(entries[n].fieldId)
    ensures out == Grants(key, entries, reserved, {})
  {
    out := [];
    var claimed: set<string> := {};
    for n := 0 to |entries|
      invariant out + Grants(key, entries[n..], reserved, claimed) == Grants(key, entries, reserved, {})
      invariant forall m :: n <= m < |entries| ==> key(entries[m].fieldId) !in claimed
    {
      GrantsStep(key, entries, n, reserved, claimed, out, Grants(key, entries, reserved, {}));
      var unique, next := Grant(key, entries[n], reserved, claimed);
      forall m | n < m < |entries| ensures key(entries[m].fieldId) !in next {
        OwnIdsStayFree(key, entries[n], reserved, claimed, key(entries[m].fieldId));
      }
      out, claimed := out + [Entry(entries[n].fieldId, unique)], next;
    }
    assert entries[|entries|..] == [];
  }

  /** `sanitize_canonical_alias_entries`. */
  method Sanitize(key: string -> string, raw: Raw, defs: seq<Entry>) returns (out: seq<Entry>)
    requires Proper(key, defs)
    ensures out == Sanitised(key, raw, defs)
  {
    var index := BuildIndex(key, raw);
    var entries := CollectRequests(key, index, defs);
    forall m | 0 <= m < |defs| ensures defs[m] in defs && entries[m].fieldId == defs[m].fieldId {
    }
    out := GrantAll(key, entries, set d | d in defs :: key(d.fieldId));
  }

  // ----- Who owns a name -----

  /** The names requested for a field. */
  function Wanted(key: string -> string, raw: Raw, def: Entry): seq<string> {
    Requested(key, Index(key, raw), def)
  }

  /** A field's own id is its own. Any other name goes to the first field that wants it, unless it is another field's id. */
  ghost predicate Owns(key: string -> string, raw: Raw, defs: seq<Entry>, i: nat, t: string)
    requires i < |defs|
  {
    t == defs[i].fieldId
    || (t !in Ids(defs) && t in Wanted(key, raw, defs[i]) && forall j :: 0 <= j < i ==> t !in Wanted(key, raw, defs[j]))
  }

  lemma {:induction false} RequestedTokens(key: string -> string, names: Names, fieldId: string)
    requires Idempotent(key) && key(fieldId) == fieldId && fieldId != ""
    ensures forall t :: t in AliasList(key, names, fieldId) ==> t != "" && key(t) == t
    ensures Keyed(key, AliasList(key, names, fieldId)) == AliasList(key, names, fieldId)
    ensures fieldId in AliasList(key, names, fieldId) && Distinct(AliasList(key, names, fieldId))
  {
    var tokens := Keyed(key, RawItems(names));
    var list := AliasList(key, names, fieldId);
    UnseenDistinct(tokens, {});
    forall t | t in list ensures t != "" && key(t) == t {
      if t != fieldId {
        UnseenMember(tokens, {}, t);
        var i :| 0 <= i < |tokens| && tokens[i] == t;
        assert tokens[i] == key(RawItems(names)[i]);
      }
    }
    forall i | 0 <= i < |list| ensures key(list[i]) == list[i] {
      assert list[i] in list;
    }
  }

  /** One field's share. */
  lemma GrantedMember(key: string -> string, e: Entry, reserved: set<string>, claimed: set<string>, t: string)
    requires Keyed(key, e.aliases) == e.aliases && key(e.fieldId) == e.fieldId && "" !in e.aliases
    ensures t in Granted(key, e, reserved, claimed)
            <==> t == e.fieldId || (t in e.aliases && t !in claimed && t !in reserved)
    ensures Distinct(Granted(key, e, reserved, claimed))
  {
    var seen := claimed + (reserved - {e.fieldId});
    UnseenMember(e.aliases, seen, t);
    UnseenMember(e.aliases, seen, e.fieldId);
    UnseenDistinct(e.aliases, seen);
  }

  lemma {:induction false} GrantsFields(key: string -> string, entries: seq<Entry>, reserved: set<string>, claimed: set<string>)
    ensures |Grants(key, entries, reserved, claimed)| == |entries|
    ensures forall i :: 0 <= i < |entries| ==> Grants(key, entries, reserved, claimed)[i].fieldId == entries[i].fieldId
    decreases |entries|
  {
    if entries != [] {
      GrantsFields(key, entries[1..], reserved, claimed + set t | t in Granted(key, entries[0], reserved, claimed));
    }
  }

  /** What the i-th field gets: its own id, and what it wants that is no field's id, has not been taken before the scan
      and is wanted by no earlier field. */
  lemma {:induction false} GrantsMember(key: string -> string, entries: seq<Entry>, reserved: set<string>, claimed: set<string>,
                                        i: nat, t: string)
    requires i < |entries|
    requires forall j :: 0 <= j < |entries| ==> Settled(key, entries[j])
    requires t in reserved || forall j :: 0 <= j < |entries| ==> entries[j].fieldId != t
    requires forall j :: 0 <= j < |entries| ==> entries[j].fieldId in reserved
    ensures |Grants(key, entries, reserved, claimed)| == |entries|
    ensures t in Grants(key, entries, reserved, claimed)[i].aliases
            <==> t == entries[i].fieldId
                 || (t !in reserved && t !in claimed && t in entries[i].aliases
                     && forall j :: 0 <= j < i ==> t !in entries[j].aliases)
    ensures Distinct(Grants(key, entries, reserved, claimed)[i].aliases)
    decreases |entries|
  {
    var got := Granted(key, entries[0], reserved, claimed);
    GrantsFields(key, entries, reserved, claimed);
    assert Settled(key, entries[0]);
    GrantedMember(key, entries[0], reserved, claimed, t);
    if i > 0 {
      assert forall j :: 0 <= j < |entries| - 1 ==> entries[1..][j] == entries[j + 1];
      GrantsMember(key, entries[1..], reserved, claimed + (set a | a in got), i - 1, t);
      UnlistedBefore(entries, i, t);
    }
  }

  lemma UnlistedBefore(entries: seq<Entry>, i: nat, t: string)
    requires 0 < i <= |entries|
    ensures (forall j :: 0 <= j < i ==> t !in entries[j].aliases)
            <==> t !in entries[0].aliases && forall j :: 0 <= j < i - 1 ==> t !in entries[1..][j].aliases
  {
    forall j | 0 < j < i ensures t !in entries[j].aliases <==> t !in entries[1..][j - 1].aliases {
    }
  }

  ghost predicate Settled(key: string -> string, e: Entry) {
    Keyed(key, e.aliases) == e.aliases && key(e.fieldId) == e.fieldId && "" !in e.aliases
  }

  lemma RequestsSettled(key: string -> string, raw: Raw, defs: seq<Entry>)
    requires Proper(key, defs) && Idempotent(key)
    ensures forall j :: 0 <= j < |defs| ==> Settled(key, Requests(key, Index(key, raw), defs)[j])
    ensures (set d | d in defs :: key(d.fieldId)) == Ids(defs)
  {
    var index := Index(key, raw);
    forall j | 0 <= j < |defs| ensures Settled(key, Requests(key, index, defs)[j]) {
      RequestedTokens(key, if defs[j].fieldId in index then index[defs[j].fieldId] else AsList(defs[j].aliases), defs[j].fieldId);
    }
    forall d | d in defs ensures key(d.fieldId) == d.fieldId {
      var i :| 0 <= i < |defs| && defs[i] == d;
    }
    assert forall d :: d in defs ==> d.fieldId in Ids(defs);
  }

  /** Sanitising gives every name to exactly the field that owns it, listed once. */
  lemma SanitisedMember(key: string -> string, raw: Raw, defs: seq<Entry>, i: nat, t: string)
    requires Proper(key, defs) && Idempotent(key) && i < |defs|
    ensures |Sanitised(key, raw, defs)| == |defs| && Sanitised(key, raw, defs)[i].fieldId == defs[i].fieldId
    ensures t in Sanitised(key, raw, defs)[i].aliases <==> Owns(key, raw, defs, i, t)
    ensures Distinct(Sanitised(key, raw, defs)[i].aliases)
  {
    var requests := Requests(key, Index(key, raw), defs);
    RequestsSettled(key, raw, defs);
    GrantsFields(key, requests, Ids(defs), {});
    forall j | 0 <= j < |requests| ensures requests[j].fieldId in Ids(defs) {
      assert defs[j] in defs;
    }
    GrantsMember(key, requests, Ids(defs), {}, i, t);
    assert forall j :: 0 <= j < |defs| ==> requests[j].aliases == Wanted(key, raw, defs[j]);
  }

  /** Every field keeps its own id and no name belongs to two fields. */
  lemma NamesArePartitioned(key: string -> string, raw: Raw, defs: seq<Entry>, i: nat, j: nat, t: string)
    requires Proper(key, defs) && Idempotent(key) && i < j < |defs|
    ensures |Sanitised(key, raw, defs)| == |defs|
    ensures defs[i].fieldId in Sanitised(key, raw, defs)[i].aliases
    ensures !(t in Sanitised(key, raw, defs)[i].aliases && t in Sanitised(key, raw, defs)[j].aliases)
  {
    SanitisedMember(key, raw, defs, i, defs[i].fieldId);
    SanitisedMember(key, raw, defs, i, t);
    SanitisedMember(key, raw, defs, j, t);
    assert defs[i] in defs && defs[j] in defs;
  }

  // ----- Who owns a name, read off the configuration -----

  ghost predicate Cuts(c: char) {
    c as int in {10, 13, 44, 59}
  }

  /** Somewhere between two separators, or a separator and an end of the text. */
  ghost predicate IsPiece(text: string, i: int, j: int) {
    && 0 <= i < j <= |text| && (forall k :: i <= k < j ==> !Cuts(text[k]))
    && (i == 0 || Cuts(text[i - 1])) && (j == |text| || Cuts(text[j]))
  }

  ghost predicate HasPiece(text: string, x: string) {
    exists i, j :: IsPiece(text, i, j) && text[i..j] == x
  }

  lemma PiecesJoin(a: string, c: char, b: string, text: string, x: string)
    requires Cuts(c) && text == a + [c] + b
    ensures HasPiece(text, x) <==> HasPiece(a, x) || HasPiece(b, x)
  {
    if i, j :| IsPiece(text, i, j) && text[i..j] == x {
      assert text[|a|] == c;
      if j <= |a| {
        PieceInFront(a, c, b, text, i, j);
      } else {
        PieceBehind(a, c, b, text, i - |a| - 1, j - |a| - 1);
      }
    }
    if i, j :| IsPiece(a, i, j) && a[i..j] == x {
      PieceInFront(a, c, b, text, i, j);
    }
    if i, j :| IsPiece(b, i, j) && b[i..j] == x {
      PieceBehind(a, c, b, text, i, j);
    }
  }

  lemma PieceInFront(a: string, c: char, b: string, text: string, i: int, j: int)
    requires Cuts(c) && text == a + [c] + b && 0 <= i < j <= |a|
    ensures (IsPiece(text, i, j) <==> IsPiece(a, i, j)) && text[i..j] == a[i..j]
  {
    assert forall k :: 0 <= k < |a| ==> text[k] == a[k];
    assert text[|a|] == c;
  }

  lemma PieceBehind(a: string, c: char, b: string, text: string, i: int, j: int)
    requires Cuts(c) && text == a + [c] + b && 0 <= i < j <= |b|
    ensures var n := |a| + 1; (IsPiece(text, n + i, n + j) <==> IsPiece(b, i, j)) && text[n + i..n + j] == b[i..j]
  {
    assert text[|a|] == c && text[|a| + 1..] == b;
    PieceOfRest(text, |a| + 1, b, i, j);
  }

  lemma PieceOfRest(text: string, n: nat, b: string, i: int, j: int)
    requires 0 < n <= |text| && Cuts(text[n - 1]) && text[n..] == b && 0 <= i < j <= |b|
    ensures (IsPiece(text, n + i, n + j) <==> IsPiece(b, i, j)) && text[n + i..n + j] == b[i..j]
  {
    assert forall k :: n <= k < |text| ==> text[k] == b[k - n];
  }  lemma UnbrokenPiece(a: string, x: string)
    requires forall k :: 0 <= k < |a| ==> !Cuts(a[k])
    ensures HasPiece(a, x) <==> x == a && x != ""
  {
    if i, j :| IsPiece(a, i, j) && a[i..j] == x {
      assert i == 0 && j == |a|;
    }
    if a != "" {
      assert IsPiece(a, 0, |a|) && a[0..|a|] == a;
    }
  }

  /** A second separator in a row cuts nothing more. */
  lemma RunCutsOnce(a: string, s: string, x: string)
    requires |s| > 1 && Cuts(s[0]) && Cuts(s[1])
    ensures HasPiece(a + s, x) <==> HasPiece(a + s[1..], x)
  {
    PiecesJoin(a, s[0], s[1..], a + s, x);
    PiecesJoin(a, s[1], s[2..], a + s[1..], x);
    PiecesJoin("", s[1], s[2..], s[1..], x);
    assert !HasPiece("", x);
  }

  lemma SeparatorsCut(c: char)
    ensures IsSeparator(c) <==> Cuts(c)
  {
  }

  /** A text is cut at every run of commas, semicolons and line ends. */
  lemma {:induction false} PiecesMeaning(s: string, piece: string, x: string)
    requires x != "" && forall k :: 0 <= k < |piece| ==> !Cuts(piece[k])
    ensures x in Pieces(s, piece) <==> HasPiece(piece + s, x)
    decreases |s|
  {
    if s == "" {
      UnbrokenPiece(piece, x);
      assert piece + s == piece;
    } else {
      SeparatorsCut(s[0]);
      if !Cuts(s[0]) {
        PiecesMeaning(s[1..], piece + [s[0]], x);
        assert piece + [s[0]] + s[1..] == piece + s;
      } else if |s| > 1 && IsSeparator(s[1]) {
        SeparatorsCut(s[1]);
        PiecesMeaning(s[1..], piece, x);
        RunCutsOnce(piece, s, x);
      } else {
        UnbrokenPiece(piece, x);
        PiecesMeaning(s[1..], "", x);
        assert "" + s[1..] == s[1..];
        PiecesJoin(piece, s[0], s[1..], piece + s, x);
      }
    }
  }

  /** A name is written in the configuration: as an item of a list, or a piece of a text. */
  ghost predicate Writes(names: Names, s: string) {
    s != "" && match names
               case AsText(text) => HasPiece(text, s)
               case AsList(items) => s in items
               case AsOther => false
  }

  /** The i-th item of the configuration is about the field. */
  ghost predicate IsAbout(key: string -> string, raw: Raw, i: int, field: string) {
    match raw
    case RawDict(fields) => 0 <= i < |fields| && key(fields[i].0) == field
    case RawList(records) =>
      && 0 <= i < |records| && records[i].Record? && field != ""
      && (records[i].fieldId != "" ==> key(records[i].fieldId) == field)
      && (records[i].fieldId == "" ==> key(records[i].id) == field)
    case RawOther => false
  }

  ghost predicate LastAbout(key: string -> string, raw: Raw, i: int, field: string) {
    IsAbout(key, raw, i, field) && forall j :: j > i ==> !IsAbout(key, raw, j, field)
  }

  ghost function NamesAt(key: string -> string, raw: Raw, i: int, field: string): Names
    requires IsAbout(key, raw, i, field)
  {
    if raw.RawDict? then raw.fields[i].1 else raw.records[i].names
  }

  lemma {:induction false} FieldIndexMeaning(key: string -> string, fields: seq<(string, Names)>, field: string)
    ensures var index := FieldIndex(key, fields);
            if field in index then
              exists i :: LastAbout(key, RawDict(fields), i, field) && index[field] == NamesAt(key, RawDict(fields), i, field)
            else forall i :: !IsAbout(key, RawDict(fields), i, field)
  {
    if fields != [] {
      var n := |fields| - 1;
      FieldIndexMeaning(key, fields[..n], field);
      assert forall i :: IsAbout(key, RawDict(fields[..n]), i, field) <==> i < n && IsAbout(key, RawDict(fields), i, field);
      if key(fields[n].0) == field {
        assert LastAbout(key, RawDict(fields), n, field);
      } else if field in FieldIndex(key, fields[..n]) {
        var i :| LastAbout(key, RawDict(fields[..n]), i, field)
                 && FieldIndex(key, fields[..n])[field] == NamesAt(key, RawDict(fields[..n]), i, field);
        assert LastAbout(key, RawDict(fields), i, field);
      }
    }
  }

  lemma {:induction false} RecordIndexMeaning(key: string -> string, records: seq<Record>, field: string)
    ensures var index := RecordIndex(key, records);
            if field in index then
              exists i :: LastAbout(key, RawList(records), i, field) && index[field] == NamesAt(key, RawList(records), i, field)
            else forall i :: !IsAbout(key, RawList(records), i, field)
  {
    if records != [] {
      var n := |records| - 1;
      RecordIndexMeaning(key, records[..n], field);
      assert forall i :: IsAbout(key, RawList(records[..n]), i, field) <==> i < n && IsAbout(key, RawList(records), i, field);
      if IsAbout(key, RawList(records), n, field) {
        assert LastAbout(key, RawList(records), n, field);
      } else if field in RecordIndex(key, records[..n]) {
        var i :| LastAbout(key, RawList(records[..n]), i, field)
                 && RecordIndex(key, records[..n])[field] == NamesAt(key, RawList(records[..n]), i, field);
        assert LastAbout(key, RawList(records), i, field);
      }
    }
  }

  /** The name is asked for on behalf of a field: where the configuration was last about it, or among its defaults if it
      never was. */
  ghost predicate Asks(key: string -> string, raw: Raw, def: Entry, t: string) {
    t != "" && if exists i :: LastAbout(key, raw, i, def.fieldId)
               then exists i, s :: LastAbout(key, raw, i, def.fieldId) && Writes(NamesAt(key, raw, i, def.fieldId), s) && key(s) == t
               else exists s :: s in def.aliases && key(s) == t
  }

  lemma {:induction false} KeyedMember(key: string -> string, items: seq<string>, t: string)
    ensures t in Keyed(key, items) <==> exists s :: s in items && key(s) == t
  {
    if s :| s in items && key(s) == t {
      var i :| 0 <= i < |items| && items[i] == s;
      assert Keyed(key, items)[i] == t;
    }
  }

  lemma ListedIffWritten(key: string -> string, names: Names, fieldId: string, t: string)
    requires key("") == "" && key(fieldId) == fieldId && fieldId != "" && t != ""
    ensures t in AliasList(key, names, fieldId) <==> t == fieldId || exists s :: Writes(names, s) && key(s) == t
  {
    UnseenMember(Keyed(key, RawItems(names)), {}, t);
    KeyedMember(key, RawItems(names), t);
    forall s | s != "" ensures s in RawItems(names) <==> Writes(names, s) {
      if names.AsText? {
        PiecesMeaning(names.text, "", s);
        assert "" + names.text == names.text;
      }
    }
  }

  lemma ConfiguredAsk(key: string -> string, raw: Raw, def: Entry, t: string, i: int)
    requires LastAbout(key, raw, i, def.fieldId)
    ensures Asks(key, raw, def, t) <==> t != "" && exists s :: Writes(NamesAt(key, raw, i, def.fieldId), s) && key(s) == t
  {
    assert forall j :: LastAbout(key, raw, j, def.fieldId) ==> j == i;
  }

  lemma DefaultAsk(key: string -> string, raw: Raw, def: Entry, t: string)
    requires (forall i :: !IsAbout(key, raw, i, def.fieldId)) && key("") == ""
    ensures Asks(key, raw, def, t) <==> t != "" && exists s :: Writes(AsList(def.aliases), s) && key(s) == t
  {
  }

  lemma WantedIffAsked(key: string -> string, raw: Raw, def: Entry, t: string)
    requires key("") == "" && key(def.fieldId) == def.fieldId && def.fieldId != ""
    ensures t in Wanted(key, raw, def) <==> t == def.fieldId || Asks(key, raw, def, t)
  {
    var index := Index(key, raw);
    var names := if def.fieldId in index then index[def.fieldId] else AsList(def.aliases);
    IndexMeaning(key, raw, def.fieldId);
    if def.fieldId in index {
      var i :| LastAbout(key, raw, i, def.fieldId) && names == NamesAt(key, raw, i, def.fieldId);
      ConfiguredAsk(key, raw, def, t, i);
    } else {
      DefaultAsk(key, raw, def, t);
    }
    UnseenMember(Keyed(key, RawItems(names)), {}, t);
    if t != "" {
      ListedIffWritten(key, names, def.fieldId, t);
    }
  }

  lemma IndexMeaning(key: string -> string, raw: Raw, field: string)
    ensures var index := Index(key, raw);
            if field in index then exists i :: LastAbout(key, raw, i, field) && index[field] == NamesAt(key, raw, i, field)
            else forall i :: !IsAbout(key, raw, i, field)
  {
    match raw
    case RawDict(fields) => FieldIndexMeaning(key, fields, field);
    case RawList(records) => RecordIndexMeaning(key, records, field);
    case RawOther =>
  }

  /** A field's names: its own id, and every name asked for on its behalf that is no field's id and that is asked for on
      behalf of no earlier field. */
  lemma SanitisedByNames(key: string -> string, raw: Raw, defs: seq<Entry>, i: nat, t: string)
    requires Proper(key, defs) && Idempotent(key) && key("") == "" && i < |defs|
    ensures |Sanitised(key, raw, defs)| == |defs| && Sanitised(key, raw, defs)[i].fieldId == defs[i].fieldId
    ensures t in Sanitised(key, raw, defs)[i].aliases
            <==> t == defs[i].fieldId
                 || (Asks(key, raw, defs[i], t) && forall j :: 0 <= j < |defs| ==>
                       t != defs[j].fieldId && (j < i ==> !Asks(key, raw, defs[j], t)))
  {
    SanitisedMember(key, raw, defs, i, t);
    forall j | 0 <= j < |defs|
      ensures t in Wanted(key, raw, defs[j]) <==> t == defs[j].fieldId || Asks(key, raw, defs[j], t)
    {
      WantedIffAsked(key, raw, defs[j], t);
    }
    assert t in Ids(defs) <==> exists j :: 0 <= j < |defs| && t == defs[j].fieldId;
  }

  // ----- Looking names up -----

  function KeyedNames(key: string -> string, aliases: seq<string>): seq<string> {
    if aliases == [] then []
    else (if key(aliases[0]) == "" then [] else [key(aliases[0])]) + KeyedNames(key, aliases[1..])
  }

  /** A field is looked up to its names as keys, without the blank ones. */
  lemma {:induction false} KeyedNamesMember(key: string -> string, aliases: seq<string>, t: string)
    ensures t in KeyedNames(key, aliases) <==> t != "" && exists s :: s in aliases && key(s) == t
  {
    if aliases != [] {
      KeyedNamesMember(key, aliases[1..], t);
      if s :| s in aliases && key(s) == t {
        assert s == aliases[0] || s in aliases[1..];
      }
    }
  }

  class Lookups {
    var byAlias: map<string, string>
    var byField: map<string, seq<string>>

    /** `_alias_lookups`. */
    constructor (key: string -> string, entries: seq<Entry>)
      ensures byAlias == AliasMap(key, entries) && byField == FieldMap(key, entries)
      ensures forall t :: t in byAlias <==> exists i :: Lists(key, entries, i, t)
      ensures forall t :: t in byAlias ==> exists i :: Lists(key, entries, i, t) && byAlias[t] == Strip(entries[i].fieldId)
                                                       && forall j :: 0 <= j < i ==> !Lists(key, entries, j, t)
      ensures forall f :: f in byField <==> exists i :: 0 <= i < |entries| && key(entries[i].fieldId) == f
      ensures forall f :: f in byField ==> exists i :: FirstOf(key, entries, i, f) && byField[f] == KeyedNames(key, entries[i].aliases)
    {
      byAlias, byField := map[], map[];
      new;
      for n := 0 to |entries|
        invariant byAlias == AliasMap(key, entries[..n])
        invariant byField == FieldMap(key, entries[..n])
      {
        assert entries[..n + 1][..n] == entries[..n];
        var fieldId := Strip(entries[n].fieldId);
        var tokens := KeyedNames(key, entries[n].aliases);
        var field := key(entries[n].fieldId);
        if field !in byField {
          byField := byField[field := tokens];
        }
        if fieldId == "" {
          continue;
        }
        AddAliases(tokens, fieldId);
      }
      assert entries[..|entries|] == entries;
      forall t
        ensures t in byAlias <==> exists i :: Lists(key, entries, i, t)
        ensures t in byAlias ==> exists i :: Lists(key, entries, i, t) && byAlias[t] == Strip(entries[i].fieldId)
                                             && forall j :: 0 <= j < i ==> !Lists(key, entries, j, t)
      {
        AliasMapMeaning(key, entries, t);
      }
      forall f
        ensures f in byField <==> exists i :: 0 <= i < |entries| && key(entries[i].fieldId) == f
        ensures f in byField ==> exists i :: FirstOf(key, entries, i, f) && byField[f] == KeyedNames(key, entries[i].aliases)
      {
        FieldMapMeaning(key, entries, f);
      }
    }

    method AddAliases(tokens: seq<string>, fieldId: string)
      modifies this
      ensures byField == old(byField) && byAlias == AddNames(old(byAlias), tokens, fieldId)
    {
      for m := 0 to |tokens|
        invariant byField == old(byField) && byAlias == AddNames(old(byAlias), tokens[..m], fieldId)
      {
        assert tokens[..m + 1][..m] == tokens[..m];
        if tokens[m] !in byAlias {
          byAlias := byAlias[tokens[m] := fieldId];
        }
      }
      assert tokens[..|tokens|] == tokens;
    }
  }

  /** The i-th entry names a field and lists this token. */
  ghost predicate Lists(key: string -> string, entries: seq<Entry>, i: int, t: string) {
    0 <= i < |entries| && Strip(entries[i].fieldId) != "" && t in KeyedNames(key, entries[i].aliases)
  }

  function AddNames(m: map<string, string>, tokens: seq<string>, fieldId: string): map<string, string> {
    if tokens == [] then m
    else
      var last := tokens[|tokens| - 1];
      var before := AddNames(m, tokens[..|tokens| - 1], fieldId);
      if last in before then before else before[last := fieldId]
  }

  function AliasMap(key: string -> string, entries: seq<Entry>): map<string, string> {
    if entries == [] then map[]
    else
      var e := entries[|entries| - 1];
      var before := AliasMap(key, entries[..|entries| - 1]);
      if Strip(e.fieldId) == "" then before else AddNames(before, KeyedNames(key, e.aliases), Strip(e.fieldId))
  }

  function FieldMap(key: string -> string, entries: seq<Entry>): map<string, seq<string>> {
    if entries == [] then map[]
    else
      var e := entries[|entries| - 1];
      var before := FieldMap(key, entries[..|entries| - 1]);
      if key(e.fieldId) in before then before else before[key(e.fieldId) := KeyedNames(key, e.aliases)]
  }

  lemma {:induction false} AddNamesMeaning(m: map<string, string>, tokens: seq<string>, fieldId: string)
    ensures forall t :: t in AddNames(m, tokens, fieldId) <==> t in m || t in tokens
    ensures forall t :: t in AddNames(m, tokens, fieldId) ==> AddNames(m, tokens, fieldId)[t] == if t in m then m[t] else fieldId
  {
    if tokens != [] {
      AddNamesMeaning(m, tokens[..|tokens| - 1], fieldId);
      assert tokens == tokens[..|tokens| - 1] + [tokens[|tokens| - 1]];
    }
  }

  lemma ListsPrefix(key: string -> string, entries: seq<Entry>, t: string)
    requires entries != []
    ensures var n := |entries| - 1;
            && (forall i :: i < n ==> (Lists(key, entries[..n], i, t) <==> Lists(key, entries, i, t)))
            && !Lists(key, entries[..n], n, t)
  {
  }

  /** A token is looked up to the first field that lists it. */
  lemma {:induction false} AliasMapMeaning(key: string -> string, entries: seq<Entry>, t: string)
    ensures t in AliasMap(key, entries) <==> exists i :: Lists(key, entries, i, t)
    ensures t in AliasMap(key, entries)
            ==> exists i :: Lists(key, entries, i, t) && AliasMap(key, entries)[t] == Strip(entries[i].fieldId)
                            && forall j :: 0 <= j < i ==> !Lists(key, entries, j, t)
  {
    if entries != [] {
      var n := |entries| - 1;
      var e := entries[n];
      var before := AliasMap(key, entries[..n]);
      AliasMapMeaning(key, entries[..n], t);
      AddNamesMeaning(before, KeyedNames(key, e.aliases), Strip(e.fieldId));
      ListsPrefix(key, entries, t);
      if t in before {
        var i :| Lists(key, entries[..n], i, t) && before[t] == Strip(entries[..n][i].fieldId)
                 && forall j :: 0 <= j < i ==> !Lists(key, entries[..n], j, t);
        assert Lists(key, entries, i, t);
      } else if t in AliasMap(key, entries) {
        assert Lists(key, entries, n, t);
      }
    }
  }

  /** The i-th entry is the first of its field. */
  ghost predicate FirstOf(key: string -> string, entries: seq<Entry>, i: int, f: string) {
    0 <= i < |entries| && key(entries[i].fieldId) == f && forall j :: 0 <= j < i ==> key(entries[j].fieldId) != f
  }

  lemma FirstOfPrefix(key: string -> string, entries: seq<Entry>, f: string)
    requires entries != []
    ensures forall i :: FirstOf(key, entries[..|entries| - 1], i, f) ==> FirstOf(key, entries, i, f)
  {
    var front := entries[..|entries| - 1];
    forall i | FirstOf(key, front, i, f) ensures FirstOf(key, entries, i, f) {
      assert forall j :: 0 <= j <= i ==> front[j] == entries[j];
    }
  }

  /** A field is looked up to the names of its first entry. */
  lemma {:induction false} FieldMapMeaning(key: string -> string, entries: seq<Entry>, f: string)
    ensures f in FieldMap(key, entries) <==> exists i :: 0 <= i < |entries| && key(entries[i].fieldId) == f
    ensures f in FieldMap(key, entries)
            ==> exists i :: FirstOf(key, entries, i, f) && FieldMap(key, entries)[f] == KeyedNames(key, entries[i].aliases)
  {
    if entries != [] {
      var n := |entries| - 1;
      var before := FieldMap(key, entries[..n]);
      FieldMapMeaning(key, entries[..n], f);
      FirstOfPrefix(key, entries, f);
      assert forall j :: 0 <= j < n ==> entries[..n][j] == entries[j];
      if f in before {
        var i :| FirstOf(key, entries[..n], i, f) && before[f] == KeyedNames(key, entries[..n][i].aliases);
        assert FirstOf(key, entries, i, f) && FieldMap(key, entries)[f] == before[f];
      } else if key(entries[n].fieldId) == f {
        assert FirstOf(key, entries, n, f);
      }
    }
  }

  lemma {:induction false} KeyedNamesFixed(key: string -> string, aliases: seq<string>)
    requires forall t :: t in aliases ==> key(t) == t && t != ""
    ensures KeyedNames(key, aliases) == aliases
  {
    if aliases != [] {
      assert aliases[0] in aliases;
      KeyedNamesFixed(key, aliases[1..]);
    }
  }

  /** Every name in the sanitised table is a key. */
  lemma SanitisedTokens(key: string -> string, raw: Raw, defs: seq<Entry>, i: nat, t: string)
    requires Proper(key, defs) && Idempotent(key) && i < |defs| && |Sanitised(key, raw, defs)| == |defs|
    requires t in Sanitised(key, raw, defs)[i].aliases
    ensures key(t) == t && t != ""
  {
    SanitisedMember(key, raw, defs, i, t);
    var index := Index(key, raw);
    RequestedTokens(key, if defs[i].fieldId in index then index[defs[i].fieldId] else AsList(defs[i].aliases), defs[i].fieldId);
  }

  ghost predicate Apart(a: seq<string>, b: seq<string>) {
    forall t :: t in a ==> t !in b
  }

  /** Names are keys, fields are named, and no name is listed under two fields. */
  ghost predicate Partitioned(key: string -> string, entries: seq<Entry>) {
    && (forall i :: 0 <= i < |entries| ==> KeyedNames(key, entries[i].aliases) == entries[i].aliases
                                           && key(entries[i].fieldId) == entries[i].fieldId
                                           && Strip(entries[i].fieldId) == entries[i].fieldId && entries[i].fieldId != "")
    && (forall i, j :: 0 <= i < j < |entries| ==> Apart(entries[i].aliases, entries[j].aliases)
                                                  && entries[i].fieldId != entries[j].fieldId)
  }

  lemma SanitisedIsPartitioned(key: string -> string, raw: Raw, defs: seq<Entry>)
    requires Proper(key, defs) && Idempotent(key)
    requires forall i :: 0 <= i < |defs| ==> Strip(defs[i].fieldId) == defs[i].fieldId
    ensures Partitioned(key, Sanitised(key, raw, defs))
  {
    var out := Sanitised(key, raw, defs);
    forall i | 0 <= i < |defs|
      ensures |out| == |defs| && out[i].fieldId == defs[i].fieldId && KeyedNames(key, out[i].aliases) == out[i].aliases
    {
      SanitisedMember(key, raw, defs, i, "");
      forall s | s in out[i].aliases ensures key(s) == s && s != "" {
        SanitisedTokens(key, raw, defs, i, s);
      }
      KeyedNamesFixed(key, out[i].aliases);
    }
    GrantsFields(key, Requests(key, Index(key, raw), defs), set d | d in defs :: key(d.fieldId), {});
    forall i, j | 0 <= i < j < |out| ensures Apart(out[i].aliases, out[j].aliases) {
      forall t | t in out[i].aliases ensures t !in out[j].aliases {
        NamesArePartitioned(key, raw, defs, i, j, t);
      }
    }
  }

  lemma ListedOnce(key: string -> string, entries: seq<Entry>, i: int, j: int, t: string)
    requires Partitioned(key, entries) && Lists(key, entries, i, t) && Lists(key, entries, j, t)
    ensures i == j
  {
  }

  lemma FieldFound(key: string -> string, entries: seq<Entry>, i: int)
    requires Partitioned(key, entries) && 0 <= i < |entries|
    ensures entries[i].fieldId in FieldMap(key, entries) && FieldMap(key, entries)[entries[i].fieldId] == entries[i].aliases
  {
    var f := entries[i].fieldId;
    FieldMapMeaning(key, entries, f);
    var k :| FirstOf(key, entries, k, f) && FieldMap(key, entries)[f] == KeyedNames(key, entries[k].aliases);
    assert k == i;
  }

  lemma AliasFound(key: string -> string, entries: seq<Entry>, i: int, t: string)
    requires Partitioned(key, entries) && Lists(key, entries, i, t)
    ensures t in AliasMap(key, entries) && AliasMap(key, entries)[t] == entries[i].fieldId
  {
    AliasMapMeaning(key, entries, t);
    var k :| Lists(key, entries, k, t) && AliasMap(key, entries)[t] == Strip(entries[k].fieldId);
    ListedOnce(key, entries, i, k, t);
  }

  lemma PartitionedLookups(key: string -> string, entries: seq<Entry>, t: string, f: string)
    requires Partitioned(key, entries)
    ensures (t in AliasMap(key, entries) && AliasMap(key, entries)[t] == f)
            <==> (f in FieldMap(key, entries) && t in FieldMap(key, entries)[f])
  {
    if t in AliasMap(key, entries) && AliasMap(key, entries)[t] == f {
      AliasMapMeaning(key, entries, t);
      var i :| Lists(key, entries, i, t) && AliasMap(key, entries)[t] == Strip(entries[i].fieldId);
      FieldFound(key, entries, i);
    }
    if f in FieldMap(key, entries) && t in FieldMap(key, entries)[f] {
      FieldMapMeaning(key, entries, f);
      var i :| FirstOf(key, entries, i, f) && FieldMap(key, entries)[f] == KeyedNames(key, entries[i].aliases);
      AliasFound(key, entries, i, t);
    }
  }

  /** On a sanitised table the two lookups are inverse: a name leads to a field exactly when the field lists it. */
  lemma LookupsAreInverse(key: string -> string, raw: Raw, defs: seq<Entry>, t: string, f: string)
    requires Proper(key, defs) && Idempotent(key)
    requires forall i :: 0 <= i < |defs| ==> Strip(defs[i].fieldId) == defs[i].fieldId
    ensures var out := Sanitised(key, raw, defs);
            (t in AliasMap(key, out) && AliasMap(key, out)[t] == f) <==> (f in FieldMap(key, out) && t in FieldMap(key, out)[f])
  {
    SanitisedIsPartitioned(key, raw, defs);
    PartitionedLookups(key, Sanitised(key, raw, defs), t, f);
  }

  // ----- Sanitising twice -----

  /** The table as it is stored and read back: a list of records. */
  function Stored(entries: seq<Entry>): Raw {
    RawList(seq(|entries|, i requires 0 <= i < |entries| => Record(entries[i].fieldId, "", AsList(entries[i].aliases))))
  }

  lemma {:induction false} StoredIndex(key: string -> string, entries: seq<Entry>)
    requires Proper(key, entries)
    ensures var index := Index(key, Stored(entries));
            forall i :: 0 <= i < |entries| ==> entries[i].fieldId in index && index[entries[i].fieldId] == AsList(entries[i].aliases)
  {
    if entries != [] {
      var n := |entries| - 1;
      StoredIndex(key, entries[..n]);
      assert Stored(entries).records[..n] == Stored(entries[..n]).records;
      assert forall i :: 0 <= i < n ==> entries[..n][i] == entries[i];
    }
  }

  lemma WantedAgain(key: string -> string, raw: Raw, defs: seq<Entry>, i: nat)
    requires Proper(key, defs) && Idempotent(key) && i < |defs|
    ensures |Sanitised(key, raw, defs)| == |defs|
    ensures Wanted(key, Stored(Sanitised(key, raw, defs)), defs[i]) == Sanitised(key, raw, defs)[i].aliases
  {
    var out := Sanitised(key, raw, defs);
    forall j | 0 <= j < |defs| ensures |out| == |defs| && out[j].fieldId == defs[j].fieldId {
      SanitisedMember(key, raw, defs, j, "");
    }
    StoredIndex(key, out);
    var aliases := out[i].aliases;
    SanitisedMember(key, raw, defs, i, defs[i].fieldId);
    forall t | t in aliases ensures key(t) == t && t != "" {
      SanitisedTokens(key, raw, defs, i, t);
    }
    assert Keyed(key, aliases) == aliases by {
      forall k | 0 <= k < |aliases| ensures key(aliases[k]) == aliases[k] {
        assert aliases[k] in aliases;
      }
    }
    UnseenAll(aliases, {});
  }

  /** A field that would be granted all it wants. */
  ghost predicate Free(key: string -> string, e: Entry, reserved: set<string>, claimed: set<string>) {
    && Settled(key, e) && Distinct(e.aliases) && e.fieldId in e.aliases
    && forall t :: t in e.aliases ==> t !in claimed && (t in reserved ==> t == e.fieldId)
  }

  lemma FreeIsGranted(key: string -> string, e: Entry, reserved: set<string>, claimed: set<string>)
    requires Free(key, e, reserved, claimed)
    ensures Granted(key, e, reserved, claimed) == e.aliases
  {
    UnseenAll(e.aliases, claimed + (reserved - {e.fieldId}));
  }

  /** A table that is already in order is granted as it stands. */
  lemma {:induction false} GrantsFixed(key: string -> string, entries: seq<Entry>, reserved: set<string>, claimed: set<string>)
    requires forall j :: 0 <= j < |entries| ==> Free(key, entries[j], reserved, claimed)
    requires forall i, j :: 0 <= i < j < |entries| ==> Apart(entries[i].aliases, entries[j].aliases)
    ensures Grants(key, entries, reserved, claimed) == entries
    decreases |entries|
  {
    if entries != [] {
      var e, rest := entries[0], entries[1..];
      FreeIsGranted(key, e, reserved, claimed);
      RestStaysFree(key, entries, reserved, claimed);
      GrantsFixed(key, rest, reserved, claimed + set t | t in e.aliases);
      assert entries == [e] + rest;
    }
  }

  lemma RestStaysFree(key: string -> string, entries: seq<Entry>, reserved: set<string>, claimed: set<string>)
    requires entries != [] && forall j :: 0 <= j < |entries| ==> Free(key, entries[j], reserved, claimed)
    requires forall i, j :: 0 <= i < j < |entries| ==> Apart(entries[i].aliases, entries[j].aliases)
    ensures forall j :: 0 <= j < |entries[1..]| ==> Free(key, entries[1..][j], reserved, claimed + set t | t in entries[0].aliases)
  {
    forall j | 0 <= j < |entries[1..]|
      ensures Free(key, entries[1..][j], reserved, claimed + set t | t in entries[0].aliases)
    {
      StaysFree(key, entries[0], entries[j + 1], reserved, claimed);
    }
  }

  lemma StaysFree(key: string -> string, e: Entry, other: Entry, reserved: set<string>, claimed: set<string>)
    requires Free(key, other, reserved, claimed) && Apart(e.aliases, other.aliases)
    ensures Free(key, other, reserved, claimed + set t | t in e.aliases)
  {
  }

  /** Sanitising what has been sanitised changes nothing. */
  lemma SanitisingTwice(key: string -> string, raw: Raw, defs: seq<Entry>)
    requires Proper(key, defs) && Idempotent(key)
    ensures Sanitised(key, Stored(Sanitised(key, raw, defs)), defs) == Sanitised(key, raw, defs)
  {
    var out := Sanitised(key, raw, defs);
    var requests := Requests(key, Index(key, Stored(out)), defs);
    RequestsSettled(key, Stored(out), defs);
    GrantsFields(key, Requests(key, Index(key, raw), defs), set d | d in defs :: key(d.fieldId), {});
    forall j | 0 <= j < |defs| ensures requests[j] == out[j] && Free(key, out[j], Ids(defs), {}) {
      SanitisedMember(key, raw, defs, j, defs[j].fieldId);
      WantedAgain(key, raw, defs, j);
      assert Settled(key, requests[j]);
      forall t | t in out[j].aliases ensures t in Ids(defs) ==> t == out[j].fieldId {
        SanitisedMember(key, raw, defs, j, t);
      }
    }
    assert requests == out;
    forall i, j | 0 <= i < j < |out| ensures Apart(out[i].aliases, out[j].aliases) {
      forall t | t in out[i].aliases ensures t !in out[j].aliases {
        NamesArePartitioned(key, raw, defs, i, j, t);
      }
    }
    GrantsFixed(key, requests, Ids(defs), {});
  }

  /** The condition on the key function holds of the one in use. */
  lemma CanonicalKeyFits(key: string -> string)
    requires key == CanonicalKey
    ensures Idempotent(key) && key("") == ""
  {
    forall s ensures key(key(s)) == key(s) {
      CanonicalKeyIdempotent(s);
      assert key(s) == CanonicalKey(s);
    }
    assert CanonicalKey("") == KeyOf("");
  }
}
