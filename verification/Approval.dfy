/** Resolving whether a part is approved from its attributes (app/services/canonical_fields.py). */
module Approval {
  import opened Wrappers
  import opened AttrKeys
  import opened Filters

  /** An attribute value. Numbers, dictionaries and other objects carry the text they print as. */
  datatype Value =
    | VNone | VBool(b: bool) | VNumber(n: real, digits: string) | VText(text: string) | VOther(shown: string)
    | VList(items: seq<Value>) | VDict(hasEntries: bool, printed: string)

  type Attrs = seq<(string, Value)>

  datatype Rules = Rules(approved: set<string>, unapproved: set<string>, placeholders: set<string>)

  datatype Aliases = Aliases(status: seq<string>, identity: seq<string>, date: seq<string>)

  datatype Note = Note(source: string, reason: string)

  datatype Decision = Decision(approved: bool, approvedBy: string, approvedDate: string, statusSource: string,
                               identitySource: string, dateSource: string, hasSignal: bool, ambiguous: seq<Note>)

  // ----- Tokens -----

  predicate AllDashes(s: string) {
    s != [] && forall i :: 0 <= i < |s| ==> s[i] == '-'
  }

  function WordBreaks(s: string): string {
    seq(|s|, i requires 0 <= i < |s| => if s[i] == '_' || s[i] == '-' then ' ' else s[i])
  }

  function SingleSpaces(s: string): string {
    if s == [] then []
    else if !IsSpace(s[0]) then [s[0]] + SingleSpaces(s[1..])
    else if |s| > 1 && IsSpace(s[1]) then SingleSpaces(s[1..])
    else [' '] + SingleSpaces(s[1..])
  }

  /** How rules see a text: lowered, word breaks as single spaces; dashes alone are kept. */
  function TextToken(text: string): string {
    var raw := Lower(Strip(text));
    if AllDashes(raw) then raw else SingleSpaces(WordBreaks(raw))
  }

  // ----- Reading one value -----

  /** What one value says: nothing; that it cannot be read; an explicit status; or who approved. */
  datatype Reading = Nothing | Unsupported | Status(positive: bool) | Identity(name: string)

  /** The text of a value, blank for the values Python counts as false. */
  function Shown(v: Value): string {
    match v
    case VNone => ""
    case VBool(b) => if b then "True" else ""
    case VNumber(n, digits) => if n == 0.0 then "" else digits
    case VText(s) => s
    case VOther(s) => s
    case VList(_) => ""
    case VDict(hasEntries, printed) => if hasEntries then printed else ""
  }

  /** The explicit status of a value, if it has one. */
  function ScalarStatus(rules: Rules, v: Value): Option<bool> {
    match v
    case VBool(b) => Some(b)
    case VNumber(n, _) => Some(n != 0.0)
    case VText(s) =>
      var token := TextToken(s);
      if token == "" then None
      else if token in rules.unapproved then Some(false)
      else if token in rules.approved then Some(true)
      else None
    case _ => None
  }

  function Read(rules: Rules, v: Value): Reading {
    if v.VDict? then (if v.hasEntries then Unsupported else Nothing)
    else
      match ScalarStatus(rules, v)
      case Some(b) => Status(b)
      case None =>
        var text := Strip(Shown(v));
        if text == "" then Nothing
        else if TextToken(text) in rules.placeholders then Status(false)
        else Identity(text)
  }

  /** The leaves of nested lists, in order. */
  function Flatten(v: Value): seq<Value> {
    if v.VList? then FlattenAll(v.items) else [v]
  }

  function FlattenAll(items: seq<Value>): seq<Value> {
    if items == [] then [] else Flatten(items[0]) + FlattenAll(items[1..])
  }

  // ----- Selecting the attributes of a field -----

  function Keys(attrs: Attrs): set<string> {
    set kv | kv in attrs :: kv.0
  }

  /** The entries under one canonical key, in attribute order. */
  function Under(key: string -> string, attrs: Attrs, token: string): Attrs {
    if attrs == [] then []
    else (if key(attrs[0].0) == token then [attrs[0]] else []) + Under(key, attrs[1..], token)
  }

  function NotIn(attrs: Attrs, seen: set<string>): Attrs {
    if attrs == [] then []
    else (if attrs[0].0 in seen then [] else [attrs[0]]) + NotIn(attrs[1..], seen)
  }

  /** Alias by alias, the entries under it that have not come up before. */
  function Selected(key: string -> string, attrs: Attrs, aliases: seq<string>, seen: set<string>): Attrs {
    if aliases == [] then []
    else if key(aliases[0]) == "" then Selected(key, attrs, aliases[1..], seen)
    else
      var here := NotIn(Under(key, attrs, key(aliases[0])), seen);
      here + Selected(key, attrs, aliases[1..], seen + Keys(here))
  }

  ghost predicate IsAlias(key: string -> string, aliases: seq<string>, name: string) {
    key(name) != "" && exists i :: 0 <= i < |aliases| && key(aliases[i]) == key(name)
  }

  ghost predicate IsDict(attrs: Attrs) {
    forall i, j :: 0 <= i < j < |attrs| ==> attrs[i].0 != attrs[j].0
  }

  lemma {:induction false} UnderMember(key: string -> string, attrs: Attrs, token: string, kv: (string, Value))
    ensures kv in Under(key, attrs, token) <==> kv in attrs && key(kv.0) == token
  {
    if attrs != [] {
      UnderMember(key, attrs[1..], token, kv);
    }
  }

  lemma {:induction false} NotInMember(attrs: Attrs, seen: set<string>, kv: (string, Value))
    ensures kv in NotIn(attrs, seen) <==> kv in attrs && kv.0 !in seen
  {
    if attrs != [] {
      NotInMember(attrs[1..], seen, kv);
    }
  }

  /** What is selected for a field is exactly the attributes stored under one of its aliases. */
  lemma {:induction false} SelectedMember(key: string -> string, attrs: Attrs, aliases: seq<string>, seen: set<string>, kv: (string, Value))
    requires IsDict(attrs)
    ensures kv in Selected(key, attrs, aliases, seen) <==> kv in attrs && IsAlias(key, aliases, kv.0) && kv.0 !in seen
    decreases |aliases|
  {
    if aliases != [] {
      var token := key(aliases[0]);
      var here := NotIn(Under(key, attrs, token), seen);
      AliasStep(key, aliases, kv.0);
      UnderMember(key, attrs, token, kv);
      NotInMember(Under(key, attrs, token), seen, kv);
      if token == "" {
        SelectedMember(key, attrs, aliases[1..], seen, kv);
      } else {
        SelectedMember(key, attrs, aliases[1..], seen + Keys(here), kv);
        if kv in attrs && kv.0 in Keys(here) {
          var other :| other in here && other.0 == kv.0;
          UnderMember(key, attrs, token, other);
          NotInMember(Under(key, attrs, token), seen, other);
        }
      }
    }
  }

  lemma AliasStep(key: string -> string, aliases: seq<string>, name: string)
    requires aliases != []
    ensures IsAlias(key, aliases, name)
            <==> (key(name) != "" && key(aliases[0]) == key(name)) || IsAlias(key, aliases[1..], name)
  {
    assert forall i :: 0 <= i < |aliases| - 1 ==> aliases[1..][i] == aliases[i + 1];
    if i :| 0 <= i < |aliases| && key(aliases[i]) == key(name) {
      assert i > 0 ==> aliases[1..][i - 1] == aliases[i];
    }
  }

  /** The index by canonical key, built once per resolution. */
  method BuildIndex(key: string -> string, attrs: Attrs) returns (index: map<string, Attrs>)
    ensures Indexes(key, index, attrs)
  {
    index := map[];
    for i := 0 to |attrs|
      invariant Indexes(key, index, attrs[..i])
    {
      var token := key(attrs[i].0);
      IndexStep(key, index, attrs[..i], attrs[i]);
      assert attrs[..i + 1] == attrs[..i] + [attrs[i]];
      index := index[token := (if token in index then index[token] else []) + [attrs[i]]];
    }
    assert attrs[..|attrs|] == attrs;
  }

  /** The index holds, under every key, the attributes under it. */
  ghost predicate Indexes(key: string -> string, index: map<string, Attrs>, attrs: Attrs) {
    forall token {:trigger Under(key, attrs, token)} :: At(index, token) == Under(key, attrs, token)
  }

  function At(index: map<string, Attrs>, token: string): Attrs {
    if token in index then index[token] else []
  }

  lemma IndexStep(key: string -> string, index: map<string, Attrs>, attrs: Attrs, kv: (string, Value))
    requires Indexes(key, index, attrs)
    ensures Indexes(key, index[key(kv.0) := At(index, key(kv.0)) + [kv]], attrs + [kv])
  {
    var next := index[key(kv.0) := At(index, key(kv.0)) + [kv]];
    forall token ensures At(next, token) == Under(key, attrs + [kv], token) {
      UnderLast(key, attrs, kv, token);
      assert At(index, token) == Under(key, attrs, token);
    }
  }

  lemma {:induction false} UnderLast(key: string -> string, attrs: Attrs, kv: (string, Value), token: string)
    ensures Under(key, attrs + [kv], token) == Under(key, attrs, token) + (if key(kv.0) == token then [kv] else [])
  {
    if attrs == [] {
      assert [kv][1..] == [];
    } else {
      assert (attrs + [kv])[1..] == attrs[1..] + [kv] && (attrs + [kv])[0] == attrs[0];
      UnderLast(key, attrs[1..], kv, token);
      Regroup(if key(attrs[0].0) == token then [attrs[0]] else [], Under(key, attrs[1..], token),
              if key(kv.0) == token then [kv] else []);
    }
  }

  lemma {:induction false} NotInLast(attrs: Attrs, kv: (string, Value), seen: set<string>)
    ensures NotIn(attrs + [kv], seen) == NotIn(attrs, seen) + (if kv.0 in seen then [] else [kv])
  {
    if attrs == [] {
      assert [kv][1..] == [];
    } else {
      assert (attrs + [kv])[1..] == attrs[1..] + [kv] && (attrs + [kv])[0] == attrs[0];
      NotInLast(attrs[1..], kv, seen);
      Regroup(if attrs[0].0 in seen then [] else [attrs[0]], NotIn(attrs[1..], seen), if kv.0 in seen then [] else [kv]);
    }
  }

  lemma {:induction false} UnderIsDict(key: string -> string, attrs: Attrs, token: string)
    requires IsDict(attrs)
    ensures IsDict(Under(key, attrs, token))
  {
    if attrs != [] {
      assert IsDict(attrs[1..]);
      UnderIsDict(key, attrs[1..], token);
      forall kv | kv in Under(key, attrs[1..], token) ensures kv.0 != attrs[0].0 {
        UnderMember(key, attrs[1..], token, kv);
        var i :| 0 <= i < |attrs[1..]| && attrs[1..][i] == kv;
        assert attrs[i + 1] == kv;
      }
    }
  }

  /** Take the entries whose key has not come up before. */
  method TakeUnseen(entries: Attrs, was: set<string>) returns (taken: Attrs, seen: set<string>)
    requires IsDict(entries)
    ensures taken == NotIn(entries, was) && seen == was + Keys(taken)
  {
    taken, seen := [], was;
    for i := 0 to |entries|
      invariant taken == NotIn(entries[..i], was) && seen == was + Keys(taken)
    {
      assert entries[..i + 1] == entries[..i] + [entries[i]];
      NotInLast(entries[..i], entries[i], was);
      if entries[i].0 in Keys(taken) {
        ghost var kv :| kv in taken && kv.0 == entries[i].0;
        NotInMember(entries[..i], was, kv);
      }
      if entries[i].0 !in seen {
        seen, taken := seen + {entries[i].0}, taken + [entries[i]];
      }
    }
    assert entries[..|entries|] == entries;
  }

  lemma SelectedStep(key: string -> string, attrs: Attrs, aliases: seq<string>, n: nat, seen: set<string>)
    requires n < |aliases|
    ensures Selected(key, attrs, aliases[n..], seen)
            == if key(aliases[n]) == "" then Selected(key, attrs, aliases[n + 1..], seen)
               else NotIn(Under(key, attrs, key(aliases[n])), seen)
                    + Selected(key, attrs, aliases[n + 1..], seen + Keys(NotIn(Under(key, attrs, key(aliases[n])), seen)))
  {
    assert aliases[n..][0] == aliases[n] && aliases[n..][1..] == aliases[n + 1..];
  }

  /** `_iter_approval_values_indexed`. */
  method IterValues(key: string -> string, attrs: Attrs, index: map<string, Attrs>, aliases: seq<string>) returns (out: Attrs)
    requires IsDict(attrs)
    requires Indexes(key, index, attrs)
    ensures out == Selected(key, attrs, aliases, {})
  {
    out := [];
    var seen: set<string> := {};
    for n := 0 to |aliases|
      invariant Selected(key, attrs, aliases, {}) == out + Selected(key, attrs, aliases[n..], seen)
    {
      var token := key(aliases[n]);
      SelectedStep(key, attrs, aliases, n, seen);
      if token != "" {
        UnderIsDict(key, attrs, token);
        var taken;
        taken, seen := TakeUnseen(if token in index then index[token] else [], seen);
        Regroup(out, taken, Selected(key, attrs, aliases[n + 1..], seen));
        out := out + taken;
      }
    }
    assert aliases[|aliases|..] == [];
  }

  // ----- The scan -----

  /** The scan's flags and lists after some values. */
  datatype Scan = Scan(statuses: seq<bool>, approvedBy: string, statusSource: string, identitySource: string, ambiguous: seq<Note>)

  function Absorb(rules: Rules, s: Scan, key: string, v: Value): Scan {
    match Read(rules, v)
    case Nothing => s
    case Unsupported => s.(ambiguous := s.ambiguous + [Note(key, "unsupported_approval_value")])
    case Status(b) => s.(statuses := s.statuses + [b], statusSource := if s.statusSource == "" then key else s.statusSource)
    case Identity(name) =>
      if s.approvedBy == "" then s.(approvedBy := name, identitySource := key)
      else if Lower(s.approvedBy) != Lower(name) then s.(ambiguous := s.ambiguous + [Note(key, "conflicting_approver_identity")])
      else s
  }

  function AbsorbValues(rules: Rules, s: Scan, key: string, values: seq<Value>): Scan
    decreases |values|
  {
    if values == [] then s else AbsorbValues(rules, Absorb(rules, s, key, values[0]), key, values[1..])
  }

  function AbsorbAttrs(rules: Rules, s: Scan, attrs: Attrs): Scan
    decreases |attrs|
  {
    if attrs == [] then s
    else AbsorbAttrs(rules, AbsorbValues(rules, s, attrs[0].0, Flatten(attrs[0].1)), attrs[1..])
  }

  class ApprovalScan {
    const rules: Rules
    var statuses: seq<bool>
    var approvedBy: string
    var statusSource: string
    var identitySource: string
    var ambiguous: seq<Note>

    constructor (rules: Rules)
      ensures this.rules == rules && State() == Fresh()
    {
      this.rules := rules;
      statuses, approvedBy, statusSource, identitySource, ambiguous := [], "", "", "", [];
    }

    function State(): Scan
      reads this
    {
      Scan(statuses, approvedBy, statusSource, identitySource, ambiguous)
    }

    /** Take in one leaf value found under an attribute. */
    method Take(name: string, v: Value)
      requires !v.VList?
      modifies this
      ensures State() == Absorb(rules, old(State()), name, v)
    {
      if v.VDict? {
        if v.hasEntries {
          ambiguous := ambiguous + [Note(name, "unsupported_approval_value")];
        }
        return;
      }
      var status := ScalarStatus(rules, v);
      var text := Strip(Shown(v));
      if status.Some? {
        statuses := statuses + [status.value];
        statusSource := if statusSource == "" then name else statusSource;
      } else if text == "" {
      } else if TextToken(text) in rules.placeholders {
        statuses := statuses + [false];
        statusSource := if statusSource == "" then name else statusSource;
      } else if approvedBy == "" {
        approvedBy, identitySource := text, name;
      } else if Lower(approvedBy) != Lower(text) {
        ambiguous := ambiguous + [Note(name, "conflicting_approver_identity")];
      }
    }

    /** Take in all leaves of all selected attributes, in order. */
    method TakeAll(attrs: Attrs)
      modifies this
      ensures State() == AbsorbAttrs(rules, old(State()), attrs)
    {
      for n := 0 to |attrs|
        invariant AbsorbAttrs(rules, State(), attrs[n..]) == AbsorbAttrs(rules, old(State()), attrs)
      {
        var leaves := Flatten(attrs[n].1);
        FlattenLeaves(attrs[n].1);
        ghost var s := State();
        assert attrs[n..][0] == attrs[n] && attrs[n..][1..] == attrs[n + 1..];
        for i := 0 to |leaves|
          invariant AbsorbValues(rules, State(), attrs[n].0, leaves[i..]) == AbsorbValues(rules, s, attrs[n].0, leaves)
        {
          assert leaves[i..][0] == leaves[i] && leaves[i..][1..] == leaves[i + 1..];
          Take(attrs[n].0, leaves[i]);
        }
        assert leaves[|leaves|..] == [];
      }
      assert attrs[|attrs|..] == [];
    }
  }

  function Fresh(): Scan {
    Scan([], "", "", "", [])
  }

  lemma {:induction false} FlattenLeaves(v: Value)
    ensures forall leaf :: leaf in Flatten(v) ==> !leaf.VList?
    decreases v, 1
  {
    if v.VList? {
      FlattenAllLeaves(v.items);
    }
  }

  lemma {:induction false} FlattenAllLeaves(items: seq<Value>)
    ensures forall leaf :: leaf in FlattenAll(items) ==> !leaf.VList?
    decreases items, 0
  {
    if items != [] {
      FlattenLeaves(items[0]);
      FlattenAllLeaves(items[1..]);
    }
  }

  // ----- The decision -----

  /** The first text among the date attributes that is not blank, and where it stands. */
  function FirstDate(attrs: Attrs): (string, string) {
    if attrs == [] then ("", "")
    else
      var text := FirstText(Flatten(attrs[0].1));
      if text != "" then (text, attrs[0].0) else FirstDate(attrs[1..])
  }

  function FirstText(values: seq<Value>): string {
    if values == [] then "" else if Strip(Shown(values[0])) != "" then Strip(Shown(values[0])) else FirstText(values[1..])
  }

  /** The leaves of the selected attributes, each with the attribute it stands under. */
  function Leaves(attrs: Attrs): seq<(string, Value)> {
    if attrs == [] then [] else Tagged(attrs[0].0, Flatten(attrs[0].1)) + Leaves(attrs[1..])
  }

  function Tagged(name: string, values: seq<Value>): seq<(string, Value)> {
    seq(|values|, i requires 0 <= i < |values| => (name, values[i]))
  }

  /** The attributes the decision looks at: those of the status field, then those of the identity field. */
  function Signals(key: string -> string, attrs: Attrs, aliases: Aliases): Attrs {
    Selected(key, attrs, aliases.status, {}) + Selected(key, attrs, aliases.identity, {})
  }

  function Decide(s: Scan, date: (string, string), hasSignal: bool): Decision {
    var conflict := false in s.statuses && true in s.statuses;
    var approved := false !in s.statuses && (true in s.statuses || s.approvedBy != "");
    Decision(approved, if approved then s.approvedBy else "", date.0, s.statusSource,
             if approved then s.identitySource else "", date.1, hasSignal,
             s.ambiguous + if conflict then [Note(s.statusSource, "conflicting_approval_status")] else [])
  }

  /** `resolve_approval`, as a function of the attributes. */
  function Resolve(key: string -> string, attrs: Attrs, rules: Rules, aliases: Aliases): Decision {
    Decide(AbsorbAttrs(rules, Fresh(), Signals(key, attrs, aliases)),
           FirstDate(Selected(key, attrs, aliases.date, {})), Signals(key, attrs, aliases) != [])
  }

  method FindDate(attrs: Attrs) returns (date: (string, string))
    ensures date == FirstDate(attrs)
  {
    for n := 0 to |attrs|
      invariant FirstDate(attrs) == FirstDate(attrs[n..])
    {
      assert attrs[n..][0] == attrs[n] && attrs[n..][1..] == attrs[n + 1..];
      var leaves := Flatten(attrs[n].1);
      for i := 0 to |leaves|
        invariant FirstText(leaves) == FirstText(leaves[i..])
      {
        assert leaves[i..][0] == leaves[i] && leaves[i..][1..] == leaves[i + 1..];
        var text := Strip(Shown(leaves[i]));
        if text != "" {
          return (text, attrs[n].0);
        }
      }
      assert leaves[|leaves|..] == [];
    }
    date := ("", "");
  }

  lemma {:induction false} AbsorbJoin(rules: Rules, s: Scan, a: Attrs, b: Attrs)
    ensures AbsorbAttrs(rules, s, a + b) == AbsorbAttrs(rules, AbsorbAttrs(rules, s, a), b)
    decreases |a|
  {
    if a == [] {
      assert a + b == b;
    } else {
      assert (a + b)[1..] == a[1..] + b;
      AbsorbJoin(rules, AbsorbValues(rules, s, a[0].0, Flatten(a[0].1)), a[1..], b);
    }
  }

  // ----- The closed form -----

  /** Some leaf of an attribute stored under an approval name reads like this. */
  ghost predicate Says(key: string -> string, attrs: Attrs, rules: Rules, aliases: Aliases, reading: Reading) {
    exists kv, leaf :: kv in attrs && (IsAlias(key, aliases.status, kv.0) || IsAlias(key, aliases.identity, kv.0))
                       && leaf in Flatten(kv.1) && Read(rules, leaf) == reading
  }

  ghost predicate Names(key: string -> string, attrs: Attrs, rules: Rules, aliases: Aliases) {
    exists name :: Says(key, attrs, rules, aliases, Identity(name))
  }

  function AbsorbLeaves(rules: Rules, s: Scan, leaves: seq<(string, Value)>): Scan
    decreases |leaves|
  {
    if leaves == [] then s else AbsorbLeaves(rules, Absorb(rules, s, leaves[0].0, leaves[0].1), leaves[1..])
  }

  lemma {:induction false} LeavesJoin(rules: Rules, s: Scan, a: seq<(string, Value)>, b: seq<(string, Value)>)
    ensures AbsorbLeaves(rules, s, a + b) == AbsorbLeaves(rules, AbsorbLeaves(rules, s, a), b)
    decreases |a|
  {
    if a == [] {
      assert a + b == b;
    } else {
      assert (a + b)[1..] == a[1..] + b;
      LeavesJoin(rules, Absorb(rules, s, a[0].0, a[0].1), a[1..], b);
    }
  }

  lemma {:induction false} TaggedAbsorb(rules: Rules, s: Scan, name: string, values: seq<Value>)
    ensures AbsorbValues(rules, s, name, values) == AbsorbLeaves(rules, s, Tagged(name, values))
    decreases |values|
  {
    if values != [] {
      assert Tagged(name, values)[1..] == Tagged(name, values[1..]);
      TaggedAbsorb(rules, Absorb(rules, s, name, values[0]), name, values[1..]);
    }
  }

  lemma {:induction false} AttrsAbsorbLeaves(rules: Rules, s: Scan, attrs: Attrs)
    ensures AbsorbAttrs(rules, s, attrs) == AbsorbLeaves(rules, s, Leaves(attrs))
    decreases |attrs|
  {
    if attrs != [] {
      var first := Tagged(attrs[0].0, Flatten(attrs[0].1));
      TaggedAbsorb(rules, s, attrs[0].0, Flatten(attrs[0].1));
      AttrsAbsorbLeaves(rules, AbsorbLeaves(rules, s, first), attrs[1..]);
      LeavesJoin(rules, s, first, Leaves(attrs[1..]));
    }
  }

  ghost predicate Reads(rules: Rules, leaves: seq<(string, Value)>, reading: Reading) {
    exists i :: 0 <= i < |leaves| && Read(rules, leaves[i].1) == reading
  }

  /** The first name among the leaves, blank if none names anyone. */
  function FirstName(rules: Rules, leaves: seq<(string, Value)>): string {
    if leaves == [] then ""
    else
      var r := Read(rules, leaves[0].1);
      if r.Identity? then r.name else FirstName(rules, leaves[1..])
  }

  lemma ReadsStep(rules: Rules, leaves: seq<(string, Value)>, reading: Reading)
    requires leaves != []
    ensures Reads(rules, leaves, reading) <==> Read(rules, leaves[0].1) == reading || Reads(rules, leaves[1..], reading)
  {
    if i :| 0 <= i < |leaves| && Read(rules, leaves[i].1) == reading {
      assert i > 0 ==> leaves[1..][i - 1] == leaves[i];
    }
    if i :| 0 <= i < |leaves[1..]| && Read(rules, leaves[1..][i].1) == reading {
      assert leaves[i + 1] == leaves[1..][i];
    }
  }

  /** What a scan has learnt. */
  lemma {:induction false} AbsorbMeaning(rules: Rules, s: Scan, leaves: seq<(string, Value)>)
    ensures var r := AbsorbLeaves(rules, s, leaves);
            && (forall b :: b in r.statuses <==> b in s.statuses || Reads(rules, leaves, Status(b)))
            && r.approvedBy == (if s.approvedBy != "" then s.approvedBy else FirstName(rules, leaves))
            && (FirstName(rules, leaves) != "" <==> exists name :: Reads(rules, leaves, Identity(name)))
    decreases |leaves|
  {
    if leaves != [] {
      var rest := leaves[1..];
      AbsorbMeaning(rules, Absorb(rules, s, leaves[0].0, leaves[0].1), rest);
      forall reading ensures Reads(rules, leaves, reading) <==> Read(rules, leaves[0].1) == reading || Reads(rules, rest, reading) {
        ReadsStep(rules, leaves, reading);
      }
      if Read(rules, leaves[0].1).Identity? {
        assert Reads(rules, leaves, Identity(Read(rules, leaves[0].1).name));
      }
    } else {
      assert forall reading :: !Reads(rules, [], reading);
    }
  }

  lemma {:induction false} LeafMember(attrs: Attrs, leaf: (string, Value))
    ensures leaf in Leaves(attrs) <==> exists kv :: kv in attrs && kv.0 == leaf.0 && leaf.1 in Flatten(kv.1)
    decreases |attrs|
  {
    if attrs != [] {
      var first := Tagged(attrs[0].0, Flatten(attrs[0].1));
      LeafMember(attrs[1..], leaf);
      if leaf in first {
        assert attrs[0] in attrs && leaf.1 in Flatten(attrs[0].1);
      }
      if kv :| kv in attrs && kv.0 == leaf.0 && leaf.1 in Flatten(kv.1) {
        if kv == attrs[0] {
          var i :| 0 <= i < |Flatten(kv.1)| && Flatten(kv.1)[i] == leaf.1;
          assert first[i] == leaf;
        } else {
          assert kv in attrs[1..];
        }
      }
    }
  }

  /** The leaves the scan reads are those of the attributes stored under an approval name. */
  lemma SignalsSay(key: string -> string, attrs: Attrs, rules: Rules, aliases: Aliases, reading: Reading)
    requires IsDict(attrs)
    ensures Reads(rules, Leaves(Signals(key, attrs, aliases)), reading) <==> Says(key, attrs, rules, aliases, reading)
  {
    var signals := Signals(key, attrs, aliases);
    var leaves := Leaves(signals);
    forall kv ensures kv in signals <==> kv in attrs && (IsAlias(key, aliases.status, kv.0) || IsAlias(key, aliases.identity, kv.0)) {
      SelectedMember(key, attrs, aliases.status, {}, kv);
      SelectedMember(key, attrs, aliases.identity, {}, kv);
    }
    if i :| 0 <= i < |leaves| && Read(rules, leaves[i].1) == reading {
      LeafMember(signals, leaves[i]);
      assert leaves[i] in leaves;
      var kv :| kv in signals && kv.0 == leaves[i].0 && leaves[i].1 in Flatten(kv.1);
    }
    if kv, leaf :| kv in attrs && (IsAlias(key, aliases.status, kv.0) || IsAlias(key, aliases.identity, kv.0))
                   && leaf in Flatten(kv.1) && Read(rules, leaf) == reading {
      assert kv in signals;
      LeafMember(signals, (kv.0, leaf));
      var i :| 0 <= i < |leaves| && leaves[i] == (kv.0, leaf);
    }
  }

  /** Approved means: nothing under an approval name says no or is a placeholder, and something says yes or names a
      real approver. An unapproved part names nobody; an approved one names the first approver found, if any. */
  lemma ApprovalClosedForm(key: string -> string, attrs: Attrs, rules: Rules, aliases: Aliases)
    requires IsDict(attrs)
    ensures var r := Resolve(key, attrs, rules, aliases);
            && (r.approved <==> !Says(key, attrs, rules, aliases, Status(false))
                                && (Says(key, attrs, rules, aliases, Status(true)) || Names(key, attrs, rules, aliases)))
            && (!r.approved ==> r.approvedBy == "" && r.identitySource == "")
            && (r.approved ==> r.approvedBy == FirstName(rules, Leaves(Signals(key, attrs, aliases))))
            && (r.approved && !Says(key, attrs, rules, aliases, Status(true)) ==> r.approvedBy != "")
  {
    var leaves := Leaves(Signals(key, attrs, aliases));
    AttrsAbsorbLeaves(rules, Fresh(), Signals(key, attrs, aliases));
    AbsorbMeaning(rules, Fresh(), leaves);
    SignalsSay(key, attrs, rules, aliases, Status(true));
    SignalsSay(key, attrs, rules, aliases, Status(false));
    forall name ensures Reads(rules, leaves, Identity(name)) <==> Says(key, attrs, rules, aliases, Identity(name)) {
      SignalsSay(key, attrs, rules, aliases, Identity(name));
    }
  }

  // ----- What the leaves say, by their kind -----

  /** The leaf stands in the value, at whatever depth of lists. */
  ghost predicate Within(v: Value, leaf: Value)
    decreases v
  {
    if v.VList? then exists i :: 0 <= i < |v.items| && Within(v.items[i], leaf) else leaf == v
  }

  ghost predicate IsLeafUnder(key: string -> string, attrs: Attrs, aliases: seq<string>, leaf: Value) {
    exists kv, a :: kv in attrs && a in aliases && key(a) == key(kv.0) && key(a) != "" && Within(kv.1, leaf)
  }

  ghost predicate IsSignalLeaf(key: string -> string, attrs: Attrs, aliases: Aliases, leaf: Value) {
    IsLeafUnder(key, attrs, aliases.status, leaf) || IsLeafUnder(key, attrs, aliases.identity, leaf)
  }

  ghost predicate IsDateLeaf(key: string -> string, attrs: Attrs, aliases: Aliases, leaf: Value) {
    IsLeafUnder(key, attrs, aliases.date, leaf)
  }

  /** False, zero, a text listed as unapproved, or one not listed but a placeholder. */
  ghost predicate Denies(rules: Rules, leaf: Value) {
    match leaf
    case VBool(b) => !b
    case VNumber(n, _) => n == 0.0
    case VText(s) => TextToken(s) != "" && (TextToken(s) in rules.unapproved
                                            || (TextToken(s) in rules.placeholders && TextToken(s) !in rules.approved))
    case VOther(s) => TextToken(s) != "" && TextToken(s) in rules.placeholders
    case _ => false
  }

  /** True, a number that is not zero, or a text listed as approved and not as unapproved. */
  ghost predicate Affirms(rules: Rules, leaf: Value) {
    match leaf
    case VBool(b) => b
    case VNumber(n, _) => n != 0.0
    case VText(s) => TextToken(s) != "" && TextToken(s) in rules.approved && TextToken(s) !in rules.unapproved
    case _ => false
  }

  /** A text that is left over as a name, without the white space around it. */
  ghost predicate LeavesName(rules: Rules, leaf: Value, name: string) {
    match leaf
    case VText(s) => name == Strip(s) != "" && TextToken(s) !in rules.unapproved + rules.approved + rules.placeholders
    case VOther(s) => name == Strip(s) != "" && TextToken(s) !in rules.placeholders
    case _ => false
  }

  /** The value is not blank and prints as this text. */
  ghost predicate Prints(v: Value, text: string) {
    text != "" &&
    match v
    case VBool(b) => b && text == "True"
    case VNumber(n, digits) => n != 0.0 && text == Strip(digits)
    case VText(s) => text == Strip(s)
    case VOther(s) => text == Strip(s)
    case VDict(hasEntries, printed) => hasEntries && text == Strip(printed)
    case _ => false
  }

  lemma {:induction false} WithinIsLeaf(v: Value, leaf: Value)
    ensures leaf in Flatten(v) <==> Within(v, leaf)
    decreases v, 1
  {
    if v.VList? {
      WithinItems(v.items, leaf);
      assert Within(v, leaf) <==> exists i :: 0 <= i < |v.items| && Within(v.items[i], leaf);
    }
  }

  lemma {:induction false} WithinItems(items: seq<Value>, leaf: Value)
    ensures leaf in FlattenAll(items) <==> exists i :: 0 <= i < |items| && Within(items[i], leaf)
    decreases items, 0
  {
    if items != [] {
      WithinIsLeaf(items[0], leaf);
      WithinItems(items[1..], leaf);
      if i :| 0 <= i < |items| && Within(items[i], leaf) {
        assert i > 0 ==> items[1..][i - 1] == items[i];
      }
      if i :| 0 <= i < |items[1..]| && Within(items[1..][i], leaf) {
        assert items[i + 1] == items[1..][i];
      }
    }
  }

  lemma StripTwice(s: string)
    ensures Strip(Strip(s)) == Strip(s)
  {
    var front, back := TrimMeaning(s, IsSpace);
  }

  lemma ReadByKind(rules: Rules, leaf: Value)
    requires !leaf.VList?
    ensures Read(rules, leaf) == Status(false) <==> Denies(rules, leaf)
    ensures Read(rules, leaf) == Status(true) <==> Affirms(rules, leaf)
    ensures forall name :: Read(rules, leaf) == Identity(name) <==> LeavesName(rules, leaf, name)
  {
    match leaf
    case VText(s) =>
      StripTwice(s);
      TokenBlank(s);
    case VOther(s) =>
      StripTwice(s);
      TokenBlank(s);
    case VNone => assert Strip("") == "";
    case _ =>
  }

  lemma UnderAlias(key: string -> string, attrs: Attrs, aliases: seq<string>, leaf: Value)
    ensures IsLeafUnder(key, attrs, aliases, leaf)
            <==> exists kv :: kv in attrs && IsAlias(key, aliases, kv.0) && leaf in Flatten(kv.1)
  {
    forall kv: (string, Value) ensures leaf in Flatten(kv.1) <==> Within(kv.1, leaf) {
      WithinIsLeaf(kv.1, leaf);
    }
    if kv :| kv in attrs && IsAlias(key, aliases, kv.0) && leaf in Flatten(kv.1) {
      var i :| 0 <= i < |aliases| && key(aliases[i]) == key(kv.0);
      assert aliases[i] in aliases;
    }
    if kv, a :| kv in attrs && a in aliases && key(a) == key(kv.0) && key(a) != "" && Within(kv.1, leaf) {
      var i :| 0 <= i < |aliases| && aliases[i] == a;
    }
  }

  lemma SaysByLeaves(key: string -> string, attrs: Attrs, rules: Rules, aliases: Aliases, reading: Reading)
    ensures Says(key, attrs, rules, aliases, reading)
            <==> exists leaf :: IsSignalLeaf(key, attrs, aliases, leaf) && Read(rules, leaf) == reading
  {
    forall leaf
      ensures IsSignalLeaf(key, attrs, aliases, leaf)
              <==> exists kv :: kv in attrs && (IsAlias(key, aliases.status, kv.0) || IsAlias(key, aliases.identity, kv.0))
                                && leaf in Flatten(kv.1)
    {
      UnderAlias(key, attrs, aliases.status, leaf);
      UnderAlias(key, attrs, aliases.identity, leaf);
    }
  }

  lemma SignalIsNoList(key: string -> string, attrs: Attrs, aliases: seq<string>, leaf: Value)
    requires IsLeafUnder(key, attrs, aliases, leaf)
    ensures !leaf.VList?
  {
    UnderAlias(key, attrs, aliases, leaf);
    var kv :| kv in attrs && IsAlias(key, aliases, kv.0) && leaf in Flatten(kv.1);
    FlattenLeaves(kv.1);
  }

  /** The decision in terms of the leaves under status and approver names: approved when none denies, and some affirms
      or is left over as a name; the approver is such a name. */
  lemma ApprovalByLeaves(key: string -> string, attrs: Attrs, rules: Rules, aliases: Aliases)
    requires IsDict(attrs)
    ensures var r := Resolve(key, attrs, rules, aliases);
            && (r.approved <==> (forall leaf :: IsSignalLeaf(key, attrs, aliases, leaf) ==> !Denies(rules, leaf))
                                && (exists leaf :: IsSignalLeaf(key, attrs, aliases, leaf)
                                                   && (Affirms(rules, leaf) || exists name :: LeavesName(rules, leaf, name))))
            && (!r.approved ==> r.approvedBy == "")
            && (r.approvedBy != "" ==>
                  exists leaf :: IsSignalLeaf(key, attrs, aliases, leaf) && LeavesName(rules, leaf, r.approvedBy))
            && (r.approved && r.approvedBy == "" ==>
                  forall leaf, name :: IsSignalLeaf(key, attrs, aliases, leaf) ==> !LeavesName(rules, leaf, name))
  {
    ApprovalClosedForm(key, attrs, rules, aliases);
    forall leaf | IsSignalLeaf(key, attrs, aliases, leaf)
      ensures Read(rules, leaf) == Status(false) <==> Denies(rules, leaf)
      ensures Read(rules, leaf) == Status(true) <==> Affirms(rules, leaf)
      ensures forall name :: Read(rules, leaf) == Identity(name) <==> LeavesName(rules, leaf, name)
    {
      if IsLeafUnder(key, attrs, aliases.status, leaf) {
        SignalIsNoList(key, attrs, aliases.status, leaf);
      } else {
        SignalIsNoList(key, attrs, aliases.identity, leaf);
      }
      ReadByKind(rules, leaf);
    }
    forall reading ensures Says(key, attrs, rules, aliases, reading)
                           <==> exists leaf :: IsSignalLeaf(key, attrs, aliases, leaf) && Read(rules, leaf) == reading {
      SaysByLeaves(key, attrs, rules, aliases, reading);
    }
    ApproverIsSaid(key, attrs, rules, aliases);
  }

  /** The approver of an approved part is a name that is said, and blank only when none is. */
  lemma ApproverIsSaid(key: string -> string, attrs: Attrs, rules: Rules, aliases: Aliases)
    requires IsDict(attrs)
    ensures var r := Resolve(key, attrs, rules, aliases);
            && (r.approvedBy != "" ==> Says(key, attrs, rules, aliases, Identity(r.approvedBy)))
            && (r.approved && r.approvedBy == "" ==> !Names(key, attrs, rules, aliases))
  {
    var leaves := Leaves(Signals(key, attrs, aliases));
    ApprovalClosedForm(key, attrs, rules, aliases);
    AbsorbMeaning(rules, Fresh(), leaves);
    FirstNameRead(rules, leaves);
    forall name ensures Reads(rules, leaves, Identity(name)) <==> Says(key, attrs, rules, aliases, Identity(name)) {
      SignalsSay(key, attrs, rules, aliases, Identity(name));
    }
  }

  lemma {:induction false} FirstNameRead(rules: Rules, leaves: seq<(string, Value)>)
    ensures FirstName(rules, leaves) != "" ==> Reads(rules, leaves, Identity(FirstName(rules, leaves)))
  {
    if leaves != [] {
      ReadsStep(rules, leaves, Identity(FirstName(rules, leaves)));
      FirstNameRead(rules, leaves[1..]);
    }
  }

  /** The date is what some value under a date name prints as, and blank only when none prints anything. */
  lemma DateByLeaves(key: string -> string, attrs: Attrs, rules: Rules, aliases: Aliases)
    requires IsDict(attrs)
    ensures var date := Resolve(key, attrs, rules, aliases).approvedDate;
            if date == "" then forall leaf, text :: IsDateLeaf(key, attrs, aliases, leaf) ==> !Prints(leaf, text)
            else exists leaf :: IsDateLeaf(key, attrs, aliases, leaf) && Prints(leaf, date)
  {
    var dates := Selected(key, attrs, aliases.date, {});
    FirstDateMeaning(dates);
    forall leaf ensures IsDateLeaf(key, attrs, aliases, leaf) <==> exists kv :: kv in dates && leaf in Flatten(kv.1) {
      UnderAlias(key, attrs, aliases.date, leaf);
      forall kv ensures kv in dates <==> kv in attrs && IsAlias(key, aliases.date, kv.0) {
        SelectedMember(key, attrs, aliases.date, {}, kv);
      }
    }
  }

  lemma ShownPrints(v: Value, text: string)
    requires !v.VList?
    ensures Prints(v, text) <==> text != "" && Strip(Shown(v)) == text
  {
    assert Strip("") == "";
    assert !IsSpace("True"[0]) && !IsSpace("True"[3]);
    assert Strip("True") == "True";
  }

  lemma FirstPrints(v: Value)
    requires !v.VList?
    ensures var t := Strip(Shown(v)); if t == "" then forall text :: !Prints(v, text) else Prints(v, t)
  {
    forall text ensures Prints(v, text) ==> text != "" && Strip(Shown(v)) == text {
      ShownPrints(v, text);
    }
    ShownPrints(v, Strip(Shown(v)));
  }

  lemma {:induction false} FirstTextMeaning(values: seq<Value>)
    requires forall v :: v in values ==> !v.VList?
    ensures var t := FirstText(values);
            if t == "" then forall v, text :: v in values ==> !Prints(v, text) else exists v :: v in values && Prints(v, t)
  {
    if values != [] {
      assert values[0] in values;
      FirstTextMeaning(values[1..]);
      FirstPrints(values[0]);
      assert forall v :: v in values <==> v == values[0] || v in values[1..];
    }
  }

  lemma {:induction false} FirstDateMeaning(attrs: Attrs)
    ensures var t := FirstDate(attrs).0;
            if t == "" then forall kv, leaf, text :: kv in attrs && leaf in Flatten(kv.1) ==> !Prints(leaf, text)
            else exists kv, leaf :: kv in attrs && leaf in Flatten(kv.1) && Prints(leaf, t)
  {
    if attrs != [] {
      FlattenLeaves(attrs[0].1);
      FirstTextMeaning(Flatten(attrs[0].1));
      FirstDateMeaning(attrs[1..]);
    }
  }

  // ----- Tokens in one pass -----

  predicate IsGap(c: char) {
    c as int in {9, 10, 11, 12, 13, 32} || c == '_' || c == '-'
  }

  /** Small letters for capital ones, and one space for each run of white space, underscores and dashes. `inGap` says
      the character before belonged to one. */
  function OnePass(s: string, inGap: bool): string {
    if s == "" then ""
    else if IsGap(s[0]) then (if inGap then "" else " ") + OnePass(s[1..], true)
    else if 'A' <= s[0] <= 'Z' then ["abcdefghijklmnopqrstuvwxyz"[s[0] as int - 65]] + OnePass(s[1..], false)
    else [s[0]] + OnePass(s[1..], false)
  }

  /** A token is the text without white space around it: as it is when that is dashes only, else in one pass. */
  lemma TokenInOnePass(text: string)
    ensures var s := Strip(text);
            TextToken(text) == if forall i :: 0 <= i < |s| ==> s[i] == '-' then s else OnePass(s, false)
  {
    var s := Strip(text);
    LowerDashes(s);
    if s == "" || !AllDashes(s) {
      PassesAgree(s);
    }
  }

  lemma LowerDashes(s: string)
    ensures AllDashes(Lower(s)) <==> AllDashes(s)
    ensures AllDashes(s) ==> Lower(s) == s
  {
    assert forall i :: 0 <= i < |s| ==> (Lower(s)[i] == '-' <==> s[i] == '-');
  }

  lemma {:induction false} PassesAgree(s: string)
    ensures SingleSpaces(WordBreaks(Lower(s))) == OnePass(s, false)
    ensures s != "" && !IsGap(s[0]) ==> OnePass(s, true) == OnePass(s, false)
  {
    if s != "" {
      var t := WordBreaks(Lower(s));
      PassesAgree(s[1..]);
      assert Lower(s)[1..] == Lower(s[1..]) && t[1..] == WordBreaks(Lower(s[1..]));
      SpacesAre(t[0]);
      LowerAt(s[0]);
      if |s| > 1 {
        SpacesAre(t[1]);
        LowerAt(s[1]);
      }
    }
  }

  lemma LowerAt(c: char)
    ensures 'A' <= c <= 'Z' ==> LowerChar(c) == "abcdefghijklmnopqrstuvwxyz"[c as int - 65] && !IsGap(LowerChar(c))
    ensures !('A' <= c <= 'Z') ==> LowerChar(c) == c
  {
  }

  lemma TokenBlank(s: string)
    ensures TextToken(s) == "" <==> Strip(s) == ""
  {
    var raw := Lower(Strip(s));
    if raw != "" && !AllDashes(raw) {
      SingleSpacesBlank(WordBreaks(raw));
    }
  }

  lemma {:induction false} SingleSpacesBlank(s: string)
    ensures SingleSpaces(s) == "" <==> s == ""
  {
    if s != "" && IsSpace(s[0]) && |s| > 1 && IsSpace(s[1]) {
      SingleSpacesBlank(s[1..]);
    }
  }

  /** `resolve_approval`. */
  method ResolveApproval(key: string -> string, attrs: Attrs, rules: Rules, aliases: Aliases) returns (r: Decision)
    requires IsDict(attrs)
    ensures r == Resolve(key, attrs, rules, aliases)
    ensures r.approved <==> (forall leaf :: IsSignalLeaf(key, attrs, aliases, leaf) ==> !Denies(rules, leaf))
                            && (exists leaf :: IsSignalLeaf(key, attrs, aliases, leaf)
                                               && (Affirms(rules, leaf) || exists name :: LeavesName(rules, leaf, name)))
    ensures !r.approved ==> r.approvedBy == ""
    ensures r.approvedBy != "" ==>
              exists leaf :: IsSignalLeaf(key, attrs, aliases, leaf) && LeavesName(rules, leaf, r.approvedBy)
    ensures r.approved && r.approvedBy == "" ==>
              forall leaf, name :: IsSignalLeaf(key, attrs, aliases, leaf) ==> !LeavesName(rules, leaf, name)
    ensures if r.approvedDate == "" then forall leaf, text :: IsDateLeaf(key, attrs, aliases, leaf) ==> !Prints(leaf, text)
            else exists leaf :: IsDateLeaf(key, attrs, aliases, leaf) && Prints(leaf, r.approvedDate)
  {
    ApprovalByLeaves(key, attrs, rules, aliases);
    DateByLeaves(key, attrs, rules, aliases);
    var index := BuildIndex(key, attrs);
    var statusValues := IterValues(key, attrs, index, aliases.status);
    var identityValues := IterValues(key, attrs, index, aliases.identity);
    var dateValues := IterValues(key, attrs, index, aliases.date);
    var scan := new ApprovalScan(rules);
    scan.TakeAll(statusValues);
    scan.TakeAll(identityValues);
    AbsorbJoin(rules, Fresh(), statusValues, identityValues);
    var date := FindDate(dateValues);
    var approved := if false in scan.statuses then false else true in scan.statuses || scan.approvedBy != "";
    var conflict := false in scan.statuses && true in scan.statuses;
    r := Decision(approved, if approved then scan.approvedBy else "", date.0, scan.statusSource,
                  if approved then scan.identitySource else "", date.1, statusValues != [] || identityValues != [],
                  scan.ambiguous + if conflict then [Note(scan.statusSource, "conflicting_approval_status")] else []);
  }

  /** One negative value anywhere under an approval name settles it. */
  lemma NegativeWins(key: string -> string, attrs: Attrs, rules: Rules, aliases: Aliases, kv: (string, Value), leaf: Value)
    requires IsDict(attrs) && kv in attrs && (IsAlias(key, aliases.status, kv.0) || IsAlias(key, aliases.identity, kv.0))
    requires leaf in Flatten(kv.1) && Read(rules, leaf) == Status(false)
    ensures !Resolve(key, attrs, rules, aliases).approved
  {
    ApprovalClosedForm(key, attrs, rules, aliases);
  }

  /** Attributes that say the same things are decided alike. */
  lemma SameSayingsSameFlag(key: string -> string, a: Attrs, b: Attrs, rules: Rules, aliases: Aliases)
    requires IsDict(a) && IsDict(b)
    requires forall r :: Says(key, a, rules, aliases, r) <==> Says(key, b, rules, aliases, r)
    ensures Resolve(key, a, rules, aliases).approved == Resolve(key, b, rules, aliases).approved
  {
    ApprovalClosedForm(key, a, rules, aliases);
    ApprovalClosedForm(key, b, rules, aliases);
  }

  /** The same attributes, in any order, with the values inside lists in any order and nesting. */
  ghost predicate Rearranged(a: Attrs, b: Attrs) {
    && (forall kv {:trigger HasTwin(b, kv)} :: kv in a ==> HasTwin(b, kv))
    && (forall kv {:trigger HasTwin(a, kv)} :: kv in b ==> HasTwin(a, kv))
  }

  ghost predicate HasTwin(attrs: Attrs, kv: (string, Value)) {
    exists other :: other in attrs && other.0 == kv.0 && SameLeaves(kv.1, other.1)
  }

  ghost predicate SameLeaves(v: Value, w: Value) {
    forall leaf :: leaf in Flatten(v) <==> leaf in Flatten(w)
  }

  lemma RearrangedSays(key: string -> string, a: Attrs, b: Attrs, rules: Rules, aliases: Aliases, reading: Reading)
    requires forall kv {:trigger HasTwin(b, kv)} :: kv in a ==> HasTwin(b, kv)
    requires Says(key, a, rules, aliases, reading)
    ensures Says(key, b, rules, aliases, reading)
  {
    var kv, leaf :| kv in a && (IsAlias(key, aliases.status, kv.0) || IsAlias(key, aliases.identity, kv.0))
                    && leaf in Flatten(kv.1) && Read(rules, leaf) == reading;
    assert HasTwin(b, kv);
    var other :| other in b && other.0 == kv.0 && SameLeaves(kv.1, other.1);
    assert leaf in Flatten(other.1);
  }

  /** The flag depends on neither attribute order nor list order. */
  lemma OrderIrrelevant(key: string -> string, a: Attrs, b: Attrs, rules: Rules, aliases: Aliases)
    requires IsDict(a) && IsDict(b) && Rearranged(a, b)
    ensures Resolve(key, a, rules, aliases).approved == Resolve(key, b, rules, aliases).approved
  {
    forall r ensures Says(key, a, rules, aliases, r) <==> Says(key, b, rules, aliases, r) {
      if Says(key, a, rules, aliases, r) {
        RearrangedSays(key, a, b, rules, aliases, r);
      }
      if Says(key, b, rules, aliases, r) {
        RearrangedSays(key, b, a, rules, aliases, r);
      }
    }
    SameSayingsSameFlag(key, a, b, rules, aliases);
  }
}
