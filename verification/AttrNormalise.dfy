/** Rewriting approval attributes to their standard names (app/services/attrs.py). */
module AttrNormalise {
  import opened AttrKeys
  import opened Approval
  import opened Filters
  import AliasTable

  // ----- Which field a name belongs to -----

  datatype Target = ToStatus | ToIdentity | ToDate | Elsewhere

  function Tokens(key: string -> string, aliases: seq<string>): set<string> {
    set a | a in aliases && key(a) != "" :: key(a)
  }

  function TargetOf(key: string -> string, groups: Aliases, name: string): Target {
    if key(name) in Tokens(key, groups.status) then ToStatus
    else if key(name) in Tokens(key, groups.identity) then ToIdentity
    else if key(name) in Tokens(key, groups.date) then ToDate
    else Elsewhere
  }

  function StandardName(t: Target): string {
    match t
    case ToStatus => "approved"
    case ToIdentity => "approved_by"
    case _ => "approved_date"
  }

  /** Every standard name is an alias of its own field and no name belongs to two fields. */
  ghost predicate Standard(key: string -> string, groups: Aliases) {
    && TargetOf(key, groups, "approved") == ToStatus
    && TargetOf(key, groups, "approved_by") == ToIdentity
    && TargetOf(key, groups, "approved_date") == ToDate
    && Tokens(key, groups.status) !! Tokens(key, groups.identity)
    && Tokens(key, groups.status) !! Tokens(key, groups.date)
    && Tokens(key, groups.identity) !! Tokens(key, groups.date)
  }

  /** The name is read for the decision. */
  predicate IsSignal(key: string -> string, inUse: Aliases, name: string) {
    TargetOf(key, inUse, name) in {ToStatus, ToIdentity}
  }

  /** In the table in use every approval field has its own name, and no other field has it. */
  ghost predicate OwnNames(key: string -> string, inUse: Aliases) {
    IsSignal(key, inUse, "approved") && IsSignal(key, inUse, "approved_by") && !IsSignal(key, inUse, "approved_date")
  }

  /** The names moved to a status or approver name are read for the decision, and those moved to the date are not. */
  ghost predicate MovesLikeRead(key: string -> string, groups: Aliases, inUse: Aliases) {
    forall name :: TargetOf(key, groups, name) != Elsewhere ==>
      (IsSignal(key, inUse, name) <==> TargetOf(key, groups, name) != ToDate)
  }

  // ----- The result -----

  /** What an attribute contributes: the items of a list, or the value itself. */
  function Spread(v: Value): seq<Value> {
    if v.VList? then v.items else [v]
  }

  /** All values given for one field, in attribute order. */
  function Kept(key: string -> string, groups: Aliases, attrs: Attrs, t: Target): seq<Value> {
    if attrs == [] then []
    else (if TargetOf(key, groups, attrs[0].0) == t then Spread(attrs[0].1) else []) + Kept(key, groups, attrs[1..], t)
  }

  function Others(key: string -> string, groups: Aliases, attrs: Attrs): Attrs {
    if attrs == [] then []
    else (if TargetOf(key, groups, attrs[0].0) == Elsewhere then [attrs[0]] else []) + Others(key, groups, attrs[1..])
  }

  function Collapse(values: seq<Value>): Value {
    if |values| == 1 then values[0] else VList(values)
  }

  function Entry(t: Target, values: seq<Value>): Attrs {
    if values == [] then [] else [(StandardName(t), Collapse(values))]
  }

  /** The derived flag is added when there is an approver but nothing under a status name. */
  predicate Derives(key: string -> string, groups: Aliases, attrs: Attrs, approved: bool) {
    Kept(key, groups, attrs, ToStatus) == [] && Kept(key, groups, attrs, ToIdentity) != [] && approved
  }

  function Normalised(key: string -> string, groups: Aliases, attrs: Attrs, approved: bool): Attrs {
    Others(key, groups, attrs)
      + Entry(ToStatus, Kept(key, groups, attrs, ToStatus))
      + Entry(ToIdentity, Kept(key, groups, attrs, ToIdentity))
      + Entry(ToDate, Kept(key, groups, attrs, ToDate))
      + if Derives(key, groups, attrs, approved) then [("approved", VBool(true))] else []
  }

  // ----- The rewriting, in place -----

  function Without(attrs: Attrs, name: string): Attrs {
    NotIn(attrs, {name})
  }

  function Has(attrs: Attrs, name: string): bool {
    exists kv :: kv in attrs && kv.0 == name
  }

  class AttrBag {
    var entries: Attrs

    constructor (attrs: Attrs)
      ensures entries == attrs
    {
      entries := attrs;
    }

    /** Remove an attribute. */
    method Pop(name: string)
      modifies this
      ensures entries == Without(old(entries), name)
    {
      var rest: Attrs := [];
      for i := 0 to |entries|
        invariant entries == old(entries)
        invariant rest == Without(entries[..i], name)
      {
        assert entries[..i + 1] == entries[..i] + [entries[i]];
        NotInLast(entries[..i], entries[i], {name});
        if entries[i].0 != name {
          rest := rest + [entries[i]];
        }
      }
      assert entries[..|entries|] == entries;
      entries := rest;
    }

    /** Set an attribute that is not there. */
    method Append(name: string, v: Value)
      requires !Has(entries, name)
      modifies this
      ensures entries == old(entries) + [(name, v)]
    {
      entries := entries + [(name, v)];
    }

    method Restore(key: string -> string, groups: Aliases, t: Target, values: seq<Value>)
      requires !Has(entries, StandardName(t))
      modifies this
      ensures entries == old(entries) + Entry(t, values)
    {
      if values != [] {
        Append(StandardName(t), Collapse(values));
      }
    }

    /** Pop every approval attribute, keeping its values by field. */
    method Gather(key: string -> string, groups: Aliases) returns (statuses: seq<Value>, identities: seq<Value>, dates: seq<Value>)
      requires IsDict(entries)
      modifies this
      ensures entries == Others(key, groups, old(entries))
      ensures statuses == Kept(key, groups, old(entries), ToStatus)
      ensures identities == Kept(key, groups, old(entries), ToIdentity)
      ensures dates == Kept(key, groups, old(entries), ToDate)
    {
      var was := entries;
      statuses, identities, dates := [], [], [];
      for n := 0 to |was|
        invariant entries == Others(key, groups, was[..n]) + was[n..]
        invariant statuses == Kept(key, groups, was[..n], ToStatus)
        invariant identities == Kept(key, groups, was[..n], ToIdentity)
        invariant dates == Kept(key, groups, was[..n], ToDate)
      {
        GatherStep(key, groups, was, n);
        var t := TargetOf(key, groups, was[n].0);
        if t != Elsewhere {
          Pop(was[n].0);
        }
        match t
        case ToStatus => statuses := statuses + Spread(was[n].1);
        case ToIdentity => identities := identities + Spread(was[n].1);
        case ToDate => dates := dates + Spread(was[n].1);
        case Elsewhere =>
      }
      assert was[..|was|] == was;
    }

    /** `_normalize_approved_fields`. The names moved are constants of the program; the decision goes by the alias table
        in use. */
    method Normalise(key: string -> string, groups: Aliases, inUse: Aliases, rules: Rules)
      requires IsDict(entries) && Standard(key, groups)
      modifies this
      ensures entries == Normalised(key, groups, old(entries), Resolve(key, old(entries), rules, inUse).approved)
    {
      ghost var was := entries;
      var decision := ResolveApproval(key, entries, rules, inUse);
      var statuses, identities, dates := Gather(key, groups);
      NamesAreFree(key, groups, was);
      Restore(key, groups, ToStatus, statuses);
      Restore(key, groups, ToIdentity, identities);
      Restore(key, groups, ToDate, dates);
      if statuses == [] && identities != [] && decision.approved {
        Append("approved", VBool(true));
      }
    }
  }

  lemma GatherStep(key: string -> string, groups: Aliases, was: Attrs, n: nat)
    requires IsDict(was) && n < |was|
    ensures forall t :: t != Elsewhere ==> Kept(key, groups, was[..n + 1], t)
                                           == Kept(key, groups, was[..n], t)
                                                + if TargetOf(key, groups, was[n].0) == t then Spread(was[n].1) else []
    ensures var left := Others(key, groups, was[..n]) + was[n..];
            (if TargetOf(key, groups, was[n].0) != Elsewhere then Without(left, was[n].0) else left)
            == Others(key, groups, was[..n + 1]) + was[n + 1..]
  {
    assert was[..n + 1] == was[..n] + [was[n]];
    forall t ensures Kept(key, groups, was[..n + 1], t)
                     == Kept(key, groups, was[..n], t) + if TargetOf(key, groups, was[n].0) == t then Spread(was[n].1) else [] {
      KeptLast(key, groups, was[..n], was[n], t);
    }
    OthersLast(key, groups, was[..n], was[n]);
    if TargetOf(key, groups, was[n].0) != Elsewhere {
      PopNext(key, groups, was, n);
    } else {
      assert was[n..] == [was[n]] + was[n + 1..];
    }
  }

  lemma {:induction false} KeptLast(key: string -> string, groups: Aliases, attrs: Attrs, kv: (string, Value), t: Target)
    ensures Kept(key, groups, attrs + [kv], t)
            == Kept(key, groups, attrs, t) + if TargetOf(key, groups, kv.0) == t then Spread(kv.1) else []
  {
    if attrs == [] {
      assert [kv][1..] == [];
    } else {
      assert (attrs + [kv])[1..] == attrs[1..] + [kv] && (attrs + [kv])[0] == attrs[0];
      KeptLast(key, groups, attrs[1..], kv, t);
      Regroup(if TargetOf(key, groups, attrs[0].0) == t then Spread(attrs[0].1) else [], Kept(key, groups, attrs[1..], t),
              if TargetOf(key, groups, kv.0) == t then Spread(kv.1) else []);
    }
  }

  lemma {:induction false} OthersLast(key: string -> string, groups: Aliases, attrs: Attrs, kv: (string, Value))
    ensures Others(key, groups, attrs + [kv])
            == Others(key, groups, attrs) + if TargetOf(key, groups, kv.0) == Elsewhere then [kv] else []
  {
    if attrs == [] {
      assert [kv][1..] == [];
    } else {
      assert (attrs + [kv])[1..] == attrs[1..] + [kv] && (attrs + [kv])[0] == attrs[0];
      OthersLast(key, groups, attrs[1..], kv);
      Regroup(if TargetOf(key, groups, attrs[0].0) == Elsewhere then [attrs[0]] else [], Others(key, groups, attrs[1..]),
              if TargetOf(key, groups, kv.0) == Elsewhere then [kv] else []);
    }
  }

  lemma {:induction false} OthersMember(key: string -> string, groups: Aliases, attrs: Attrs, kv: (string, Value))
    ensures kv in Others(key, groups, attrs) <==> kv in attrs && TargetOf(key, groups, kv.0) == Elsewhere
  {
    if attrs != [] {
      OthersMember(key, groups, attrs[1..], kv);
    }
  }

  lemma {:induction false} NotInJoin(a: Attrs, b: Attrs, seen: set<string>)
    ensures NotIn(a + b, seen) == NotIn(a, seen) + NotIn(b, seen)
  {
    if a == [] {
      assert a + b == b;
    } else {
      assert (a + b)[1..] == a[1..] + b;
      NotInJoin(a[1..], b, seen);
    }
  }

  lemma {:induction false} NotInAbsent(attrs: Attrs, name: string)
    requires !Has(attrs, name)
    ensures Without(attrs, name) == attrs
  {
    if attrs != [] {
      assert attrs[0] in attrs;
      assert !Has(attrs[1..], name);
      NotInAbsent(attrs[1..], name);
    }
  }

  /** Popping the next attribute takes just that one out. */
  lemma PopNext(key: string -> string, groups: Aliases, was: Attrs, n: nat)
    requires IsDict(was) && n < |was| && TargetOf(key, groups, was[n].0) != Elsewhere
    ensures Without(Others(key, groups, was[..n]) + was[n..], was[n].0) == Others(key, groups, was[..n]) + was[n + 1..]
  {
    var name := was[n].0;
    var done := Others(key, groups, was[..n]);
    NoneDone(key, groups, was[..n], name);
    NotInAbsent(done, name);
    NotInJoin(done, was[n..], {name});
    NamedOnce(was, n);
  }

  lemma NoneDone(key: string -> string, groups: Aliases, attrs: Attrs, name: string)
    requires TargetOf(key, groups, name) != Elsewhere
    ensures !Has(Others(key, groups, attrs), name)
  {
    if kv :| kv in Others(key, groups, attrs) && kv.0 == name {
      OthersMember(key, groups, attrs, kv);
    }
  }

  lemma NamedOnce(was: Attrs, n: nat)
    requires IsDict(was) && n < |was|
    ensures Without(was[n..], was[n].0) == was[n + 1..]
  {
    assert was[n..][1..] == was[n + 1..];
    NotInAbsent(was[n + 1..], was[n].0);
  }

  lemma NoStandardLeft(key: string -> string, groups: Aliases, attrs: Attrs)
    requires Standard(key, groups)
    ensures forall t :: t != Elsewhere ==> !Has(Others(key, groups, attrs), StandardName(t))
  {
    forall t, kv | t != Elsewhere && kv in Others(key, groups, attrs) ensures kv.0 != StandardName(t) {
      OthersMember(key, groups, attrs, kv);
    }
  }

  // ----- The result, read off the attributes -----

  /** A list gives its items, any other value itself. */
  ghost predicate Gives(v: Value, x: Value) {
    if v.VList? then x in v.items else x == v
  }

  /** The first group a name is in: status names before approver names before date names. */
  lemma TargetMeaning(key: string -> string, groups: Aliases, name: string)
    ensures TargetOf(key, groups, name) == ToStatus <==> IsAlias(key, groups.status, name)
    ensures TargetOf(key, groups, name) == ToIdentity <==>
              IsAlias(key, groups.identity, name) && !IsAlias(key, groups.status, name)
    ensures TargetOf(key, groups, name) == ToDate <==>
              IsAlias(key, groups.date, name) && !IsAlias(key, groups.identity, name) && !IsAlias(key, groups.status, name)
  {
    TokensAreAliases(key, groups.status, name);
    TokensAreAliases(key, groups.identity, name);
    TokensAreAliases(key, groups.date, name);
  }

  /** The values kept for a field are those given under its names. */
  lemma {:induction false} KeptMember(key: string -> string, groups: Aliases, attrs: Attrs, t: Target, x: Value)
    ensures x in Kept(key, groups, attrs, t) <==>
              exists kv :: kv in attrs && TargetOf(key, groups, kv.0) == t && Gives(kv.1, x)
  {
    if attrs != [] {
      KeptMember(key, groups, attrs[1..], t, x);
      if kv :| kv in attrs && TargetOf(key, groups, kv.0) == t && Gives(kv.1, x) {
        assert kv == attrs[0] || kv in attrs[1..];
      }
    }
  }

  /** A field's values as one: the value itself if there is one, a list if there are more. */
  ghost predicate IsOneOrList(values: seq<Value>, v: Value) {
    if |values| == 1 then v == values[0] else values != [] && v == VList(values)
  }

  /** Every attribute afterwards: one that was there under no approval name, a field's values under its standard name, or
      the flag set for an approver when there was nothing under a status name. */
  lemma NormalisedMember(key: string -> string, groups: Aliases, attrs: Attrs, approved: bool, name: string, v: Value)
    ensures (name, v) in Normalised(key, groups, attrs, approved) <==>
              || ((name, v) in attrs && TargetOf(key, groups, name) == Elsewhere)
              || (name == "approved" && IsOneOrList(Kept(key, groups, attrs, ToStatus), v))
              || (name == "approved_by" && IsOneOrList(Kept(key, groups, attrs, ToIdentity), v))
              || (name == "approved_date" && IsOneOrList(Kept(key, groups, attrs, ToDate), v))
              || (name == "approved" && v == VBool(true) && approved
                  && Kept(key, groups, attrs, ToStatus) == [] && Kept(key, groups, attrs, ToIdentity) != [])
  {
    OthersMember(key, groups, attrs, (name, v));
    EntryMember(ToStatus, Kept(key, groups, attrs, ToStatus), name, v);
    EntryMember(ToIdentity, Kept(key, groups, attrs, ToIdentity), name, v);
    EntryMember(ToDate, Kept(key, groups, attrs, ToDate), name, v);
  }

  lemma EntryMember(t: Target, values: seq<Value>, name: string, v: Value)
    ensures (name, v) in Entry(t, values) <==> name == StandardName(t) && IsOneOrList(values, v)
  {
  }

  // ----- What rewriting keeps -----

  /** A leaf of some attribute stored under a status or approver name. */
  ghost predicate SignalLeaf(key: string -> string, attrs: Attrs, groups: Aliases, leaf: Value) {
    exists kv :: kv in attrs && IsSignal(key, groups, kv.0) && leaf in Flatten(kv.1)
  }

  lemma TokensAreAliases(key: string -> string, aliases: seq<string>, name: string)
    ensures IsAlias(key, aliases, name) <==> key(name) in Tokens(key, aliases)
  {
    if i :| 0 <= i < |aliases| && key(aliases[i]) == key(name) && key(name) != "" {
      assert aliases[i] in aliases;
    }
    if key(name) in Tokens(key, aliases) {
      var a :| a in aliases && key(a) != "" && key(a) == key(name);
      var i :| 0 <= i < |aliases| && aliases[i] == a;
    }
  }

  lemma SaysLeaf(key: string -> string, attrs: Attrs, groups: Aliases, rules: Rules, reading: Reading)
    ensures Says(key, attrs, rules, groups, reading)
            <==> exists leaf :: SignalLeaf(key, attrs, groups, leaf) && Read(rules, leaf) == reading
  {
    forall name ensures IsSignal(key, groups, name)
                        <==> IsAlias(key, groups.status, name) || IsAlias(key, groups.identity, name) {
      TokensAreAliases(key, groups.status, name);
      TokensAreAliases(key, groups.identity, name);
    }
    if kv, leaf :| kv in attrs && (IsAlias(key, groups.status, kv.0) || IsAlias(key, groups.identity, kv.0))
                   && leaf in Flatten(kv.1) && Read(rules, leaf) == reading {
      assert SignalLeaf(key, attrs, groups, leaf);
    }
  }

  lemma {:induction false} FlattenAllJoin(a: seq<Value>, b: seq<Value>)
    ensures FlattenAll(a + b) == FlattenAll(a) + FlattenAll(b)
  {
    if a == [] {
      assert a + b == b;
    } else {
      assert (a + b)[1..] == a[1..] + b;
      FlattenAllJoin(a[1..], b);
    }
  }

  lemma SpreadFlattens(v: Value)
    ensures FlattenAll(Spread(v)) == Flatten(v)
  {
    if !v.VList? {
      assert FlattenAll([v]) == [v] + FlattenAll([v][1..]);
    }
  }

  lemma CollapseFlattens(values: seq<Value>)
    ensures Flatten(Collapse(values)) == FlattenAll(values)
  {
    if |values| == 1 {
      assert FlattenAll(values) == Flatten(values[0]) + FlattenAll(values[1..]);
    }
  }

  lemma {:induction false} KeptLeaves(key: string -> string, groups: Aliases, attrs: Attrs, t: Target, leaf: Value)
    ensures leaf in FlattenAll(Kept(key, groups, attrs, t))
            <==> exists kv :: kv in attrs && TargetOf(key, groups, kv.0) == t && leaf in Flatten(kv.1)
  {
    if attrs != [] {
      var mine := if TargetOf(key, groups, attrs[0].0) == t then Spread(attrs[0].1) else [];
      FlattenAllJoin(mine, Kept(key, groups, attrs[1..], t));
      SpreadFlattens(attrs[0].1);
      KeptLeaves(key, groups, attrs[1..], t, leaf);
      if leaf in FlattenAll(mine) {
        assert attrs[0] in attrs && leaf in Flatten(attrs[0].1);
      }
      if kv :| kv in attrs && TargetOf(key, groups, kv.0) == t && leaf in Flatten(kv.1) {
        assert kv == attrs[0] || kv in attrs[1..];
      }
    }
  }

  lemma EntryLeaves(key: string -> string, groups: Aliases, inUse: Aliases, attrs: Attrs, t: Target, leaf: Value)
    requires t != Elsewhere
    ensures SignalLeaf(key, Entry(t, Kept(key, groups, attrs, t)), inUse, leaf)
            <==> IsSignal(key, inUse, StandardName(t))
                 && exists kv :: kv in attrs && TargetOf(key, groups, kv.0) == t && leaf in Flatten(kv.1)
  {
    var values := Kept(key, groups, attrs, t);
    CollapseFlattens(values);
    KeptLeaves(key, groups, attrs, t, leaf);
    if values != [] {
      assert Entry(t, values) == [(StandardName(t), Collapse(values))];
      assert Entry(t, values)[0] in Entry(t, values);
    }
  }

  lemma SignalLeafJoin(key: string -> string, a: Attrs, b: Attrs, groups: Aliases, leaf: Value)
    ensures SignalLeaf(key, a + b, groups, leaf) <==> SignalLeaf(key, a, groups, leaf) || SignalLeaf(key, b, groups, leaf)
  {
  }

  /** Apart from the derived flag, rewriting neither adds nor drops a leaf that is read for the decision. */
  lemma NormalisedLeaves(key: string -> string, groups: Aliases, inUse: Aliases, attrs: Attrs, approved: bool, leaf: Value)
    requires OwnNames(key, inUse) && MovesLikeRead(key, groups, inUse)
    ensures SignalLeaf(key, Normalised(key, groups, attrs, approved), inUse, leaf)
            <==> SignalLeaf(key, attrs, inUse, leaf) || (Derives(key, groups, attrs, approved) && leaf == VBool(true))
  {
    var others := Others(key, groups, attrs);
    var statuses := Entry(ToStatus, Kept(key, groups, attrs, ToStatus));
    var identities := Entry(ToIdentity, Kept(key, groups, attrs, ToIdentity));
    var dates := Entry(ToDate, Kept(key, groups, attrs, ToDate));
    var flag: Attrs := if Derives(key, groups, attrs, approved) then [("approved", VBool(true))] else [];
    SignalLeafJoin(key, others, statuses, inUse, leaf);
    SignalLeafJoin(key, others + statuses, identities, inUse, leaf);
    SignalLeafJoin(key, others + statuses + identities, dates, inUse, leaf);
    SignalLeafJoin(key, others + statuses + identities + dates, flag, inUse, leaf);
    MovedLeaves(key, groups, inUse, attrs, leaf);
    FlagLeaf(key, inUse, leaf);
  }

  /** A leaf is read where it stands exactly when it is left there and read, or moved to a name that is read. */
  lemma MovedLeaves(key: string -> string, groups: Aliases, inUse: Aliases, attrs: Attrs, leaf: Value)
    requires OwnNames(key, inUse) && MovesLikeRead(key, groups, inUse)
    ensures !SignalLeaf(key, [], inUse, leaf)
    ensures !SignalLeaf(key, Entry(ToDate, Kept(key, groups, attrs, ToDate)), inUse, leaf)
    ensures SignalLeaf(key, attrs, inUse, leaf)
            <==> SignalLeaf(key, Others(key, groups, attrs), inUse, leaf)
                 || SignalLeaf(key, Entry(ToStatus, Kept(key, groups, attrs, ToStatus)), inUse, leaf)
                 || SignalLeaf(key, Entry(ToIdentity, Kept(key, groups, attrs, ToIdentity)), inUse, leaf)
  {
    forall kv ensures kv in Others(key, groups, attrs) <==> kv in attrs && TargetOf(key, groups, kv.0) == Elsewhere {
      OthersMember(key, groups, attrs, kv);
    }
    EntryLeaves(key, groups, inUse, attrs, ToStatus, leaf);
    EntryLeaves(key, groups, inUse, attrs, ToIdentity, leaf);
    EntryLeaves(key, groups, inUse, attrs, ToDate, leaf);
  }

  lemma FlagLeaf(key: string -> string, inUse: Aliases, leaf: Value)
    requires OwnNames(key, inUse)
    ensures SignalLeaf(key, [("approved", VBool(true))], inUse, leaf) <==> leaf == VBool(true)
  {
    var flag: Attrs := [("approved", VBool(true))];
    assert flag[0] in flag && Flatten(flag[0].1) == [VBool(true)];
  }

  /** Whether a value says anything at all does not depend on the rules. */
  predicate Speaks(v: Value) {
    match v
    case VDict(_, _) => false
    case VList(_) => false
    case VBool(_) => true
    case VNumber(_, _) => true
    case VText(s) => Strip(s) != ""
    case VNone => false
    case VOther(s) => Strip(s) != ""
  }

  lemma ReadSpeaks(rules: Rules, v: Value)
    requires !v.VList?
    ensures Speaks(v) <==> Read(rules, v).Status? || Read(rules, v).Identity?
  {
    match v
    case VText(s) => TokenBlank(s);
    case VNone => assert Strip("") == "";
    case _ =>
  }

  /** Some leaf under an approval name says something. */
  ghost predicate Voiced(key: string -> string, attrs: Attrs, groups: Aliases) {
    exists leaf :: SignalLeaf(key, attrs, groups, leaf) && Speaks(leaf)
  }

  lemma SignalLeafIsLeaf(key: string -> string, attrs: Attrs, groups: Aliases, leaf: Value)
    requires SignalLeaf(key, attrs, groups, leaf)
    ensures !leaf.VList?
  {
    var kv :| kv in attrs && IsSignal(key, groups, kv.0) && leaf in Flatten(kv.1);
    FlattenLeaves(kv.1);
  }

  lemma VoicedSays(key: string -> string, attrs: Attrs, rules: Rules, groups: Aliases)
    ensures Voiced(key, attrs, groups) <==> Says(key, attrs, rules, groups, Status(false))
                                            || Says(key, attrs, rules, groups, Status(true))
                                            || Names(key, attrs, rules, groups)
  {
    forall reading ensures Says(key, attrs, rules, groups, reading)
                           <==> exists leaf :: SignalLeaf(key, attrs, groups, leaf) && Read(rules, leaf) == reading {
      SaysLeaf(key, attrs, groups, rules, reading);
    }
    forall leaf | SignalLeaf(key, attrs, groups, leaf)
      ensures Speaks(leaf) <==> Read(rules, leaf).Status? || Read(rules, leaf).Identity?
    {
      SignalLeafIsLeaf(key, attrs, groups, leaf);
      ReadSpeaks(rules, leaf);
    }
    if leaf :| SignalLeaf(key, attrs, groups, leaf) && Speaks(leaf) {
      var r := Read(rules, leaf);
      assert Says(key, attrs, rules, groups, r);
      assert r == Status(true) || r == Status(false) || r == Identity(r.name);
    }
  }

  /** Approved means: something is said and none of it says no. Only the second half depends on the rules. */
  lemma ApprovedIffVoiced(key: string -> string, attrs: Attrs, rules: Rules, groups: Aliases)
    requires IsDict(attrs)
    ensures Resolve(key, attrs, rules, groups).approved
            <==> Voiced(key, attrs, groups) && !Says(key, attrs, rules, groups, Status(false))
  {
    ApprovalClosedForm(key, attrs, rules, groups);
    VoicedSays(key, attrs, rules, groups);
  }

  lemma {:induction false} OthersIsDict(key: string -> string, groups: Aliases, attrs: Attrs)
    requires IsDict(attrs)
    ensures IsDict(Others(key, groups, attrs))
  {
    if attrs != [] {
      assert IsDict(attrs[1..]);
      OthersIsDict(key, groups, attrs[1..]);
      forall kv | kv in Others(key, groups, attrs[1..]) ensures kv.0 != attrs[0].0 {
        OthersMember(key, groups, attrs[1..], kv);
        var i :| 0 <= i < |attrs[1..]| && attrs[1..][i] == kv;
        assert attrs[i + 1] == kv;
      }
    }
  }

  lemma ExtendDict(attrs: Attrs, entry: Attrs)
    requires IsDict(attrs) && |entry| <= 1 && (entry != [] ==> !Has(attrs, entry[0].0))
    ensures IsDict(attrs + entry)
    ensures forall name :: Has(attrs + entry, name) <==> Has(attrs, name) || (entry != [] && entry[0].0 == name)
  {
    forall name ensures Has(attrs + entry, name) <==> Has(attrs, name) || (entry != [] && entry[0].0 == name) {
      if Has(attrs, name) {
        var kv :| kv in attrs && kv.0 == name;
        assert kv in attrs + entry;
      }
      if entry != [] && entry[0].0 == name {
        assert entry[0] in attrs + entry;
      }
    }
    forall i, j | 0 <= i < j < |attrs + entry| ensures (attrs + entry)[i].0 != (attrs + entry)[j].0 {
      assert attrs[i] in attrs;
    }
  }

  /** Once the approval attributes are popped, each standard name is free when it is set again. */
  lemma NamesAreFree(key: string -> string, groups: Aliases, attrs: Attrs)
    requires IsDict(attrs) && Standard(key, groups)
    ensures var others := Others(key, groups, attrs);
            var statuses := Entry(ToStatus, Kept(key, groups, attrs, ToStatus));
            var identities := Entry(ToIdentity, Kept(key, groups, attrs, ToIdentity));
            var dates := Entry(ToDate, Kept(key, groups, attrs, ToDate));
            && !Has(others, StandardName(ToStatus))
            && !Has(others + statuses, StandardName(ToIdentity))
            && !Has(others + statuses + identities, StandardName(ToDate))
            && (statuses == [] ==> !Has(others + statuses + identities + dates, StandardName(ToStatus)))
            && IsDict(others + statuses + identities + dates)
  {
    var d := Others(key, groups, attrs);
    OthersIsDict(key, groups, attrs);
    NoStandardLeft(key, groups, attrs);
    var statuses := Entry(ToStatus, Kept(key, groups, attrs, ToStatus));
    var identities := Entry(ToIdentity, Kept(key, groups, attrs, ToIdentity));
    var dates := Entry(ToDate, Kept(key, groups, attrs, ToDate));
    assert StandardName(ToStatus) == "approved" && StandardName(ToIdentity) == "approved_by" && StandardName(ToDate) == "approved_date";
    ExtendDict(d, statuses);
    ExtendDict(d + statuses, identities);
    ExtendDict(d + statuses + identities, dates);
  }

  /** The result is a dictionary again: no name twice. */
  lemma NormalisedIsDict(key: string -> string, groups: Aliases, attrs: Attrs, approved: bool)
    requires IsDict(attrs) && Standard(key, groups)
    ensures IsDict(Normalised(key, groups, attrs, approved))
  {
    NamesAreFree(key, groups, attrs);
    var most := Others(key, groups, attrs) + Entry(ToStatus, Kept(key, groups, attrs, ToStatus))
      + Entry(ToIdentity, Kept(key, groups, attrs, ToIdentity)) + Entry(ToDate, Kept(key, groups, attrs, ToDate));
    ExtendDict(most, if Derives(key, groups, attrs, approved) then [("approved", VBool(true))] else []);
  }

  /** The decision under the rules of now is the same before and after a rewriting under earlier rules. */
  ghost predicate FlagKept(key: string -> string, groups: Aliases, inUse: Aliases, attrs: Attrs, earlier: Rules, now: Rules) {
    var after := Normalised(key, groups, attrs, Resolve(key, attrs, earlier, inUse).approved);
    Resolve(key, after, now, inUse).approved == Resolve(key, attrs, now, inUse).approved
  }

  /** Rewriting under one set of rules never changes the decision, under those rules or any later ones, as long as the
      names moved are those read. */
  lemma NormalisingKeepsTheFlag(key: string -> string, groups: Aliases, inUse: Aliases, attrs: Attrs, earlier: Rules, now: Rules)
    requires IsDict(attrs) && Standard(key, groups) && OwnNames(key, inUse) && MovesLikeRead(key, groups, inUse)
    ensures FlagKept(key, groups, inUse, attrs, earlier, now)
  {
    var approved := Resolve(key, attrs, earlier, inUse).approved;
    var after := Normalised(key, groups, attrs, approved);
    NormalisedIsDict(key, groups, attrs, approved);
    ApprovedIffVoiced(key, attrs, earlier, inUse);
    ApprovedIffVoiced(key, attrs, now, inUse);
    ApprovedIffVoiced(key, after, now, inUse);
    SaysLeaf(key, attrs, inUse, now, Status(false));
    SaysLeaf(key, after, inUse, now, Status(false));
    forall leaf ensures SignalLeaf(key, after, inUse, leaf)
                        <==> SignalLeaf(key, attrs, inUse, leaf) || (Derives(key, groups, attrs, approved) && leaf == VBool(true)) {
      NormalisedLeaves(key, groups, inUse, attrs, approved, leaf);
    }
    assert Read(now, VBool(true)) == Status(true);
  }

  /** A single attribute that holds true is an approval exactly when its name is read. */
  lemma TrueAlone(key: string -> string, inUse: Aliases, name: string, rules: Rules)
    ensures IsDict([(name, VBool(true))])
    ensures Resolve(key, [(name, VBool(true))], rules, inUse).approved <==> IsSignal(key, inUse, name)
  {
    var attrs: Attrs := [(name, VBool(true))];
    ApprovedIffVoiced(key, attrs, rules, inUse);
    SaysLeaf(key, attrs, inUse, rules, Status(false));
    assert attrs[0] in attrs && Flatten(attrs[0].1) == [VBool(true)];
    assert Read(rules, VBool(true)) == Status(true) && Speaks(VBool(true));
    assert forall leaf :: SignalLeaf(key, attrs, inUse, leaf) ==> leaf == VBool(true);
    assert IsSignal(key, inUse, name) ==> SignalLeaf(key, attrs, inUse, VBool(true));
  }

  /** Rewriting moves that attribute to the standard name, and derives nothing where it is not approved. */
  lemma TrueMoved(key: string -> string, groups: Aliases, name: string, approved: bool)
    requires TargetOf(key, groups, name) != Elsewhere
    requires TargetOf(key, groups, name) == ToIdentity ==> !approved
    ensures Normalised(key, groups, [(name, VBool(true))], approved)
            == [(StandardName(TargetOf(key, groups, name)), VBool(true))]
  {
    var attrs: Attrs := [(name, VBool(true))];
    assert attrs[1..] == [];
    assert forall t :: Kept(key, groups, attrs, t) == if TargetOf(key, groups, name) == t then [VBool(true)] else [];
    assert Others(key, groups, attrs) == [];
  }

  /** A name moved and not read, or moved to the date and read, changes the decision of the part that has only it. */
  lemma MisreadChangesTheFlag(key: string -> string, groups: Aliases, inUse: Aliases, name: string, earlier: Rules, now: Rules)
    requires OwnNames(key, inUse) && TargetOf(key, groups, name) != Elsewhere
    requires IsSignal(key, inUse, name) <==> TargetOf(key, groups, name) == ToDate
    ensures IsDict([(name, VBool(true))]) && !FlagKept(key, groups, inUse, [(name, VBool(true))], earlier, now)
  {
    TrueAlone(key, inUse, name, earlier);
    TrueAlone(key, inUse, name, now);
    TrueMoved(key, groups, name, IsSignal(key, inUse, name));
    TrueAlone(key, inUse, StandardName(TargetOf(key, groups, name)), now);
  }

  /** Whatever the rules, rewriting keeps the decision for all attributes if and only if every name moved to the status
      or the approver is read for the decision in the table in use, and no name moved to the date is. */
  lemma KeepsTheFlagIff(key: string -> string, groups: Aliases, inUse: Aliases, earlier: Rules, now: Rules)
    requires Standard(key, groups) && OwnNames(key, inUse)
    ensures (forall attrs :: IsDict(attrs) ==> FlagKept(key, groups, inUse, attrs, earlier, now))
            <==> MovesLikeRead(key, groups, inUse)
  {
    if MovesLikeRead(key, groups, inUse) {
      forall attrs | IsDict(attrs) ensures FlagKept(key, groups, inUse, attrs, earlier, now) {
        NormalisingKeepsTheFlag(key, groups, inUse, attrs, earlier, now);
      }
    } else {
      var name :| TargetOf(key, groups, name) != Elsewhere
                  && !(IsSignal(key, inUse, name) <==> TargetOf(key, groups, name) != ToDate);
      MisreadChangesTheFlag(key, groups, inUse, name, earlier, now);
    }
  }

  // ----- The rest of the attributes, and the approver -----

  /** Attributes under other names are untouched and stay in order, in front. */
  lemma OthersUntouched(key: string -> string, groups: Aliases, attrs: Attrs, approved: bool)
    requires Standard(key, groups)
    ensures Others(key, groups, Normalised(key, groups, attrs, approved)) == Others(key, groups, attrs)
    ensures Others(key, groups, attrs) <= Normalised(key, groups, attrs, approved)
  {
    var others := Others(key, groups, attrs);
    var statuses := Entry(ToStatus, Kept(key, groups, attrs, ToStatus));
    var identities := Entry(ToIdentity, Kept(key, groups, attrs, ToIdentity));
    var dates := Entry(ToDate, Kept(key, groups, attrs, ToDate));
    var flag: Attrs := if Derives(key, groups, attrs, approved) then [("approved", VBool(true))] else [];
    OthersTwice(key, groups, attrs);
    OthersAdd(key, groups, others, statuses);
    OthersAdd(key, groups, others + statuses, identities);
    OthersAdd(key, groups, others + statuses + identities, dates);
    OthersAdd(key, groups, others + statuses + identities + dates, flag);
  }

  lemma OthersAdd(key: string -> string, groups: Aliases, a: Attrs, b: Attrs)
    requires forall kv :: kv in b ==> TargetOf(key, groups, kv.0) != Elsewhere
    ensures Others(key, groups, a + b) == Others(key, groups, a)
  {
    OthersJoin(key, groups, a, b);
    OthersNone(key, groups, b);
  }

  lemma {:induction false} OthersJoin(key: string -> string, groups: Aliases, a: Attrs, b: Attrs)
    ensures Others(key, groups, a + b) == Others(key, groups, a) + Others(key, groups, b)
  {
    if a == [] {
      assert a + b == b;
    } else {
      assert (a + b)[1..] == a[1..] + b;
      OthersJoin(key, groups, a[1..], b);
    }
  }

  lemma {:induction false} OthersTwice(key: string -> string, groups: Aliases, attrs: Attrs)
    ensures Others(key, groups, Others(key, groups, attrs)) == Others(key, groups, attrs)
  {
    if attrs != [] {
      OthersTwice(key, groups, attrs[1..]);
      var rest := Others(key, groups, attrs[1..]);
      if TargetOf(key, groups, attrs[0].0) == Elsewhere {
        assert Others(key, groups, attrs) == [attrs[0]] + rest;
        assert ([attrs[0]] + rest)[1..] == rest;
      } else {
        assert Others(key, groups, attrs) == rest;
      }
    }
  }

  lemma {:induction false} OthersNone(key: string -> string, groups: Aliases, attrs: Attrs)
    requires forall kv :: kv in attrs ==> TargetOf(key, groups, kv.0) != Elsewhere
    ensures Others(key, groups, attrs) == []
  {
    if attrs != [] {
      assert attrs[0] in attrs;
      OthersNone(key, groups, attrs[1..]);
    }
  }

  /** Rewriting may bring another approver to the front, but never one who was not named. When only one is named, the
      approver stays. */
  lemma ApproverWasNamed(key: string -> string, groups: Aliases, inUse: Aliases, attrs: Attrs, rules: Rules, only: string)
    requires IsDict(attrs) && Standard(key, groups) && OwnNames(key, inUse) && MovesLikeRead(key, groups, inUse)
    ensures var before := Resolve(key, attrs, rules, inUse);
            var after := Resolve(key, Normalised(key, groups, attrs, before.approved), rules, inUse);
            && (after.approvedBy == "" <==> before.approvedBy == "")
            && (after.approvedBy != "" ==> Says(key, attrs, rules, inUse, Identity(after.approvedBy)))
            && ((forall name :: Says(key, attrs, rules, inUse, Identity(name)) ==> name == only)
                ==> after.approvedBy == before.approvedBy)
  {
    var before := Resolve(key, attrs, rules, inUse);
    var norm := Normalised(key, groups, attrs, before.approved);
    NormalisedIsDict(key, groups, attrs, before.approved);
    NormalisingKeepsTheFlag(key, groups, inUse, attrs, rules, rules);
    ApproverSaid(key, attrs, rules, inUse);
    ApproverSaid(key, norm, rules, inUse);
    forall name ensures Says(key, norm, rules, inUse, Identity(name)) <==> Says(key, attrs, rules, inUse, Identity(name)) {
      NormalisedNames(key, groups, inUse, attrs, before.approved, rules, name);
    }
  }

  lemma NormalisedNames(key: string -> string, groups: Aliases, inUse: Aliases, attrs: Attrs, approved: bool, rules: Rules,
                        name: string)
    requires OwnNames(key, inUse) && MovesLikeRead(key, groups, inUse)
    ensures Says(key, Normalised(key, groups, attrs, approved), rules, inUse, Identity(name))
            <==> Says(key, attrs, rules, inUse, Identity(name))
  {
    var after := Normalised(key, groups, attrs, approved);
    SaysLeaf(key, attrs, inUse, rules, Identity(name));
    SaysLeaf(key, after, inUse, rules, Identity(name));
    forall leaf ensures SignalLeaf(key, after, inUse, leaf)
                        <==> SignalLeaf(key, attrs, inUse, leaf) || (Derives(key, groups, attrs, approved) && leaf == VBool(true)) {
      NormalisedLeaves(key, groups, inUse, attrs, approved, leaf);
    }
  }

  /** An approved part's approver is someone named, and blank only if nobody is. */
  lemma ApproverSaid(key: string -> string, attrs: Attrs, rules: Rules, groups: Aliases)
    requires IsDict(attrs)
    ensures var r := Resolve(key, attrs, rules, groups);
            && (r.approvedBy != "" ==> Says(key, attrs, rules, groups, Identity(r.approvedBy)))
            && (r.approved && r.approvedBy == "" ==> !Names(key, attrs, rules, groups))
  {
    var leaves := Leaves(Signals(key, attrs, groups));
    ApprovalClosedForm(key, attrs, rules, groups);
    AbsorbMeaning(rules, Fresh(), leaves);
    FirstNameRead(rules, leaves);
    forall name ensures Reads(rules, leaves, Identity(name)) <==> Says(key, attrs, rules, groups, Identity(name)) {
      SignalsSay(key, attrs, rules, groups, Identity(name));
    }
  }

  // ----- The default aliases -----

  function DefaultAliases(): Aliases {
    Aliases(["approved", "is_approved", "approval_status", "released"],
            ["approvedby", "approved_by", "approver", "released_by"],
            ["approveddate", "approved_date"])
  }

  lemma FixedTokens(aliases: seq<string>)
    requires forall i :: 0 <= i < |aliases| ==> IsKey(aliases[i]) && aliases[i] != ""
    ensures Tokens(CanonicalKey, aliases) == set a | a in aliases
    ensures forall i :: 0 <= i < |aliases| ==> CanonicalKey(aliases[i]) == aliases[i]
  {
    forall i | 0 <= i < |aliases| ensures CanonicalKey(aliases[i]) == aliases[i] {
      KeysAreFixed(aliases[i]);
    }
    var key: string -> string := CanonicalKey;
    forall a | a in aliases ensures key(a) == a && key(a) != "" {
      var i :| 0 <= i < |aliases| && aliases[i] == a;
    }
    assert forall a :: a in aliases ==> a in Tokens(key, aliases);
  }

  lemma TokensApart(a: seq<string>, b: seq<string>)
    requires forall i :: 0 <= i < |a| ==> IsKey(a[i]) && a[i] != ""
    requires forall i :: 0 <= i < |b| ==> IsKey(b[i]) && b[i] != ""
    requires forall i, j :: 0 <= i < |a| && 0 <= j < |b| ==> a[i] != b[j]
    ensures Tokens(CanonicalKey, a) !! Tokens(CanonicalKey, b)
  {
    FixedTokens(a);
    FixedTokens(b);
  }

  lemma OwnToken(aliases: seq<string>, i: nat)
    requires i < |aliases|
    requires forall i :: 0 <= i < |aliases| ==> IsKey(aliases[i]) && aliases[i] != ""
    ensures CanonicalKey(aliases[i]) in Tokens(CanonicalKey, aliases)
  {
    FixedTokens(aliases);
    assert aliases[i] in aliases;
  }

  lemma DefaultNames(groups: Aliases)
    requires groups == DefaultAliases()
    ensures forall i :: 0 <= i < |groups.status| ==> IsKey(groups.status[i]) && groups.status[i] != ""
    ensures forall i :: 0 <= i < |groups.identity| ==> IsKey(groups.identity[i]) && groups.identity[i] != ""
    ensures forall i :: 0 <= i < |groups.date| ==> IsKey(groups.date[i]) && groups.date[i] != ""
    ensures |groups.status| == 4 && |groups.identity| == 4 && |groups.date| == 2
    ensures groups.status[0] == "approved" && groups.identity[1] == "approved_by" && groups.date[1] == "approved_date"
  {
  }

  lemma DefaultsApart(groups: Aliases)
    requires groups == DefaultAliases()
    ensures forall i, j :: 0 <= i < |groups.status| && 0 <= j < |groups.identity| ==> groups.status[i] != groups.identity[j]
    ensures forall i, j :: 0 <= i < |groups.status| && 0 <= j < |groups.date| ==> groups.status[i] != groups.date[j]
    ensures forall i, j :: 0 <= i < |groups.identity| && 0 <= j < |groups.date| ==> groups.identity[i] != groups.date[j]
  {
    forall i, j | 0 <= i < |groups.status| && 0 <= j < |groups.identity| ensures groups.status[i] != groups.identity[j] {
      assert groups.status[i][0] != groups.identity[j][0] || groups.status[i][2] != groups.identity[j][2]
             || |groups.status[i]| != |groups.identity[j]| || groups.status[i][7] != groups.identity[j][7];
    }
  }

  /** While the table in use lists for each field what the program moves to it, moving is like reading. */
  lemma SameTableMovesLikeRead(key: string -> string, groups: Aliases)
    requires Standard(key, groups)
    ensures OwnNames(key, groups) && MovesLikeRead(key, groups, groups)
  {
  }

  /** The fixed table meets the conditions the theorems ask for, when the defaults are in use as well. */
  lemma DefaultsAreStandard(key: string -> string, groups: Aliases)
    requires groups == DefaultAliases() && key == CanonicalKey
    ensures Standard(key, groups) && OwnNames(key, groups) && MovesLikeRead(key, groups, groups)
  {
    DefaultNames(groups);
    DefaultsApart(groups);
    TokensApart(groups.status, groups.identity);
    TokensApart(groups.status, groups.date);
    TokensApart(groups.identity, groups.date);
    OwnToken(groups.status, 0);
    OwnToken(groups.identity, 1);
    OwnToken(groups.date, 1);
    SameTableMovesLikeRead(key, groups);
  }

  /** The names the program moves to each field, as keys. */
  lemma NamesMoved(key: string -> string, groups: Aliases, name: string)
    requires groups == DefaultAliases() && key == CanonicalKey
    ensures TargetOf(key, groups, name) == ToStatus <==>
              key(name) in {"approved", "is_approved", "approval_status", "released"}
    ensures TargetOf(key, groups, name) == ToIdentity <==>
              key(name) in {"approvedby", "approved_by", "approver", "released_by"}
    ensures TargetOf(key, groups, name) == ToDate <==> key(name) in {"approveddate", "approved_date"}
  {
    DefaultNames(groups);
    DefaultsApart(groups);
    TokensListed(groups, key(name));
    FixedTokens(groups.status);
    FixedTokens(groups.identity);
    FixedTokens(groups.date);
    TokensApart(groups.status, groups.identity);
    TokensApart(groups.status, groups.date);
    TokensApart(groups.identity, groups.date);
  }

  lemma TokensListed(groups: Aliases, token: string)
    requires groups == DefaultAliases()
    ensures token in groups.status <==> token in {"approved", "is_approved", "approval_status", "released"}
    ensures token in groups.identity <==> token in {"approvedby", "approved_by", "approver", "released_by"}
    ensures token in groups.date <==> token in {"approveddate", "approved_date"}
  {
  }

  /** Whatever is configured, the sanitised table gives the three approval fields their own names. */
  lemma SanitisedHasOwnNames(key: string -> string, raw: AliasTable.Raw, defs: seq<AliasTable.Entry>, i: nat, j: nat, k: nat)
    requires AliasTable.Proper(key, defs) && AliasTable.Idempotent(key) && i < |defs| && j < |defs| && k < |defs|
    requires defs[i].fieldId == "approved" && defs[j].fieldId == "approved_by" && defs[k].fieldId == "approved_date"
    ensures var table := AliasTable.Sanitised(key, raw, defs);
            |table| == |defs| && OwnNames(key, Aliases(table[i].aliases, table[j].aliases, table[k].aliases))
  {
    var table := AliasTable.Sanitised(key, raw, defs);
    AliasTable.SanitisedMember(key, raw, defs, i, "approved");
    AliasTable.SanitisedMember(key, raw, defs, j, "approved_by");
    NotListed(key, raw, defs, i, k);
    NotListed(key, raw, defs, j, k);
  }

  /** A field's own name is not among another field's. */
  lemma NotListed(key: string -> string, raw: AliasTable.Raw, defs: seq<AliasTable.Entry>, i: nat, k: nat)
    requires AliasTable.Proper(key, defs) && AliasTable.Idempotent(key) && i < |defs| && k < |defs| && i != k
    ensures |AliasTable.Sanitised(key, raw, defs)| == |defs|
    ensures key(defs[k].fieldId) !in Tokens(key, AliasTable.Sanitised(key, raw, defs)[i].aliases)
  {
    AliasTable.SanitisedMember(key, raw, defs, i, defs[k].fieldId);
    assert defs[k] in defs;
    var names := AliasTable.Sanitised(key, raw, defs)[i].aliases;
    if a :| a in names && key(a) == defs[k].fieldId {
      AliasTable.SanitisedTokens(key, raw, defs, i, a);
    }
  }

  ghost predicate AllKeys(names: seq<string>) {
    forall i :: 0 <= i < |names| ==> IsKey(names[i]) && names[i] != ""
  }

  /** In a table of canonical names a name is read exactly when it is listed for the status or the approver. */
  lemma ReadIffListed(key: string -> string, inUse: Aliases, name: string)
    requires key == CanonicalKey && AllKeys(inUse.status) && AllKeys(inUse.identity) && IsKey(name) && name != ""
    ensures IsSignal(key, inUse, name) <==> name in inUse.status || name in inUse.identity
    ensures name in inUse.status ==> TargetOf(key, inUse, name) == ToStatus
  {
    KeysAreFixed(name);
    FixedTokens(inUse.status);
    FixedTokens(inUse.identity);
  }

  /** The default table without "released" among the status names. */
  function WithoutReleased(): Aliases {
    DefaultAliases().(status := ["approved", "is_approved", "approval_status"])
  }

  lemma ReleasedUnlisted(groups: Aliases, inUse: Aliases)
    requires groups == DefaultAliases() && inUse == WithoutReleased()
    ensures inUse.identity == groups.identity && inUse.status == groups.status[..3] && groups.status[3] == "released"
    ensures "released" !in inUse.status && "approved_date" !in inUse.status
    ensures "released" !in groups.identity && "approved_date" !in groups.identity
  {
    DefaultsApart(groups);
    assert groups.status[3] == "released" && groups.date[1] == "approved_date";
  }

  lemma ApprovalKeys()
    ensures IsKey("approved") && IsKey("approved_by") && IsKey("approved_date") && IsKey("released")
  {
  }

  lemma ReleasedNames(key: string -> string, groups: Aliases, inUse: Aliases, name: string)
    requires key == CanonicalKey && groups == DefaultAliases() && inUse == WithoutReleased() && name == "released"
    ensures OwnNames(key, inUse) && TargetOf(key, groups, name) == ToStatus && !IsSignal(key, inUse, name)
  {
    DefaultNames(groups);
    ReleasedUnlisted(groups, inUse);
    ApprovalKeys();
    assert inUse.status[0] == "approved";
    ReadIffListed(key, inUse, "approved");
    ReadIffListed(key, inUse, "approved_by");
    ReadIffListed(key, inUse, "approved_date");
    ReadIffListed(key, inUse, name);
    ReadIffListed(key, groups, name);
  }

  /** With "released" taken out of the status field the program still moves it there, and so approves a part that was
      not. */
  lemma ReleasedIsMovedUnread(key: string -> string, groups: Aliases, inUse: Aliases, name: string, rules: Rules)
    requires key == CanonicalKey && groups == DefaultAliases() && inUse == WithoutReleased() && name == "released"
    ensures OwnNames(key, inUse) && !MovesLikeRead(key, groups, inUse)
    ensures !FlagKept(key, groups, inUse, [(name, VBool(true))], rules, rules)
  {
    ReleasedNames(key, groups, inUse, name);
    MisreadChangesTheFlag(key, groups, inUse, name, rules, rules);
  }
}
