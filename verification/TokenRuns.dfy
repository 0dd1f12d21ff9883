/** Safety of token rotation and revocation over all runs of the protocol. */
module TokenRuns {
  import opened Wrappers
  import opened ApiTokens
  import opened TokenProtocol

  /** The actions can be taken one after the other. */
  ghost predicate CanRun(w: World, acts: seq<Action>)
    decreases |acts|
  {
    acts == [] || (Enabled(w, acts[0]) && CanRun(After(w, acts[0]), acts[1..]))
  }

  ghost function RunTo(w: World, acts: seq<Action>): World
    requires CanRun(w, acts)
    decreases |acts|
  {
    if acts == [] then w else RunTo(After(w, acts[0]), acts[1..])
  }

  /** On the run nobody rotates a replacement before the call that made it has returned. */
  ghost predicate Patient(w: World, acts: seq<Action>)
    requires CanRun(w, acts)
    decreases |acts|
  {
    acts == [] || (ReturnedFirst(w, acts[0]) && Patient(After(w, acts[0]), acts[1..]))
  }

  ghost predicate Reachable(w: World) {
    exists w0, acts :: Start(w0) && CanRun(w0, acts) && RunTo(w0, acts) == w
  }

  ghost predicate ReachablePatiently(w: World) {
    exists w0, acts :: Start(w0) && CanRun(w0, acts) && Patient(w0, acts) && RunTo(w0, acts) == w
  }

  ghost predicate Invariant(w: World) {
    WellFormed(w) && WinnersOk(w)
  }

  lemma {:induction false} RunKeepsInvariant(w: World, acts: seq<Action>)
    requires Invariant(w) && CanRun(w, acts)
    ensures Invariant(RunTo(w, acts))
    ensures Grows(w.store, RunTo(w, acts).store)
    ensures forall id :: id in w.winner ==> id in RunTo(w, acts).winner && RunTo(w, acts).winner[id] == w.winner[id]
    decreases |acts|
  {
    if acts != [] {
      StepGrows(w, acts[0]);
      StepKeepsWellFormed(w, acts[0]);
      StepKeepsWinners(w, acts[0]);
      RunKeepsInvariant(After(w, acts[0]), acts[1..]);
    }
  }

  lemma {:induction false} RunKeepsNoneEarly(w: World, acts: seq<Action>)
    requires WellFormed(w) && NoneEarly(w) && CanRun(w, acts) && Patient(w, acts)
    ensures NoneEarly(RunTo(w, acts))
    decreases |acts|
  {
    if acts != [] {
      StepKeepsWellFormed(w, acts[0]);
      StepKeepsNoneEarly(w, acts[0]);
      RunKeepsNoneEarly(After(w, acts[0]), acts[1..]);
    }
  }

  /** The invariant holds in every reachable world. */
  lemma ReachableInvariant(w: World)
    requires Reachable(w)
    ensures Invariant(w)
  {
    var w0, acts :| Start(w0) && CanRun(w0, acts) && RunTo(w0, acts) == w;
    RunKeepsInvariant(w0, acts);
  }

  lemma PatientInvariant(w: World)
    requires ReachablePatiently(w)
    ensures Reachable(w) && Invariant(w) && NoneEarly(w)
  {
    var w0, acts :| Start(w0) && CanRun(w0, acts) && Patient(w0, acts) && RunTo(w0, acts) == w;
    RunKeepsInvariant(w0, acts);
    RunKeepsNoneEarly(w0, acts);
  }

  // ----- Lifetimes -----

  /** A step makes no token but one that expires, after this moment and within the largest lifetime. */
  lemma MadeTokenExpires(w: World, a: Action, id: TokenId)
    requires Enabled(w, a) && id in After(w, a).store.tokens && id !in w.store.tokens
    ensures After(w, a).store.tokens[id].expires.Some? && After(w, a).store.tokens[id].revoked == None
    ensures w.now < After(w, a).store.tokens[id].expires.value <= DaysFrom(w.now, w.store.policy.maxDays)
  {
    match a
    case Make(c, days) =>
      var ask := Lifetime(days, None);
      ExpiryIsAsAsked(w.store.policy, ask, w.now, ExpiryFor(w.store.policy, ask, w.now).value);
    case Create(u, name, ask) =>
      ExpiryIsAsAsked(w.store.policy, ask, w.now, ExpiryFor(w.store.policy, ask, w.now).value);
    case _ =>
  }

  /** On every run, every token that was not there at the start was made at some step, and expires no later than that
      moment plus the largest lifetime. */
  lemma {:induction false} NewTokensExpire(w: World, acts: seq<Action>, id: TokenId) returns (k: nat)
    requires WellFormed(w) && CanRun(w, acts) && id in RunTo(w, acts).store.tokens && id !in w.store.tokens
    ensures k < |acts| && CanRun(w, acts[..k]) && CanRun(w, acts[..k + 1])
    ensures id !in RunTo(w, acts[..k]).store.tokens && id in RunTo(w, acts[..k + 1]).store.tokens
    ensures var expires := RunTo(w, acts).store.tokens[id].expires;
            && expires.Some?
            && RunTo(w, acts[..k]).now < expires.value <= DaysFrom(RunTo(w, acts[..k]).now, w.store.policy.maxDays)
    decreases |acts|
  {
    k := 0;
    assert acts != [];
    var w' := After(w, acts[0]);
    StepKeepsWellFormed(w, acts[0]);
    if id in w'.store.tokens {
      MadeTokenExpires(w, acts[0], id);
      TokenStays(w', acts[1..], id);
      assert acts[..1][0] == acts[0] && acts[..1][1..] == [] && acts[..0] == [];
    } else {
      var j := NewTokensExpire(w', acts[1..], id);
      k := j + 1;
      assert acts[..k][0] == acts[0] && acts[..k][1..] == acts[1..][..j];
      assert acts[..k + 1][0] == acts[0] && acts[..k + 1][1..] == acts[1..][..j + 1];
      SamePolicy(w, acts[0]);
    }
  }

  lemma SamePolicy(w: World, a: Action)
    requires Enabled(w, a)
    ensures After(w, a).store.policy == w.store.policy
  {
  }

  lemma {:induction false} TokenStays(w: World, acts: seq<Action>, id: TokenId)
    requires WellFormed(w) && CanRun(w, acts) && id in w.store.tokens
    ensures id in RunTo(w, acts).store.tokens && RunTo(w, acts).store.tokens[id].expires == w.store.tokens[id].expires
    decreases |acts|
  {
    if acts != [] {
      StepGrows(w, acts[0]);
      StepKeepsWellFormed(w, acts[0]);
      TokenStays(After(w, acts[0]), acts[1..], id);
    }
  }

  // ----- Rotation without interruption -----

  /** A rotation whose steps nobody comes between ends like the call: the replacement is there, live, with the owner and
      name of the token and the expiry asked for, and the token is revoked as rotated; or no step changes the tokens. */
  lemma UninterruptedRotation(w: World, c: CallId, id: TokenId, u: UserId, days: Option<int>) returns (acts: seq<Action>)
    requires WellFormed(w) && c !in w.calls && id in w.store.tokens
    ensures CanRun(w, acts) && RunTo(w, acts).calls == w.calls && RunTo(w, acts).now == w.now
    ensures var t, s' := w.store.tokens[id], RunTo(w, acts).store;
            var expiry := ExpiryFor(w.store.policy, Lifetime(days, None), w.now);
            if u in w.store.users && w.store.users[u] && u == t.owner && t.revoked == None
               && (t.expires == None || w.now < t.expires.value) && |t.name| <= 120 && expiry.Some?
            then s'.tokens == w.store.tokens[w.store.next := Token(u, t.name, expiry, None)]
                                            [id := t.(revoked := Some(Revocation(w.now, "rotated")))]
            else s'.tokens == w.store.tokens
  {
    var t := w.store.tokens[id];
    var begun := After(w, Begin(c, id, u));
    RunOne(w, Begin(c, id, u));
    RunOne(begun, Check(c));
    RunJoin(w, [Begin(c, id, u)], [Check(c)]);
    acts := [Begin(c, id, u)] + [Check(c)];
    if MayRotate(begun, begun.calls[c]) {
      var checked := After(begun, Check(c));
      assert checked == w.(calls := w.calls[c := Checked(id, t, u)]);
      var rest := RotationEnds(w, checked, c, id, u, days);
      RunJoin(w, acts, rest);
      acts := acts + rest;
    } else {
      assert (w.calls[c := Holding(id, t, u)]) - {c} == w.calls;
    }
  }

  /** The last two steps of a rotation that has been checked, or one where the replacement is refused. */
  lemma RotationEnds(w: World, checked: World, c: CallId, id: TokenId, u: UserId, days: Option<int>) returns (acts: seq<Action>)
    requires WellFormed(w) && c !in w.calls && Unrevoked(w.store, id)
    requires checked == w.(calls := w.calls[c := Checked(id, w.store.tokens[id], u)])
    ensures CanRun(checked, acts) && RunTo(checked, acts).calls == w.calls && RunTo(checked, acts).now == w.now
    ensures var t, s' := w.store.tokens[id], RunTo(checked, acts).store;
            var expiry := ExpiryFor(w.store.policy, Lifetime(days, None), w.now);
            s'.tokens == if CanCreate(w.store, u, t.name, Lifetime(days, None), w.now)
                         then w.store.tokens[w.store.next := Token(u, t.name, expiry, None)]
                                            [id := t.(revoked := Some(Revocation(w.now, "rotated")))]
                         else w.store.tokens
  {
    var made := After(checked, Make(c, days));
    RunOne(checked, Make(c, days));
    acts := [Make(c, days)];
    if CanCreate(w.store, u, w.store.tokens[id].name, Lifetime(days, None), w.now) {
      RunOne(made, Swap(c));
      RunJoin(checked, acts, [Swap(c)]);
      acts := acts + [Swap(c)];
      assert made.calls - {c} == w.calls;
    } else {
      assert checked.calls - {c} == w.calls;
    }
  }

  // ----- Rotation -----

  /** A rotation of the token is past creating its replacement and has not returned. */
  ghost predicate InFlight(w: World, id: TokenId) {
    exists c :: c in w.calls && Making(w.calls[c]) && w.calls[c].token == id
  }

  /** The token itself or a direct replacement of it. */
  ghost predicate InFamily(w: World, id: TokenId, r: TokenId) {
    r == id || (r in w.origin && w.origin[r] == id)
  }

  /** Once no rotation of a token is in flight, at most one of the token and its direct replacements is unrevoked,
      whatever steps were interleaved. */
  lemma AtMostOneOfFamily(w: World, id: TokenId, a: TokenId, b: TokenId)
    requires Reachable(w) && !InFlight(w, id)
    requires InFamily(w, id, a) && InFamily(w, id, b) && Unrevoked(w.store, a) && Unrevoked(w.store, b)
    ensures a == b
  {
    ReachableInvariant(w);
    UnrevokedReplacementWon(w, id, a);
    UnrevokedReplacementWon(w, id, b);
    if id in w.winner {
      assert WonOk(w, id);
    }
  }

  lemma MakingIsInFlight(w: World, r: TokenId)
    requires WellFormed(w) && r in w.origin
    ensures InMaking(w, r) ==> InFlight(w, w.origin[r])
  {
    if InMaking(w, r) {
      var c :| c in w.calls && Making(w.calls[c]) && w.calls[c].replacement == r;
      assert CallOk(w, w.calls[c]);
    }
  }

  lemma UnrevokedReplacementWon(w: World, id: TokenId, r: TokenId)
    requires Invariant(w) && !InFlight(w, id) && InFamily(w, id, r) && Unrevoked(w.store, r)
    ensures r == id || (id in w.winner && w.winner[id] == r)
  {
    if r != id {
      assert ReplacementOk(w, r);
      MakingIsInFlight(w, r);
    }
  }

  /** A rotation can be won only once: the winner never changes, and winning takes an unrevoked token. */
  lemma OneWinnerEver(w: World, acts: seq<Action>, id: TokenId)
    requires Reachable(w) && CanRun(w, acts) && id in w.winner
    ensures id in RunTo(w, acts).winner && RunTo(w, acts).winner[id] == w.winner[id]
    ensures !Unrevoked(RunTo(w, acts).store, id)
  {
    ReachableInvariant(w);
    RunKeepsInvariant(w, acts);
    assert WonOk(RunTo(w, acts), id);
  }

  /** A revocation's time and reason never change again. */
  lemma RevocationIsKept(w: World, acts: seq<Action>, id: TokenId)
    requires Reachable(w) && CanRun(w, acts) && id in w.store.tokens && w.store.tokens[id].revoked.Some?
    ensures id in RunTo(w, acts).store.tokens
    ensures RunTo(w, acts).store.tokens[id].revoked == w.store.tokens[id].revoked
  {
    ReachableInvariant(w);
    RunKeepsInvariant(w, acts);
  }

  // ----- Revocation -----

  /** One of the base tokens, or made by rotating such a token, in any number of steps. */
  ghost predicate Descends(w: World, base: set<TokenId>, id: TokenId)
    decreases id
  {
    id in base || (id in w.origin && w.origin[id] < id && Descends(w, base, w.origin[id]))
  }

  ghost predicate Quiet(w: World) {
    w.calls == map[]
  }

  /** No base token and nothing made by rotating one is live. */
  ghost predicate AllDead(w: World, base: set<TokenId>) {
    forall id :: Descends(w, base, id) ==> !Live(w.store, id, w.now)
  }

  /** Whatever patient callers do from here on, once every rotation call has returned, all are dead. */
  ghost predicate Final(w: World, base: set<TokenId>) {
    forall acts :: CanRun(w, acts) && Patient(w, acts) && Quiet(RunTo(w, acts)) ==> AllDead(RunTo(w, acts), base)
  }

  /** The same whatever any callers do. */
  ghost predicate FinalForAny(w: World, base: set<TokenId>) {
    forall acts :: CanRun(w, acts) && Quiet(RunTo(w, acts)) ==> AllDead(RunTo(w, acts), base)
  }

  lemma {:induction false} DescendsStays(w: World, a: Action, base: set<TokenId>, id: TokenId)
    requires WellFormed(w) && Enabled(w, a) && id in w.store.tokens
    ensures Descends(After(w, a), base, id) <==> Descends(w, base, id)
    decreases id
  {
    StepKeepsOrigins(w, a);
    if id in w.origin {
      assert OriginOk(w.store, w.origin[id], id);
      DescendsStays(w, a, base, w.origin[id]);
    } else {
      assert id !in After(w, a).origin;
    }
  }

  /** A live descendant is being made by a call that has already lost. */
  ghost predicate Doomed(w: World, id: TokenId) {
    exists c :: c in w.calls && Making(w.calls[c]) && w.calls[c].replacement == id && !Unrevoked(w.store, w.calls[c].token)
  }

  ghost predicate Contained(w: World, base: set<TokenId>) {
    && (forall id :: id in base ==> id in w.store.tokens)
    && (forall id :: Descends(w, base, id) && Live(w.store, id, w.now) ==> Doomed(w, id))
    && (forall c :: c in w.calls && w.calls[c].Checked? && Descends(w, base, w.calls[c].token) ==>
          !Unrevoked(w.store, w.calls[c].token))
  }

  lemma LiveBack(s: Store, s': Store, now: nat, now': nat, id: TokenId)
    requires Grows(s, s') && now <= now' && id in s.tokens && Live(s', id, now')
    ensures Live(s, id, now)
  {
  }

  lemma TimePasses(w: World, a: Action)
    requires Enabled(w, a)
    ensures w.now <= After(w, a).now
  {
  }

  lemma MakingStays(w: World, a: Action, c: CallId)
    requires Enabled(w, a) && c in w.calls && Making(w.calls[c]) && !Unrevoked(w.store, w.calls[c].token) && a != Undo(c)
    ensures var after := After(w, a).calls;
            c in after && Making(after[c]) && after[c].token == w.calls[c].token && after[c].replacement == w.calls[c].replacement
  {
  }

  lemma UndoKills(w: World, c: CallId)
    requires WellFormed(w) && Enabled(w, Undo(c))
    ensures !Live(After(w, Undo(c)).store, w.calls[c].replacement, After(w, Undo(c)).now)
  {
  }

  lemma DoomedStays(w: World, a: Action, id: TokenId)
    requires WellFormed(w) && Enabled(w, a) && Doomed(w, id) && Live(After(w, a).store, id, After(w, a).now)
    ensures Doomed(After(w, a), id)
  {
    var c :| c in w.calls && Making(w.calls[c]) && w.calls[c].replacement == id && !Unrevoked(w.store, w.calls[c].token);
    if a == Undo(c) {
      UndoKills(w, c);
    } else {
      StepGrows(w, a);
      MakingStays(w, a, c);
      DeadStays(w, a, c);
    }
  }

  lemma DeadStays(w: World, a: Action, c: CallId)
    requires WellFormed(w) && Enabled(w, a) && Grows(w.store, After(w, a).store) && c in w.calls
    requires !Unrevoked(w.store, w.calls[c].token)
    ensures !Unrevoked(After(w, a).store, w.calls[c].token)
  {
    assert CallOk(w, w.calls[c]);
  }

  lemma NewDescendantDoomed(w: World, a: Action, base: set<TokenId>, id: TokenId)
    requires WellFormed(w) && Enabled(w, a) && Contained(w, base)
    requires id in After(w, a).store.tokens && id !in w.store.tokens && Descends(After(w, a), base, id)
    ensures Doomed(After(w, a), id)
  {
    var w' := After(w, a);
    assert forall r :: r in w.origin ==> OriginOk(w.store, w.origin[r], r);
    assert a.Make? && id in w'.origin;
    var t := w.calls[a.c].token;
    assert CallOk(w, w.calls[a.c]);
    DescendsStays(w, a, base, t);
    assert w'.calls[a.c] == Made(t, id);
  }

  /** A call that has checked its token either had before, or does so now. */
  lemma CheckedCall(w: World, a: Action, c: CallId)
    requires Enabled(w, a) && c in After(w, a).calls && After(w, a).calls[c].Checked?
    ensures c in w.calls && w.calls[c].token == After(w, a).calls[c].token
    ensures w.calls[c].Checked? || (w.calls[c].Holding? && MayRotate(w, w.calls[c]))
  {
  }

  /** No call may rotate a token that descends from the revoked ones. */
  lemma CheckedHarmless(w: World, base: set<TokenId>, c: CallId)
    requires WellFormed(w) && NoneEarly(w) && Contained(w, base) && c in w.calls && Descends(w, base, w.calls[c].token)
    requires w.calls[c].Checked? || (w.calls[c].Holding? && MayRotate(w, w.calls[c]))
    ensures w.calls[c].token in w.store.tokens && !Unrevoked(w.store, w.calls[c].token)
  {
    var t := w.calls[c].token;
    assert CallOk(w, w.calls[c]);
    assert Doomed(w, t) ==> InMaking(w, t);
  }

  lemma CheckedStaysHarmless(w: World, a: Action, base: set<TokenId>, c: CallId)
    requires WellFormed(w) && NoneEarly(w) && Enabled(w, a) && Contained(w, base)
    requires c in After(w, a).calls && After(w, a).calls[c].Checked? && Descends(After(w, a), base, After(w, a).calls[c].token)
    ensures !Unrevoked(After(w, a).store, After(w, a).calls[c].token)
  {
    CheckedCall(w, a, c);
    assert CallOk(w, w.calls[c]);
    DescendsStays(w, a, base, w.calls[c].token);
    CheckedHarmless(w, base, c);
    StepGrows(w, a);
  }

  lemma StepKeepsContained(w: World, a: Action, base: set<TokenId>)
    requires WellFormed(w) && NoneEarly(w) && Enabled(w, a) && Contained(w, base)
    ensures Contained(After(w, a), base)
  {
    var w' := After(w, a);
    StepGrows(w, a);
    TimePasses(w, a);
    forall id | Descends(w', base, id) && Live(w'.store, id, w'.now) ensures Doomed(w', id) {
      if id in w.store.tokens {
        DescendsStays(w, a, base, id);
        LiveBack(w.store, w'.store, w.now, w'.now, id);
        DoomedStays(w, a, id);
      } else {
        NewDescendantDoomed(w, a, base, id);
      }
    }
    forall c | c in w'.calls && w'.calls[c].Checked? && Descends(w', base, w'.calls[c].token)
      ensures !Unrevoked(w'.store, w'.calls[c].token)
    {
      CheckedStaysHarmless(w, a, base, c);
    }
  }

  lemma {:induction false} ContainedIsFinalOnRun(w: World, base: set<TokenId>, acts: seq<Action>, id: TokenId)
    requires WellFormed(w) && NoneEarly(w) && Contained(w, base)
    requires CanRun(w, acts) && Patient(w, acts) && Quiet(RunTo(w, acts))
    requires Descends(RunTo(w, acts), base, id)
    ensures !Live(RunTo(w, acts).store, id, RunTo(w, acts).now)
    decreases |acts|
  {
    if acts == [] {
      assert !Doomed(w, id);
    } else {
      StepKeepsContained(w, acts[0], base);
      StepKeepsWellFormed(w, acts[0]);
      StepKeepsNoneEarly(w, acts[0]);
      ContainedIsFinalOnRun(After(w, acts[0]), base, acts[1..], id);
    }
  }

  lemma ContainedIsFinal(w: World, base: set<TokenId>)
    requires WellFormed(w) && NoneEarly(w) && Contained(w, base)
    ensures Final(w, base)
  {
    forall acts | CanRun(w, acts) && Patient(w, acts) && Quiet(RunTo(w, acts)) ensures AllDead(RunTo(w, acts), base) {
      forall id | Descends(RunTo(w, acts), base, id) ensures !Live(RunTo(w, acts).store, id, RunTo(w, acts).now) {
        ContainedIsFinalOnRun(w, base, acts, id);
      }
    }
  }

  // ----- The one way a revocation is not final -----

  /** A rotation that has checked its token but not yet made the replacement, and whose token is still unrevoked. */
  ghost predicate Exposed(w: World, base: set<TokenId>) {
    exists c :: c in w.calls && w.calls[c].Checked? && Descends(w, base, w.calls[c].token) && Unrevoked(w.store, w.calls[c].token)
  }

  /** Token names keep to their stored length, and the policy allows some lifetime. */
  ghost predicate PolicyOk(s: Store) {
    SoundPolicy(s.policy) && forall id :: id in s.tokens ==> |s.tokens[id].name| <= 120
  }

  lemma {:induction false} RunJoin(w: World, a: seq<Action>, b: seq<Action>)
    requires CanRun(w, a) && CanRun(RunTo(w, a), b)
    ensures CanRun(w, a + b) && RunTo(w, a + b) == RunTo(RunTo(w, a), b)
    ensures Patient(w, a) && Patient(RunTo(w, a), b) ==> Patient(w, a + b)
    decreases |a|
  {
    if a == [] {
      assert a + b == b;
    } else {
      assert (a + b)[1..] == a[1..] + b;
      RunJoin(After(w, a[0]), a[1..], b);
    }
  }

  lemma RunOne(w: World, a: Action)
    requires Enabled(w, a)
    ensures CanRun(w, [a]) && RunTo(w, [a]) == After(w, a)
    ensures ReturnedFirst(w, a) ==> Patient(w, [a])
  {
    assert [a][1..] == [];
  }

  /** The token is live and no call under way works on it or makes it. */
  ghost predicate Untouched(w: World, n: TokenId) {
    Live(w.store, n, w.now) && forall c :: c in w.calls ==>
      w.calls[c].token != n && (Making(w.calls[c]) ==> w.calls[c].replacement != n)
  }

  /** The next step that brings a call closer to its end. */
  ghost function Finishing(w: World, c: CallId): Action
    requires c in w.calls
  {
    match w.calls[c]
    case Holding(_, _, _) => Check(c)
    case Checked(_, _, _) => Make(c, Some(0))
    case Made(_, _) => Swap(c)
    case Lost(_, _) => Undo(c)
  }

  function StepsLeft(p: Phase): nat {
    match p
    case Holding(_, _, _) => 2
    case Checked(_, _, _) => 1
    case Made(_, _) => 2
    case Lost(_, _) => 1
  }

  lemma FinishingStep(w: World, c: CallId, n: TokenId)
    requires c in w.calls && Untouched(w, n)
    ensures var a := Finishing(w, c);
            && Enabled(w, a) && ReturnedFirst(w, a)
            && Untouched(After(w, a), n) && After(w, a).origin == w.origin
            && (After(w, a).calls == w.calls - {c}
                || (c in After(w, a).calls && After(w, a).calls.Keys == w.calls.Keys
                    && StepsLeft(After(w, a).calls[c]) < StepsLeft(w.calls[c])))
  {
  }

  /** Every call can be brought to its end without touching token n. */
  lemma {:induction false} FinishAll(w: World, n: TokenId, c: CallId) returns (acts: seq<Action>)
    requires Untouched(w, n) && (w.calls != map[] ==> c in w.calls)
    ensures CanRun(w, acts) && Patient(w, acts) && Quiet(RunTo(w, acts))
    ensures Live(RunTo(w, acts).store, n, RunTo(w, acts).now) && RunTo(w, acts).origin == w.origin
    decreases |w.calls|, if c in w.calls then StepsLeft(w.calls[c]) else 0
  {
    if w.calls == map[] {
      return [];
    }
    var a := Finishing(w, c);
    FinishingStep(w, c, n);
    var w' := After(w, a);
    var next := c;
    if c !in w'.calls {
      assert w'.calls.Keys == w.calls.Keys - {c};
      if w'.calls != map[] {
        next :| next in w'.calls;
      }
    } else {
      assert |w'.calls.Keys| == |w.calls.Keys|;
    }
    var rest := FinishAll(w', n, next);
    RunOne(w, a);
    acts := [a] + rest;
    RunJoin(w, [a], rest);
  }

  lemma {:induction false} DescendsMore(w: World, w': World, base: set<TokenId>, id: TokenId)
    requires Descends(w, base, id) && forall r :: r in w.origin ==> r in w'.origin && w'.origin[r] == w.origin[r]
    ensures Descends(w', base, id)
    decreases id
  {
    if id !in base {
      DescendsMore(w, w', base, w.origin[id]);
    }
  }

  /** The world after a checked rotation has made its replacement and won. */
  ghost function Won(w: World, c: CallId): World
    requires c in w.calls && w.calls[c].Checked?
  {
    var w2 := After(After(w, SetUser(w.calls[c].user, true)), Make(c, Some(1)));
    if Enabled(w2, Swap(c)) then After(w2, Swap(c)) else w2
  }

  lemma WinningRun(w: World, c: CallId) returns (acts: seq<Action>)
    requires WellFormed(w) && PolicyOk(w.store) && c in w.calls && w.calls[c].Checked?
    ensures CanRun(w, acts) && Patient(w, acts) && RunTo(w, acts) == Won(w, c)
  {
    assert CallOk(w, w.calls[c]);
    var w1 := After(w, SetUser(w.calls[c].user, true));
    var w2 := After(w1, Make(c, Some(1)));
    RunOne(w, SetUser(w.calls[c].user, true));
    RunOne(w1, Make(c, Some(1)));
    RunOne(w2, Swap(c));
    RunJoin(w1, [Make(c, Some(1))], [Swap(c)]);
    RunJoin(w, [SetUser(w.calls[c].user, true)], [Make(c, Some(1))] + [Swap(c)]);
    acts := [SetUser(w.calls[c].user, true)] + ([Make(c, Some(1))] + [Swap(c)]);
  }

  lemma WinningRunToTheEnd(w: World, c: CallId) returns (acts: seq<Action>)
    requires WellFormed(w) && PolicyOk(w.store) && c in w.calls && w.calls[c].Checked? && Unrevoked(w.store, w.calls[c].token)
    ensures CanRun(w, acts) && Patient(w, acts) && Quiet(RunTo(w, acts))
    ensures Live(RunTo(w, acts).store, w.store.next, RunTo(w, acts).now)
    ensures RunTo(w, acts).origin == w.origin[w.store.next := w.calls[c].token]
  {
    SurvivorUntouched(w, c);
    var head := WinningRun(w, c);
    var w3 := Won(w, c);
    var some := c;
    if w3.calls != map[] {
      some :| some in w3.calls;
    }
    var rest := FinishAll(w3, w.store.next, some);
    RunJoin(w, head, rest);
    acts := head + rest;
  }

  /** An exposed rotation can still be won, and its replacement then outlives the revocation. */
  lemma ExposedIsNotFinal(w: World, base: set<TokenId>)
    requires WellFormed(w) && PolicyOk(w.store) && Exposed(w, base)
    ensures !Final(w, base)
  {
    var c :| c in w.calls && w.calls[c].Checked? && Descends(w, base, w.calls[c].token) && Unrevoked(w.store, w.calls[c].token);
    var acts := WinningRunToTheEnd(w, c);
    var end, n, t := RunTo(w, acts), w.store.next, w.calls[c].token;
    assert CallOk(w, w.calls[c]);
    forall r | r in w.origin ensures r in end.origin && end.origin[r] == w.origin[r] {
      assert OriginOk(w.store, w.origin[r], r);
    }
    DescendsMore(w, end, base, t);
    assert Descends(end, base, n);
  }

  lemma SurvivorUntouched(w: World, c: CallId)
    requires WellFormed(w) && PolicyOk(w.store) && c in w.calls && w.calls[c].Checked? && Unrevoked(w.store, w.calls[c].token)
    ensures Untouched(Won(w, c), w.store.next) && Won(w, c).origin == w.origin[w.store.next := w.calls[c].token]
  {
    var w3 := Won(w, c);
    assert CallOk(w, w.calls[c]);
    forall d | d in w3.calls
      ensures w3.calls[d].token != w.store.next && (Making(w3.calls[d]) ==> w3.calls[d].replacement != w.store.next)
    {
      assert d in w.calls && w3.calls[d] == w.calls[d] && CallOk(w, w.calls[d]);
      if Making(w.calls[d]) {
        assert OriginOk(w.store, w.origin[w.calls[d].replacement], w.calls[d].replacement);
      }
    }
  }

  /** Once a set of tokens and everything made from them is not live, it stays that way for good if and only if no
      rotation has checked one of them and still finds it unrevoked. */
  lemma FinalIffNotExposed(w: World, base: set<TokenId>)
    requires WellFormed(w) && NoneEarly(w) && PolicyOk(w.store)
    requires AllDead(w, base) && forall id :: id in base ==> id in w.store.tokens
    ensures Final(w, base) <==> !Exposed(w, base)
  {
    if Exposed(w, base) {
      ExposedIsNotFinal(w, base);
    } else {
      ContainedIsFinal(w, base);
    }
  }

  ghost function UserTokens(w: World, u: UserId): set<TokenId> {
    set id | id in w.store.tokens && w.store.tokens[id].owner == u
  }

  lemma {:induction false} DescendantOwner(w: World, u: UserId, id: TokenId)
    requires WellFormed(w) && Descends(w, UserTokens(w, u), id)
    ensures id in UserTokens(w, u)
    decreases id
  {
    if id !in UserTokens(w, u) {
      assert OriginOk(w.store, w.origin[id], id);
      DescendantOwner(w, u, w.origin[id]);
    }
  }

  lemma UserRevocationContained(w: World, u: UserId, reason: string)
    requires WellFormed(w)
    ensures Contained(After(w, RevokeUser(u, reason)), UserTokens(w, u))
  {
    var w' := After(w, RevokeUser(u, reason));
    StepKeepsWellFormed(w, RevokeUser(u, reason));
    assert UserTokens(w', u) == UserTokens(w, u);
    forall id | Descends(w', UserTokens(w, u), id) ensures id in w'.store.tokens && !Unrevoked(w'.store, id) {
      DescendantOwner(w', u, id);
    }
  }

  /** Revoking a user's tokens is final: in any interleaving with rotations, once all of them have returned, no token
      the user had then, and none made by rotating such a token, is live. */
  lemma UserRevocationIsFinal(w: World, u: UserId, reason: string)
    requires ReachablePatiently(w)
    ensures Final(After(w, RevokeUser(u, reason)), UserTokens(w, u))
  {
    var a := RevokeUser(u, reason);
    PatientInvariant(w);
    StepKeepsWellFormed(w, a);
    StepKeepsNoneEarly(w, a);
    UserRevocationContained(w, u, reason);
    ContainedIsFinal(After(w, a), UserTokens(w, u));
  }

  /** A rotation has checked a token that has expired since but is not revoked. */
  ghost predicate ExpiredInRotation(w: World) {
    exists c :: c in w.calls && w.calls[c].Checked? && Unrevoked(w.store, w.calls[c].token)
                && StatusAt(w.store.tokens[w.calls[c].token], w.now) == Expired
  }

  lemma LogoutKills(w: World, reason: string, id: TokenId)
    ensures !Live(RevokedWhere(w.store, NotExpired(w.now), w.now, Truncated(reason)), id, w.now)
  {
  }

  lemma LogoutExposes(w: World, reason: string)
    requires WellFormed(w)
    ensures Exposed(After(w, RevokeAll(reason)), w.store.tokens.Keys) <==> ExpiredInRotation(w)
  {
    var a := RevokeAll(reason);
    var w' := After(w, a);
    assert w'.calls == w.calls && w'.now == w.now;
    forall c | c in w.calls
      ensures Descends(w', w.store.tokens.Keys, w.calls[c].token)
      ensures Unrevoked(w'.store, w.calls[c].token)
              <==> Unrevoked(w.store, w.calls[c].token) && StatusAt(w.store.tokens[w.calls[c].token], w.now) == Expired
    {
      assert CallOk(w, w.calls[c]);
    }
  }

  /** A global logout passes expired tokens over, so it is final for all tokens there are if and only if no rotation
      under way has checked a token that has expired since. */
  lemma GlobalLogoutIsFinalIff(w: World, reason: string)
    requires ReachablePatiently(w) && PolicyOk(w.store)
    ensures Final(After(w, RevokeAll(reason)), w.store.tokens.Keys) <==> !ExpiredInRotation(w)
  {
    var a := RevokeAll(reason);
    var w' := After(w, a);
    PatientInvariant(w);
    StepKeepsWellFormed(w, a);
    StepKeepsNoneEarly(w, a);
    forall id | Descends(w', w.store.tokens.Keys, id) ensures !Live(w'.store, id, w'.now) {
      LogoutKills(w, reason, id);
    }
    FinalIffNotExposed(w', w.store.tokens.Keys);
    LogoutExposes(w, reason);
  }

  // ----- Callers that do not wait -----

  /** The call has made no replacement yet but may: it has checked its token, or what it loaded passes the check. */
  ghost predicate MayMake(w: World, p: Phase) {
    p.Checked? || (p.Holding? && p.user == p.seen.owner
                   && (StatusAt(p.seen, w.now) == Active || StatusAt(p.seen, w.now) == LegacyNoExpiry))
  }

  ghost predicate Open(w: World, base: set<TokenId>) {
    exists c :: c in w.calls && MayMake(w, w.calls[c]) && Descends(w, base, w.calls[c].token)
  }

  ghost predicate Shut(w: World, base: set<TokenId>) {
    (forall id :: id in base ==> id in w.store.tokens) && AllDead(w, base) && !Open(w, base)
  }

  lemma MayMakeBack(w: World, a: Action, c: CallId)
    requires WellFormed(w) && Enabled(w, a) && c in After(w, a).calls && MayMake(After(w, a), After(w, a).calls[c])
    ensures After(w, a).calls[c].token in w.store.tokens
    ensures (c in w.calls && w.calls[c].token == After(w, a).calls[c].token && MayMake(w, w.calls[c]))
            || Live(w.store, After(w, a).calls[c].token, w.now)
  {
    if After(w, a).calls[c].Checked? {
      CheckedCall(w, a, c);
    } else {
      TimePasses(w, a);
      HoldingCall(w, a, c);
    }
    if c in w.calls {
      assert CallOk(w, w.calls[c]);
    }
  }

  /** A call that holds its token did so before, or begins now with the token as stored. */
  lemma HoldingCall(w: World, a: Action, c: CallId)
    requires Enabled(w, a) && c in After(w, a).calls && After(w, a).calls[c].Holding?
    ensures (c in w.calls && w.calls[c] == After(w, a).calls[c])
            || (var p := After(w, a).calls[c]; p.token in w.store.tokens && p.seen == w.store.tokens[p.token] && After(w, a).now == w.now)
  {
  }

  lemma StepKeepsShut(w: World, a: Action, base: set<TokenId>)
    requires WellFormed(w) && Enabled(w, a) && Shut(w, base)
    ensures Shut(After(w, a), base)
  {
    var w' := After(w, a);
    StepGrows(w, a);
    TimePasses(w, a);
    forall id | Descends(w', base, id) ensures !Live(w'.store, id, w'.now) {
      if id in w.store.tokens {
        DescendsStays(w, a, base, id);
      } else if id in w'.store.tokens {
        NoNewDescendant(w, a, base, id);
      }
    }
    forall c | c in w'.calls && MayMake(w', w'.calls[c]) ensures !Descends(w', base, w'.calls[c].token) {
      MayMakeBack(w, a, c);
      DescendsStays(w, a, base, w'.calls[c].token);
    }
  }

  lemma NoNewDescendant(w: World, a: Action, base: set<TokenId>, id: TokenId)
    requires WellFormed(w) && Enabled(w, a) && Shut(w, base) && id in After(w, a).store.tokens && id !in w.store.tokens
    ensures !Descends(After(w, a), base, id)
  {
    assert id in w.origin ==> OriginOk(w.store, w.origin[id], id);
    if id in After(w, a).origin {
      assert CallOk(w, w.calls[a.c]) && MayMake(w, w.calls[a.c]);
      DescendsStays(w, a, base, w.calls[a.c].token);
    }
  }

  lemma {:induction false} ShutStays(w: World, base: set<TokenId>, acts: seq<Action>)
    requires WellFormed(w) && Shut(w, base) && CanRun(w, acts)
    ensures AllDead(RunTo(w, acts), base)
    decreases |acts|
  {
    if acts != [] {
      StepKeepsShut(w, acts[0], base);
      StepKeepsWellFormed(w, acts[0]);
      ShutStays(After(w, acts[0]), base, acts[1..]);
    }
  }

  /** The world in which the call has checked its token, for an owner who is active. */
  lemma OpenCallChecks(w: World, c: CallId) returns (acts: seq<Action>)
    requires WellFormed(w) && c in w.calls && MayMake(w, w.calls[c])
    ensures CanRun(w, acts)
    ensures var p := w.calls[c];
            RunTo(w, acts) == w.(store := w.store.(users := w.store.users[p.user := true]),
                                 calls := w.calls[c := Checked(p.token, p.seen, p.user)])
  {
    var p := w.calls[c];
    acts := [SetUser(p.user, true)];
    RunOne(w, acts[0]);
    var w1 := After(w, acts[0]);
    if p.Holding? {
      RunOne(w1, Check(c));
      RunJoin(w, acts, [Check(c)]);
      acts := acts + [Check(c)];
    } else {
      assert w.calls[c := w.calls[c]] == w.calls;
    }
  }

  /** A checked call makes its replacement, and a second call checks that at once. */
  lemma ReplacementChecked(w: World, c: CallId, d: CallId) returns (acts: seq<Action>)
    requires WellFormed(w) && PolicyOk(w.store) && c in w.calls && w.calls[c].Checked? && d !in w.calls
    requires ActiveUser(w.store, w.calls[c].user)
    ensures CanRun(w, acts)
    ensures var w', n := RunTo(w, acts), w.store.next;
            && w'.origin == w.origin[n := w.calls[c].token] && Unrevoked(w'.store, n)
            && d in w'.calls && w'.calls[d].Checked? && w'.calls[d].token == n && PolicyOk(w'.store)
  {
    assert CallOk(w, w.calls[c]);
    var n := w.store.next;
    var w1 := After(w, Make(c, Some(1)));
    var w2 := After(w1, Begin(d, n, w.calls[c].user));
    RunOne(w, Make(c, Some(1)));
    RunOne(w1, Begin(d, n, w.calls[c].user));
    RunOne(w2, Check(d));
    RunJoin(w1, [Begin(d, n, w.calls[c].user)], [Check(d)]);
    acts := [Begin(d, n, w.calls[c].user)] + [Check(d)];
    RunJoin(w, [Make(c, Some(1))], acts);
    acts := [Make(c, Some(1))] + acts;
  }

  lemma {:induction false} Above(taken: set<CallId>) returns (d: CallId)
    ensures forall c :: c in taken ==> c < d
  {
    d := 0;
    if taken != {} {
      var c :| c in taken;
      var rest := Above(taken - {c});
      d := if rest <= c then c + 1 else rest;
      assert forall x :: x in taken ==> x == c || x in taken - {c};
    }
  }

  /** From an open world an exposed one can be reached: the call makes its replacement and another checks that. */
  lemma OpenGetsExposed(w: World, base: set<TokenId>) returns (acts: seq<Action>)
    requires Invariant(w) && PolicyOk(w.store) && Open(w, base)
    ensures CanRun(w, acts) && WellFormed(RunTo(w, acts)) && PolicyOk(RunTo(w, acts).store) && Exposed(RunTo(w, acts), base)
  {
    var c :| c in w.calls && MayMake(w, w.calls[c]) && Descends(w, base, w.calls[c].token);
    var d := Above(w.calls.Keys);
    var a := OpenCallChecks(w, c);
    var w1 := RunTo(w, a);
    RunKeepsInvariant(w, a);
    var b := ReplacementChecked(w1, c, d);
    RunKeepsInvariant(w1, b);
    RunJoin(w, a, b);
    acts := a + b;
    assert CallOk(w, w.calls[c]);
    ReplacementDescends(w, RunTo(w1, b), base, w.calls[c].token);
  }

  lemma ReplacementDescends(w: World, w': World, base: set<TokenId>, t: TokenId)
    requires WellFormed(w) && Descends(w, base, t) && t in w.store.tokens && w'.origin == w.origin[w.store.next := t]
    ensures Descends(w', base, w.store.next)
  {
    forall r | r in w.origin ensures r in w'.origin && w'.origin[r] == w.origin[r] {
      assert OriginOk(w.store, w.origin[r], r);
    }
    DescendsMore(w, w', base, t);
  }

  lemma OpenIsNotFinal(w: World, base: set<TokenId>)
    requires Invariant(w) && PolicyOk(w.store) && Open(w, base)
    ensures !FinalForAny(w, base)
  {
    var acts := OpenGetsExposed(w, base);
    ExposedIsNotFinal(RunTo(w, acts), base);
    if FinalForAny(w, base) {
      FinalStays(w, acts, base);
    }
  }

  lemma FinalStays(w: World, acts: seq<Action>, base: set<TokenId>)
    requires FinalForAny(w, base) && CanRun(w, acts)
    ensures Final(RunTo(w, acts), base)
  {
    forall more | CanRun(RunTo(w, acts), more) && Quiet(RunTo(RunTo(w, acts), more))
      ensures AllDead(RunTo(RunTo(w, acts), more), base)
    {
      RunJoin(w, acts, more);
    }
  }

  /** When callers need not wait, dead tokens stay dead for good if and only if no call may still make a replacement
      of one of them. */
  lemma FinalForAnyIffNotOpen(w: World, base: set<TokenId>)
    requires Invariant(w) && PolicyOk(w.store)
    requires AllDead(w, base) && forall id :: id in base ==> id in w.store.tokens
    ensures FinalForAny(w, base) <==> !Open(w, base)
  {
    if Open(w, base) {
      if FinalForAny(w, base) {
        OpenIsNotFinal(w, base);
      }
    } else {
      forall acts | CanRun(w, acts) && Quiet(RunTo(w, acts)) ensures AllDead(RunTo(w, acts), base) {
        ShutStays(w, base, acts);
      }
    }
  }

  /** One of the user's tokens is held by a call that may still make a replacement of it. */
  ghost predicate OpenForUser(w: World, u: UserId) {
    exists c :: c in w.calls && MayMake(w, w.calls[c]) && w.calls[c].token in UserTokens(w, u)
  }

  /** When callers need not wait, revoking a user's tokens is final if and only if at that moment no rotation of one
      of them has passed its check or would still pass it on what it loaded before. */
  lemma UserRevocationIsFinalIff(w: World, u: UserId, reason: string)
    requires Reachable(w) && PolicyOk(w.store)
    ensures FinalForAny(After(w, RevokeUser(u, reason)), UserTokens(w, u)) <==> !OpenForUser(w, u)
  {
    var a := RevokeUser(u, reason);
    var w', base := After(w, a), UserTokens(w, u);
    ReachableInvariant(w);
    StepKeepsWellFormed(w, a);
    StepKeepsWinners(w, a);
    assert UserTokens(w', u) == base;
    forall id | Descends(w', base, id) ensures id in base && !Live(w'.store, id, w'.now) {
      DescendantOwner(w', u, id);
    }
    FinalForAnyIffNotOpen(w', base);
    assert w'.calls == w.calls && w'.now == w.now;
    forall c | c in w.calls ensures MayMake(w', w.calls[c]) == MayMake(w, w.calls[c]) {
    }
  }

  /** When callers need not wait, a global logout is final if and only if no rotation at all is at such a point. */
  lemma GlobalLogoutIsFinalForAnyIff(w: World, reason: string)
    requires Reachable(w) && PolicyOk(w.store)
    ensures FinalForAny(After(w, RevokeAll(reason)), w.store.tokens.Keys)
            <==> forall c :: c in w.calls ==> !MayMake(w, w.calls[c])
  {
    var a := RevokeAll(reason);
    var w', base := After(w, a), w.store.tokens.Keys;
    ReachableInvariant(w);
    StepKeepsWellFormed(w, a);
    StepKeepsWinners(w, a);
    forall id | Descends(w', base, id) ensures !Live(w'.store, id, w'.now) {
      LogoutKills(w, reason, id);
    }
    FinalForAnyIffNotOpen(w', base);
    forall c | c in w.calls ensures Descends(w', base, w.calls[c].token) && MayMake(w', w.calls[c]) == MayMake(w, w.calls[c]) {
      assert CallOk(w, w.calls[c]);
    }
  }

  /** So it does fail: user 7's one token has been loaded by a rotation when the user's tokens are revoked, and a
      descendant of it can still be live when every call has returned. */
  lemma EarlyRotationSurvives() returns (w: World, acts: seq<Action>)
    ensures Reachable(w) && w.calls == map[0 := Holding(0, Token(7, "cli", None, None), 7)]
    ensures var revoked := After(w, RevokeUser(7, "left"));
            CanRun(revoked, acts) && Quiet(RunTo(revoked, acts)) && !AllDead(RunTo(revoked, acts), UserTokens(w, 7))
  {
    var w0 := World(Store(map[0 := Token(7, "cli", None, None)], 1, map[7 := true], Policy(90, 365)), 0, map[], map[], map[]);
    w := After(w0, Begin(0, 0, 7));
    RunOne(w0, Begin(0, 0, 7));
    assert Start(w0) && RunTo(w0, [Begin(0, 0, 7)]) == w;
    UserRevocationIsFinalIff(w, 7, "left");
    assert MayMake(w, w.calls[0]);
    var revoked := After(w, RevokeUser(7, "left"));
    acts :| CanRun(revoked, acts) && Quiet(RunTo(revoked, acts)) && !AllDead(RunTo(revoked, acts), UserTokens(w, 7));
  }
}
