/** Token rotation by any number of interleaved callers, as a step relation over the atomic updates of ApiTokens. */
module TokenProtocol {
  import opened Wrappers
  import opened ApiTokens

  type CallId = nat

  /** How far a rotation call has come. `seen` is the token as it was when the caller loaded it. */
  datatype Phase =
    | Holding(token: TokenId, seen: Token, user: UserId)
    | Checked(token: TokenId, seen: Token, user: UserId)
    | Made(token: TokenId, replacement: TokenId)
    | Lost(token: TokenId, replacement: TokenId)

  /** The store, the clock, the rotation calls under way, and two histories: which token each replacement was made
      for, and which replacement won the rotation of a token. */
  datatype World = World(store: Store, now: nat, calls: map<CallId, Phase>, origin: map<TokenId, TokenId>,
                         winner: map<TokenId, TokenId>)

  datatype Action =
    | Begin(c: CallId, id: TokenId, as_: UserId)
    | Check(c: CallId)
    | Make(c: CallId, days: Option<int>)
    | Swap(c: CallId)
    | Undo(c: CallId)
    | Create(u: UserId, name: string, ask: Lifetime)
    | Revoke(id: TokenId, reason: string)
    | RevokeUser(u: UserId, reason: string)
    | RevokeAll(reason: string)
    | Verify(id: TokenId)
    | SetUser(u: UserId, active: bool)
    | Tick(later: nat)

  predicate Enabled(w: World, a: Action) {
    match a
    case Begin(c, id, _) => c !in w.calls && id in w.store.tokens
    case Check(c) => c in w.calls && w.calls[c].Holding?
    case Make(c, _) => c in w.calls && w.calls[c].Checked?
    case Swap(c) => c in w.calls && w.calls[c].Made?
    case Undo(c) => c in w.calls && w.calls[c].Lost?
    case Tick(later) => w.now <= later
    case _ => true
  }

  predicate CanCreate(s: Store, u: UserId, name: string, ask: Lifetime, now: nat) {
    ActiveUser(s, u) && |name| <= 120 && ExpiryFor(s.policy, ask, now).Some?
  }

  /** The caller may rotate what it loaded. The status is that of the loaded token, not of the stored row. */
  predicate MayRotate(w: World, p: Phase)
    requires p.Holding?
  {
    ActiveUser(w.store, p.user) && p.user == p.seen.owner
    && (StatusAt(p.seen, w.now) == Active || StatusAt(p.seen, w.now) == LegacyNoExpiry)
  }

  function After(w: World, a: Action): World
    requires Enabled(w, a)
  {
    match a
    case Begin(c, id, u) => w.(calls := w.calls[c := Holding(id, w.store.tokens[id], u)])
    case Check(c) =>
      var p := w.calls[c];
      if MayRotate(w, p) then w.(calls := w.calls[c := Checked(p.token, p.seen, p.user)]) else w.(calls := w.calls - {c})
    case Make(c, days) =>
      var p := w.calls[c];
      var ask := Lifetime(days, None);
      if CanCreate(w.store, p.user, p.seen.name, ask, w.now) then
        w.(store := Inserted(w.store, p.user, p.seen.name, ExpiryFor(w.store.policy, ask, w.now).value),
           calls := w.calls[c := Made(p.token, w.store.next)],
           origin := w.origin[w.store.next := p.token])
      else w.(calls := w.calls - {c})
    case Swap(c) =>
      var p := w.calls[c];
      if Unrevoked(w.store, p.token) then
        w.(store := RevokedIfUnset(w.store, p.token, w.now, "rotated"),
           calls := w.calls - {c},
           winner := w.winner[p.token := p.replacement])
      else w.(calls := w.calls[c := Lost(p.token, p.replacement)])
    case Undo(c) =>
      w.(store := RevokedIfUnset(w.store, w.calls[c].replacement, w.now, "concurrent_rotation_lost"), calls := w.calls - {c})
    case Create(u, name, ask) =>
      if CanCreate(w.store, u, name, ask, w.now)
      then w.(store := Inserted(w.store, u, name, ExpiryFor(w.store.policy, ask, w.now).value)) else w
    case Revoke(id, reason) => w.(store := RevokedIfUnset(w.store, id, w.now, Truncated(reason)))
    case RevokeUser(u, reason) => w.(store := RevokedWhere(w.store, OwnedBy(u), w.now, Truncated(reason)))
    case RevokeAll(reason) => w.(store := RevokedWhere(w.store, NotExpired(w.now), w.now, Truncated(reason)))
    case Verify(id) =>
      if Live(w.store, id, w.now) && !ActiveUser(w.store, w.store.tokens[id].owner)
      then w.(store := RevokedIfUnset(w.store, id, w.now, OwnerGone(w.store, w.store.tokens[id].owner))) else w
    case SetUser(u, active) => w.(store := w.store.(users := w.store.users[u := active]))
    case Tick(later) => w.(now := later)
  }

  ghost predicate Start(w: World) {
    Valid(w.store) && w.calls == map[] && w.origin == map[] && w.winner == map[]
  }

  /** The replacement was created by a call that has not returned yet. */
  ghost predicate InMaking(w: World, r: TokenId) {
    exists c :: c in w.calls && (w.calls[c].Made? || w.calls[c].Lost?) && w.calls[c].replacement == r
  }

  /** Callers rotate a replacement only after the call that created it has returned. */
  ghost predicate ReturnedFirst(w: World, a: Action) {
    a.Begin? ==> !InMaking(w, a.id)
  }

  // ----- What every step keeps -----

  /** Tokens are never removed, change in nothing but their revocation, and keep that once it is set. */
  ghost predicate Grows(s: Store, s': Store) {
    forall id :: id in s.tokens ==>
      && id in s'.tokens && s'.tokens[id].(revoked := s.tokens[id].revoked) == s.tokens[id]
      && (s.tokens[id].revoked.Some? ==> s'.tokens[id].revoked == s.tokens[id].revoked)
  }

  lemma InsertedGrows(s: Store, owner: UserId, name: string, expires: nat)
    requires Valid(s)
    ensures Grows(s, Inserted(s, owner, name, expires)) && Valid(Inserted(s, owner, name, expires))
  {
  }

  lemma RevokedGrows(s: Store, id: TokenId, now: nat, reason: string)
    requires Valid(s)
    ensures Grows(s, RevokedIfUnset(s, id, now, reason)) && Valid(RevokedIfUnset(s, id, now, reason))
  {
  }

  lemma WhereGrows(s: Store, pick: Token -> bool, now: nat, reason: string)
    requires Valid(s)
    ensures Grows(s, RevokedWhere(s, pick, now, reason)) && Valid(RevokedWhere(s, pick, now, reason))
  {
  }

  /** For every step of every call: a revocation's time and reason never change. */
  lemma StepGrows(w: World, a: Action)
    requires Valid(w.store) && Enabled(w, a)
    ensures Grows(w.store, After(w, a).store) && Valid(After(w, a).store)
  {
    match a
    case Make(c, days) =>
      var ask := Lifetime(days, None);
      if CanCreate(w.store, w.calls[c].user, w.calls[c].seen.name, ask, w.now) {
        InsertedGrows(w.store, w.calls[c].user, w.calls[c].seen.name, ExpiryFor(w.store.policy, ask, w.now).value);
      }
    case Create(u, name, ask) =>
      if CanCreate(w.store, u, name, ask, w.now) {
        InsertedGrows(w.store, u, name, ExpiryFor(w.store.policy, ask, w.now).value);
      }
    case Swap(c) => RevokedGrows(w.store, w.calls[c].token, w.now, "rotated");
    case Undo(c) => RevokedGrows(w.store, w.calls[c].replacement, w.now, "concurrent_rotation_lost");
    case Revoke(id, reason) => RevokedGrows(w.store, id, w.now, Truncated(reason));
    case Verify(id) =>
      if id in w.store.tokens {
        RevokedGrows(w.store, id, w.now, OwnerGone(w.store, w.store.tokens[id].owner));
      }
    case RevokeUser(u, reason) => WhereGrows(w.store, OwnedBy(u), w.now, Truncated(reason));
    case RevokeAll(reason) => WhereGrows(w.store, NotExpired(w.now), w.now, Truncated(reason));
    case _ =>
  }

  /** Which step makes a token, and which one: only for an active user, with a name that fits and an expiry within the
      policy at the time it is made. */
  lemma StepMakes(w: World, a: Action)
    requires Enabled(w, a)
    ensures var s, s' := w.store, After(w, a).store;
            match a
            case Create(u, name, ask) => IsMaking(s, s', u, name, ExpiryFor(s.policy, ask, w.now))
            case Make(c, days) => IsMaking(s, s', w.calls[c].user, w.calls[c].seen.name, ExpiryFor(s.policy, Lifetime(days, None), w.now))
            case _ => s'.tokens.Keys == s.tokens.Keys && s'.next == s.next
  {
  }

  ghost predicate IsMaking(s: Store, s': Store, u: UserId, name: string, expiry: Option<nat>) {
    if u in s.users && s.users[u] && |name| <= 120 && expiry != None
    then s'.tokens == s.tokens[s.next := Token(u, name, expiry, None)] && s'.next == s.next + 1
    else s' == s
  }

  /** What each step does to a token that is not revoked yet: whether it revokes it, when and why. */
  lemma StepRevokes(w: World, a: Action, id: TokenId)
    requires Enabled(w, a) && Unrevoked(w.store, id) && Valid(w.store)
    ensures id in After(w, a).store.tokens
    ensures var t, t' := w.store.tokens[id], After(w, a).store.tokens[id];
            match a
            case Swap(c) => if w.calls[c].token == id then IsRevocationOf(t, t', w.now, "rotated") else t' == t
            case Undo(c) => if w.calls[c].replacement == id then IsRevocationOf(t, t', w.now, "concurrent_rotation_lost") else t' == t
            case Revoke(x, reason) => if x == id then IsRevocationOf(t, t', w.now, reason) else t' == t
            case RevokeUser(u, reason) => if t.owner == u then IsRevocationOf(t, t', w.now, reason) else t' == t
            case RevokeAll(reason) =>
              if t.expires == None || w.now < t.expires.value then IsRevocationOf(t, t', w.now, reason) else t' == t
            case Verify(x) =>
              if x == id && (t.expires == None || w.now < t.expires.value) && !(t.owner in w.store.users && w.store.users[t.owner])
              then IsRevocationOf(t, t', w.now, if t.owner in w.store.users then "owner_inactive" else "owner_missing")
              else t' == t
            case _ => t' == t
  {
    match a
    case Swap(c) => RevokedHere(w.store, w.calls[c].token, id, w.now, "rotated");
    case Undo(c) => RevokedHere(w.store, w.calls[c].replacement, id, w.now, "concurrent_rotation_lost");
    case Revoke(x, reason) => RevokesOne(w.store, x, w.now, reason);
    case RevokeUser(u, reason) => RevokesWhere(w.store, OwnedBy(u), w.now, reason);
    case RevokeAll(reason) => RevokesWhere(w.store, NotExpired(w.now), w.now, reason);
    case Verify(x) => RevokedHere(w.store, x, id, w.now, OwnerGone(w.store, w.store.tokens[id].owner));
    case _ =>
  }

  lemma RevokedHere(s: Store, x: TokenId, id: TokenId, now: nat, reason: string)
    requires Unrevoked(s, id) && |reason| <= 80
    ensures var t, t' := s.tokens[id], RevokedIfUnset(s, x, now, reason).tokens[id];
            if x == id then IsRevocationOf(t, t', now, reason) else t' == t
  {
  }

  /** Each replacement has the owner of the token it was made for, and was made after it. */
  ghost predicate OriginsOk(w: World) {
    forall r :: r in w.origin ==> OriginOk(w.store, w.origin[r], r)
  }

  ghost predicate OriginOk(s: Store, from: TokenId, r: TokenId) {
    r in s.tokens && from in s.tokens && from < r && s.tokens[r].owner == s.tokens[from].owner
  }

  /** What holds of a rotation call at each stage. */
  ghost predicate CallOk(w: World, p: Phase) {
    p.token in w.store.tokens &&
    match p
    case Holding(id, seen, _) => seen == w.store.tokens[id].(revoked := seen.revoked)
    case Checked(id, seen, user) => seen == w.store.tokens[id].(revoked := seen.revoked) && user == seen.owner
    case Made(id, r) => r in w.origin && w.origin[r] == id
    case Lost(id, r) => r in w.origin && w.origin[r] == id && !Unrevoked(w.store, id)
  }

  predicate Making(p: Phase) {
    p.Made? || p.Lost?
  }

  /** No two calls are making the same replacement. */
  ghost predicate OwnReplacements(w: World) {
    forall c, d :: c in w.calls && d in w.calls && c != d && Making(w.calls[c]) && Making(w.calls[d]) ==>
      w.calls[c].replacement != w.calls[d].replacement
  }

  ghost predicate WellFormed(w: World) {
    Valid(w.store) && OriginsOk(w) && OwnReplacements(w) && forall c :: c in w.calls ==> CallOk(w, w.calls[c])
  }

  lemma CallStaysOk(w: World, w': World, p: Phase)
    requires CallOk(w, p) && Grows(w.store, w'.store)
    requires forall r :: r in w.origin ==> r in w'.origin && w'.origin[r] == w.origin[r]
    ensures CallOk(w', p)
  {
  }

  lemma StepKeepsOrigins(w: World, a: Action)
    requires WellFormed(w) && Enabled(w, a)
    ensures OriginsOk(After(w, a))
    ensures forall r :: r in w.origin ==> r in After(w, a).origin && After(w, a).origin[r] == w.origin[r]
  {
    var w' := After(w, a);
    StepGrows(w, a);
    forall r | r in w.origin ensures r in w'.origin && w'.origin[r] == w.origin[r] && OriginOk(w'.store, w.origin[r], r) {
      assert OriginOk(w.store, w.origin[r], r);
    }
    if a.Make? {
      assert CallOk(w, w.calls[a.c]);
    }
  }

  lemma StepKeepsCalls(w: World, a: Action, c: CallId)
    requires WellFormed(w) && Enabled(w, a) && c in After(w, a).calls
    ensures CallOk(After(w, a), After(w, a).calls[c])
  {
    StepGrows(w, a);
    StepKeepsOrigins(w, a);
    if c in w.calls {
      assert CallOk(w, w.calls[c]);
      CallStaysOk(w, After(w, a), w.calls[c]);
    }
  }

  lemma StepKeepsOwnReplacements(w: World, a: Action)
    requires WellFormed(w) && Enabled(w, a)
    ensures OwnReplacements(After(w, a))
  {
    var w' := After(w, a);
    forall c | c in w.calls && Making(w.calls[c]) ensures w.calls[c].replacement < w.store.next {
      assert CallOk(w, w.calls[c]);
      assert OriginOk(w.store, w.origin[w.calls[c].replacement], w.calls[c].replacement);
    }
  }

  lemma StepKeepsWellFormed(w: World, a: Action)
    requires WellFormed(w) && Enabled(w, a)
    ensures WellFormed(After(w, a))
  {
    StepGrows(w, a);
    StepKeepsOrigins(w, a);
    StepKeepsOwnReplacements(w, a);
    forall c | c in After(w, a).calls ensures CallOk(After(w, a), After(w, a).calls[c]) {
      StepKeepsCalls(w, a, c);
    }
  }

  /** No call rotates a replacement that is still in the making. */
  ghost predicate NoneEarly(w: World) {
    forall c :: c in w.calls ==> !InMaking(w, w.calls[c].token)
  }

  /** A step puts no token in the making that was there before. */
  lemma NotMadeAgain(w: World, a: Action, t: TokenId)
    requires Valid(w.store) && Enabled(w, a) && t in w.store.tokens && !InMaking(w, t)
    ensures !InMaking(After(w, a), t)
  {
    var w' := After(w, a);
    forall c | c in w'.calls && Making(w'.calls[c]) ensures w'.calls[c].replacement != t {
      if c in w.calls && Making(w.calls[c]) {
        assert w'.calls[c].replacement == w.calls[c].replacement;
      }
    }
  }

  /** A call works on the token it began with. */
  lemma SameToken(w: World, a: Action, c: CallId)
    requires Enabled(w, a) && c in After(w, a).calls
    ensures (c in w.calls && After(w, a).calls[c].token == w.calls[c].token)
            || (a.Begin? && a.c == c && After(w, a).calls[c].token == a.id)
  {
  }

  lemma StepKeepsNoneEarly(w: World, a: Action)
    requires WellFormed(w) && NoneEarly(w) && Enabled(w, a) && ReturnedFirst(w, a)
    ensures NoneEarly(After(w, a))
  {
    var w' := After(w, a);
    forall c | c in w'.calls ensures !InMaking(w', w'.calls[c].token) {
      SameToken(w, a, c);
      if c in w.calls && w'.calls[c].token == w.calls[c].token {
        assert CallOk(w, w.calls[c]);
      }
      NotMadeAgain(w, a, w'.calls[c].token);
    }
  }

  // ----- One winner per token -----

  /** A won rotation has revoked its token; a replacement is revoked, in the making, or the winner of its token. */
  ghost predicate WinnersOk(w: World) {
    && (forall id :: id in w.winner ==> WonOk(w, id))
    && (forall r :: r in w.origin ==> ReplacementOk(w, r))
  }

  ghost predicate WonOk(w: World, id: TokenId)
    requires id in w.winner
  {
    && id in w.store.tokens && !Unrevoked(w.store, id) && w.store.tokens[id].revoked.value.reason == "rotated"
    && w.winner[id] in w.origin && w.origin[w.winner[id]] == id && !InMaking(w, w.winner[id])
  }

  ghost predicate ReplacementOk(w: World, r: TokenId)
    requires r in w.origin
  {
    !Unrevoked(w.store, r) || InMaking(w, r) || (w.origin[r] in w.winner && w.winner[w.origin[r]] == r)
  }

  lemma WonStays(w: World, a: Action, id: TokenId)
    requires WellFormed(w) && Enabled(w, a) && id in w.winner && WonOk(w, id)
    ensures id in After(w, a).winner && After(w, a).winner[id] == w.winner[id] && WonOk(After(w, a), id)
  {
    var r := w.winner[id];
    StepGrows(w, a);
    StepKeepsOrigins(w, a);
    assert OriginOk(w.store, w.origin[r], r);
    NotMadeAgain(w, a, r);
    assert id in After(w, a).winner && After(w, a).winner[id] == r;
  }

  lemma NewlyWon(w: World, a: Action)
    requires WellFormed(w) && Enabled(w, a) && a.Swap? && Unrevoked(w.store, w.calls[a.c].token)
    ensures w.calls[a.c].token in After(w, a).winner && WonOk(After(w, a), w.calls[a.c].token)
  {
    var w', p := After(w, a), w.calls[a.c];
    assert CallOk(w, p);
    forall c | c in w'.calls && Making(w'.calls[c]) ensures w'.calls[c].replacement != p.replacement {
      assert c in w.calls && c != a.c && w.calls[c] == w'.calls[c];
    }
  }

  lemma StepKeepsWon(w: World, a: Action, id: TokenId)
    requires WellFormed(w) && WinnersOk(w) && Enabled(w, a) && id in After(w, a).winner
    ensures WonOk(After(w, a), id)
  {
    if id in w.winner {
      assert WonOk(w, id);
      WonStays(w, a, id);
    } else {
      NewlyWon(w, a);
    }
  }

  /** What becomes of a call that is making a replacement: still making it, lost and undone, or won. */
  lemma MakingResolves(w: World, a: Action, c: CallId)
    requires WellFormed(w) && Enabled(w, a) && c in w.calls && Making(w.calls[c])
    ensures var w', r := After(w, a), w.calls[c].replacement;
            InMaking(w', r) || !Unrevoked(w'.store, r) || (w.origin[r] in w'.winner && w'.winner[w.origin[r]] == r)
  {
    var w', r := After(w, a), w.calls[c].replacement;
    assert CallOk(w, w.calls[c]);
    if c in w'.calls {
      assert Making(w'.calls[c]) && w'.calls[c].replacement == r;
    }
  }

  lemma StepKeepsReplacement(w: World, a: Action, r: TokenId)
    requires WellFormed(w) && WinnersOk(w) && Enabled(w, a) && r in After(w, a).origin
    ensures ReplacementOk(After(w, a), r)
  {
    var w' := After(w, a);
    if r in w.origin {
      StepKeepsOrigins(w, a);
      StepGrows(w, a);
      assert ReplacementOk(w, r) && OriginOk(w.store, w.origin[r], r);
      if InMaking(w, r) {
        var c :| c in w.calls && Making(w.calls[c]) && w.calls[c].replacement == r;
        MakingResolves(w, a, c);
      } else if Unrevoked(w.store, r) {
        assert WonOk(w, w.origin[r]);
        WonStays(w, a, w.origin[r]);
      }
    } else {
      NewInMaking(w, a, r);
    }
  }

  lemma NewInMaking(w: World, a: Action, r: TokenId)
    requires Enabled(w, a) && r in After(w, a).origin && r !in w.origin
    ensures InMaking(After(w, a), r)
  {
    assert a.Make? && Making(After(w, a).calls[a.c]) && After(w, a).calls[a.c].replacement == r;
  }

  lemma StepKeepsWinners(w: World, a: Action)
    requires WellFormed(w) && WinnersOk(w) && Enabled(w, a)
    ensures WinnersOk(After(w, a))
    ensures forall id :: id in w.winner ==> id in After(w, a).winner && After(w, a).winner[id] == w.winner[id]
  {
    forall id | id in After(w, a).winner ensures WonOk(After(w, a), id) {
      StepKeepsWon(w, a, id);
    }
    forall r | r in After(w, a).origin ensures ReplacementOk(After(w, a), r) {
      StepKeepsReplacement(w, a, r);
    }
    forall id | id in w.winner ensures id in After(w, a).winner && After(w, a).winner[id] == w.winner[id] {
      assert WonOk(w, id);
      WonStays(w, a, id);
    }
  }
}
