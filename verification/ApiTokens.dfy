/** API tokens: the stored rows, the atomic updates on them, and the calls built from those updates
    (app/services/api_tokens.py). Token hashing and randomness are left to the fresh identifiers of new rows. */
module ApiTokens {
  import opened Wrappers

  type UserId = nat
  type TokenId = nat

  datatype Revocation = Revocation(at: nat, reason: string)

  /** A stored token. `expires` of None is a token from before lifetimes existed. */
  datatype Token = Token(owner: UserId, name: string, expires: Option<nat>, revoked: Option<Revocation>)

  datatype Status = Revoked | LegacyNoExpiry | Expired | Active

  /** The lifetimes the configuration sets, in days. */
  datatype Policy = Policy(defaultDays: int, maxDays: int)

  /** What a caller asks for: a number of days, a date, neither or both. */
  datatype Lifetime = Lifetime(days: Option<int>, until: Option<nat>)

  /** The token collection, the existing users with their active flag, and the policy. Times are in seconds. */
  datatype Store = Store(tokens: map<TokenId, Token>, next: TokenId, users: map<UserId, bool>, policy: Policy)

  function StatusAt(t: Token, now: nat): Status {
    if t.revoked.Some? then Revoked
    else if t.expires.None? then LegacyNoExpiry
    else if t.expires.value <= now then Expired
    else Active
  }

  /** A token that authenticates, as far as the token itself goes. */
  predicate Live(s: Store, id: TokenId, now: nat) {
    id in s.tokens && (StatusAt(s.tokens[id], now) == Active || StatusAt(s.tokens[id], now) == LegacyNoExpiry)
  }

  predicate ActiveUser(s: Store, u: UserId) {
    u in s.users && s.users[u]
  }

  predicate Unrevoked(s: Store, id: TokenId) {
    id in s.tokens && s.tokens[id].revoked.None?
  }

  ghost predicate Valid(s: Store) {
    forall id :: id in s.tokens ==> id < s.next
  }

  predicate SoundPolicy(p: Policy) {
    1 <= p.defaultDays <= p.maxDays
  }

  function DaysFrom(now: nat, days: int): int {
    now + 86_400 * days
  }

  /** The expiry of a new token, or None when the request or the policy is refused. */
  function ExpiryFor(p: Policy, ask: Lifetime, now: nat): Option<nat> {
    if (ask.days.Some? && ask.until.Some?) || !SoundPolicy(p) then None
    else if ask.until.Some? then
      if ask.until.value <= now || ask.until.value > DaysFrom(now, p.maxDays) then None else ask.until
    else
      var days := ask.days.GetOr(p.defaultDays);
      if days < 1 || days > p.maxDays then None else Some(DaysFrom(now, days))
  }

  /** A token can be made to expire at t exactly when the policy is sound, t is in the future by no more than the
      largest lifetime, and t is the one date asked for: as a date, as a number of days, or by default. */
  lemma ExpiryIsAsAsked(p: Policy, ask: Lifetime, now: nat, t: nat)
    ensures ExpiryFor(p, ask, now) == Some(t) <==>
              && 1 <= p.defaultDays <= p.maxDays && now < t <= now + p.maxDays * (24 * 60 * 60)
              && if ask.until.Some? then ask.days.None? && t == ask.until.value
                 else t == now + (if ask.days.Some? then ask.days.value else p.defaultDays) * (24 * 60 * 60)
  {
    if ask.until.None? && SoundPolicy(p) {
      var days := ask.days.GetOr(p.defaultDays);
      assert now < DaysFrom(now, days) <= DaysFrom(now, p.maxDays) <==> 1 <= days <= p.maxDays;
    }
  }

  // ----- The atomic updates -----

  /** Insert a row under a fresh identifier. */
  function Inserted(s: Store, owner: UserId, name: string, expires: nat): Store {
    s.(tokens := s.tokens[s.next := Token(owner, name, Some(expires), None)], next := s.next + 1)
  }

  /** Set the revocation fields of one row, only if they are unset. */
  function RevokedIfUnset(s: Store, id: TokenId, now: nat, reason: string): Store {
    if Unrevoked(s, id) then s.(tokens := s.tokens[id := s.tokens[id].(revoked := Some(Revocation(now, reason)))]) else s
  }

  /** Set the revocation fields of every unrevoked row the predicate selects. */
  function RevokedWhere(s: Store, pick: Token -> bool, now: nat, reason: string): Store {
    s.(tokens := map id | id in s.tokens ::
         if s.tokens[id].revoked.None? && pick(s.tokens[id]) then s.tokens[id].(revoked := Some(Revocation(now, reason)))
         else s.tokens[id])
  }

  function OwnedBy(u: UserId): Token -> bool {
    (t: Token) => t.owner == u
  }

  /** The rows a global logout selects: expired ones are passed over. */
  function NotExpired(now: nat): Token -> bool {
    (t: Token) => t.expires.None? || t.expires.value > now
  }

  function Truncated(reason: string): string {
    if |reason| <= 80 then reason else reason[..80]
  }

  function OwnerGone(s: Store, u: UserId): string {
    if u in s.users then "owner_inactive" else "owner_missing"
  }

  /** The token with its revocation set, the reason cut to its stored length. */
  ghost predicate IsRevocationOf(t: Token, t': Token, now: nat, reason: string) {
    && t'.owner == t.owner && t'.name == t.name && t'.expires == t.expires && t'.revoked.Some? && t'.revoked.value.at == now
    && t'.revoked.value.reason <= reason && |t'.revoked.value.reason| == if |reason| < 80 then |reason| else 80
  }

  /** Nothing changes but that these tokens, where they were not revoked, are now, at this time and for this reason. */
  ghost predicate OnlyRevokes(s: Store, s': Store, which: TokenId -> bool, now: nat, reason: string) {
    && s'.tokens.Keys == s.tokens.Keys && s'.next == s.next && s'.users == s.users && s'.policy == s.policy
    && forall id :: id in s.tokens ==>
         if s.tokens[id].revoked == None && which(id) then IsRevocationOf(s.tokens[id], s'.tokens[id], now, reason)
         else s'.tokens[id] == s.tokens[id]
  }

  lemma RevokesOne(s: Store, id: TokenId, now: nat, reason: string)
    ensures OnlyRevokes(s, RevokedIfUnset(s, id, now, Truncated(reason)), x => x == id, now, reason)
  {
  }

  lemma RevokesWhere(s: Store, pick: Token -> bool, now: nat, reason: string)
    ensures OnlyRevokes(s, RevokedWhere(s, pick, now, Truncated(reason)), x => x in s.tokens && pick(s.tokens[x]), now, reason)
  {
  }

  // ----- The calls -----

  datatype Created = Created(id: TokenId, expires: nat) | NotCreated

  class TokenService {
    var store: Store

    /** Create a token for an active user, to expire when asked, within the policy. */
    method CreateToken(user: UserId, name: string, ask: Lifetime, now: nat) returns (r: Created)
      requires Valid(store)
      modifies this
      ensures Valid(store)
      ensures r.Created? <==> ActiveUser(old(store), user) && |name| <= 120 && ExpiryFor(old(store).policy, ask, now).Some?
      ensures r.NotCreated? ==> store == old(store)
      ensures r.Created? ==> now < r.expires <= now + old(store).policy.maxDays * (24 * 60 * 60)
      ensures r.Created? ==> r.id !in old(store).tokens && Some(r.expires) == ExpiryFor(old(store).policy, ask, now)
                             && store == Inserted(old(store), user, name, r.expires) && r.id == old(store).next
                             && Live(store, r.id, now)
      ensures r.Created? ==>
                && store.tokens.Keys == old(store).tokens.Keys + {r.id} && store.users == old(store).users
                && store.policy == old(store).policy
                && (forall x :: x in old(store).tokens ==> store.tokens[x] == old(store).tokens[x])
                && store.tokens[r.id] == Token(user, name, Some(r.expires), None)
                && (forall t :: t >= now ==> (Live(store, r.id, t) <==> t < r.expires))
    {
      if !ActiveUser(store, user) || |name| > 120 {
        return NotCreated;
      }
      var expiry := ExpiryFor(store.policy, ask, now);
      if expiry.None? {
        return NotCreated;
      }
      ExpiryIsAsAsked(store.policy, ask, now, expiry.value);
      r := Created(store.next, expiry.value);
      store := Inserted(store, user, name, expiry.value);
    }

    /** Revoke one token. Only the first revocation takes effect; the answer says whether this one did. */
    method RevokeToken(id: TokenId, now: nat, reason: string) returns (changed: bool)
      requires Valid(store)
      modifies this
      ensures Valid(store) && changed == Unrevoked(old(store), id)
      ensures store == RevokedIfUnset(old(store), id, now, Truncated(reason))
      ensures changed ==> !Live(store, id, now)
      ensures OnlyRevokes(old(store), store, x => x == id, now, reason)
    {
      RevokesOne(store, id, now, reason);
      changed := Unrevoked(store, id);
      store := RevokedIfUnset(store, id, now, Truncated(reason));
    }

    /** Revoke all of one user's tokens, expired ones included; the answer counts the rows changed. */
    method RevokeUserTokens(u: UserId, now: nat, reason: string) returns (count: nat)
      requires Valid(store)
      modifies this
      ensures Valid(store) && store == RevokedWhere(old(store), OwnedBy(u), now, Truncated(reason))
      ensures forall id :: id in store.tokens && store.tokens[id].owner == u ==> store.tokens[id].revoked.Some?
      ensures forall id :: id in old(store).tokens && old(store).tokens[id].owner != u ==> store.tokens[id] == old(store).tokens[id]
      ensures count == |set id | id in old(store).tokens && old(store).tokens[id].owner == u && Unrevoked(old(store), id)|
      ensures var before := old(store);
              OnlyRevokes(before, store, x => x in before.tokens && before.tokens[x].owner == u, now, reason)
    {
      RevokesWhere(store, OwnedBy(u), now, reason);
      count := |set id | id in store.tokens && store.tokens[id].owner == u && Unrevoked(store, id)|;
      store := RevokedWhere(store, OwnedBy(u), now, Truncated(reason));
    }

    /** Revoke all tokens but the expired ones; the answer counts the rows changed. */
    method RevokeAllTokens(now: nat, reason: string) returns (count: nat)
      requires Valid(store)
      modifies this
      ensures Valid(store) && store == RevokedWhere(old(store), NotExpired(now), now, Truncated(reason))
      ensures count == |set id | id in old(store).tokens && Live(old(store), id, now)|
      ensures var before := old(store);
              OnlyRevokes(before, store, x => x in before.tokens && (before.tokens[x].expires == None
                                                                     || now < before.tokens[x].expires.value), now, reason)
    {
      RevokesWhere(store, NotExpired(now), now, reason);
      count := |set id | id in store.tokens && Unrevoked(store, id) && NotExpired(now)(store.tokens[id])|;
      assert (set id | id in store.tokens && Unrevoked(store, id) && NotExpired(now)(store.tokens[id]))
          == set id | id in store.tokens && Live(store, id, now);
      store := RevokedWhere(store, NotExpired(now), now, Truncated(reason));
    }

    /** Check a presented token. The token comes back exactly when it is live and its owner active; a live token whose
        owner is not active any more is revoked on the way. */
    method VerifyToken(id: TokenId, now: nat) returns (r: Option<Token>)
      requires Valid(store)
      modifies this
      ensures Valid(store)
      ensures r.Some? <==> Live(old(store), id, now) && ActiveUser(old(store), old(store).tokens[id].owner)
      ensures r.Some? ==> store == old(store) && r.value == old(store).tokens[id]
      ensures r.None? ==>
                store == if Live(old(store), id, now)
                         then RevokedIfUnset(old(store), id, now, OwnerGone(old(store), old(store).tokens[id].owner)) else old(store)
      ensures r.None? && Live(old(store), id, now) ==>
                OnlyRevokes(old(store), store, x => x == id, now,
                            if old(store).tokens[id].owner in old(store).users then "owner_inactive" else "owner_missing")
    {
      if id !in store.tokens {
        return None;
      }
      var t := store.tokens[id];
      if t.revoked.Some? || (t.expires.Some? && t.expires.value <= now) {
        return None;
      }
      if t.owner !in store.users {
        var _ := RevokeToken(id, now, "owner_missing");
        return None;
      }
      if !store.users[t.owner] {
        var _ := RevokeToken(id, now, "owner_inactive");
        return None;
      }
      r := Some(t);
    }

    /** Rotate a token, run without interruption: create the replacement, then revoke the old token if nobody else has;
        if somebody has, revoke the replacement again. `seen` is the token as the caller read it earlier. */
    method RotateToken(id: TokenId, seen: Token, user: UserId, days: Option<int>, now: nat) returns (r: Option<TokenId>)
      requires Valid(store) && id in store.tokens && store.tokens[id].owner == seen.owner
      modifies this
      ensures Valid(store) && old(store).tokens.Keys <= store.tokens.Keys
      ensures r.Some? ==> r.value in store.tokens
      ensures r.Some? ==>
                && r.value !in old(store).tokens && Live(store, r.value, now) && store.tokens[r.value].owner == seen.owner
                && store.tokens[id].revoked == Some(Revocation(now, "rotated"))
                && store.tokens[r.value].name == seen.name && store.tokens[r.value].revoked == None
                && store.tokens[r.value].expires == ExpiryFor(old(store).policy, Lifetime(days, None), now)
                && (forall x :: x in old(store).tokens && x != id ==> store.tokens[x] == old(store).tokens[x])
      ensures r.Some? <==> ActiveUser(old(store), user) && user == seen.owner && Unrevoked(old(store), id)
                           && (StatusAt(seen, now) == Active || StatusAt(seen, now) == LegacyNoExpiry)
                           && |seen.name| <= 120 && ExpiryFor(old(store).policy, Lifetime(days, None), now).Some?
      ensures r.None? ==> forall x :: x in old(store).tokens ==> store.tokens[x] == old(store).tokens[x]
      ensures r.None? ==> forall x :: x in store.tokens && x !in old(store).tokens ==>
                store.tokens[x].revoked == Some(Revocation(now, "concurrent_rotation_lost"))
    {
      if !ActiveUser(store, user) || user != seen.owner {
        return None;
      }
      if StatusAt(seen, now) != Active && StatusAt(seen, now) != LegacyNoExpiry {
        return None;
      }
      var made := CreateToken(user, seen.name, Lifetime(days, None), now);
      if made.NotCreated? {
        return None;
      }
      var changed := RevokeToken(id, now, "rotated");
      if !changed {
        var _ := RevokeToken(made.id, now, "concurrent_rotation_lost");
        return None;
      }
      r := Some(made.id);
    }
  }
}
