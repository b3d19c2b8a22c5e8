/**
 * SafeTokenStore (models/tokenStoreModel.go): the map from a user id to the one refresh
 * token currently accepted for that user. Each Go method holds the store's lock for its
 * whole body, so each is one atomic step here: a function from the old map to the new.
 */
module TokenStore {
  import opened Wrappers

  type UserId = nat
  type Store = map<UserId, string>

  /** NewSafeTokenStore: no user has a token. */
  function NewSafeTokenStore(): (s: Store)
    ensures forall id: UserId :: Get(s, id) == None
  {
    map[]
  }

  /** Get: the token stored for `id`, if any. Reading never changes the store. */
  function Get(s: Store, id: UserId): (r: Option<string>)
    ensures r.Some? <==> id in s
    ensures r.Some? ==> r.value == s[id]
  {
    if id in s then Some(s[id]) else None
  }

  /** Set: `id` now maps to `token`, replacing any earlier token; other ids are untouched. */
  function Set(s: Store, id: UserId, token: string): (s': Store)
    ensures Get(s', id) == Some(token)
    ensures forall other: UserId | other != id :: Get(s', other) == Get(s, other)
    ensures s'.Keys == s.Keys + {id}
  {
    s[id := token]
  }

  /** Delete: `id` no longer has a token; deleting an absent id changes nothing. */
  function Delete(s: Store, id: UserId): (s': Store)
    ensures Get(s', id) == None
    ensures forall other: UserId | other != id :: Get(s', other) == Get(s, other)
    ensures id !in s ==> s' == s
  {
    s - {id}
  }

  /** Validate: an entry for `id` exists and equals `token` exactly. */
  function Validate(s: Store, id: UserId, token: string): (r: bool)
    ensures r <==> id in s && s[id] == token
  {
    match Get(s, id)
    case Some(stored) => stored == token
    case None => false
  }

  /** A fresh store validates nothing. */
  lemma NewStoreValidatesNothing(id: UserId, token: string)
    ensures !Validate(NewSafeTokenStore(), id, token)
  {
  }

  /** After Set(id, t), exactly `t` validates for `id`: the store keeps one token per user. */
  lemma SetValidatesOnlyNewToken(s: Store, id: UserId, t: string, candidate: string)
    ensures Validate(Set(s, id, t), id, candidate) <==> candidate == t
  {
  }

  /** After Delete(id), no token validates for `id`. */
  lemma DeleteRevokes(s: Store, id: UserId, candidate: string)
    ensures !Validate(Delete(s, id), id, candidate)
  {
  }

  /** Deleting twice is deleting once (two concurrent logouts leave the same store). */
  lemma DeleteIdempotent(s: Store, id: UserId)
    ensures Delete(Delete(s, id), id) == Delete(s, id)
  {
  }
}
