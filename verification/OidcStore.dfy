/**
 * oidc-provider's storage in Redis, and what logout deletes from it: artifacts with a TTL, the list
 * of artifacts of every grant (oidc:grant:<id>), and the set of grants finished in every Core session
 * (oidc:sidgrants:<sid>). One MULTI is one atomic update; deadlines are whole seconds.
 */
module OidcStore {
  import opened Common
  import LogoutQueue

  type Id = nat
  type GrantId = nat
  type Sid = LogoutQueue.Sid

  datatype Model = AccessToken | AuthorizationCode | RefreshToken | DeviceCode | BackchannelRequest | Grant | Other {
    predicate Grantable() { !Grant? && !Other? }

    predicate Consumable() { Grantable() && !AccessToken? }
  }

  datatype Key = Key(model: Model, id: Id)
  datatype Payload = Payload(grantId: Option<GrantId>, body: string)

  datatype Life = Forever | Until(t: int) {
    predicate Alive(now: int) { Forever? || now < t }

    /** Lives at least as long as `other`. */
    predicate Covers(other: Life) { Forever? || (other.Until? && other.t <= t) }
  }

  /** A consumed marker can exist without a payload: HSET on a key that is gone. */
  datatype Artifact = Artifact(payload: Option<Payload>, consumed: Option<int>, life: Life)
  datatype GrantList = GrantList(keys: seq<Key>, life: Life)
  datatype GrantSet = GrantSet(grants: set<GrantId>, life: Life)

  datatype Store = Store(
    artifacts: map<Key, Artifact>,
    lists: map<GrantId, GrantList>,
    sidGrants: map<Sid, GrantSet>,
    contexts: map<GrantId, Sid>)

  predicate HasArtifact(st: Store, k: Key, now: int)
  {
    k in st.artifacts && st.artifacts[k].life.Alive(now)
  }

  predicate HasList(st: Store, g: GrantId, now: int)
  {
    g in st.lists && st.lists[g].life.Alive(now)
  }

  /** Redis TTL: -2 for no key, -1 for no expiry. */
  function Ttl(st: Store, g: GrantId, now: int): int
  {
    if !HasList(st, g, now) then -2
    else if st.lists[g].life.Forever? then -1
    else st.lists[g].life.t - now
  }

  function LifeFor(expiresIn: nat, now: int): Life
  {
    if expiresIn > 0 then Until(now + expiresIn) else Forever
  }

  /** What is on the list of a grant now; a list that expired is gone. */
  function Listed(st: Store, g: GrantId, now: int): seq<Key>
  {
    if HasList(st, g, now) then st.lists[g].keys else []
  }

  /** The MULTI of upsert, given the TTL of the list that was read before it. */
  function Upsert(st: Store, k: Key, p: Payload, expiresIn: nat, readTtl: int, now: int): Store
  {
    var st1 := st.(artifacts := st.artifacts[k := Artifact(Some(p), None, LifeFor(expiresIn, now))]);
    if !k.model.Grantable() || p.grantId.None? then st1
    else
      var g := p.grantId.value;
      var life := if HasList(st, g, now) then st.lists[g].life else Forever;
      if expiresIn <= readTtl then st1.(lists := st.lists[g := GrantList(Listed(st, g, now) + [k], life)])
      else if expiresIn == 0 then st1.(lists := st.lists - {g})
      else st1.(lists := st.lists[g := GrantList(Listed(st, g, now) + [k], Until(now + expiresIn))])
  }

  function Find(st: Store, k: Key, now: int): Option<Payload>
  {
    if HasArtifact(st, k, now) then st.artifacts[k].payload else None
  }

  function Consume(st: Store, k: Key, now: int): Store
  {
    st.(artifacts := st.artifacts[k :=
      if HasArtifact(st, k, now) then st.artifacts[k].(consumed := Some(now)) else Artifact(None, Some(now), Forever)])
  }

  function Destroy(st: Store, k: Key): Store
  {
    st.(artifacts := st.artifacts - {k})
  }

  /** The MULTI of revokeByGrantId, given the keys that LRANGE returned before it. */
  function DeleteListed(st: Store, g: GrantId, keys: seq<Key>): Store
  {
    st.(artifacts := st.artifacts - Elems(keys), lists := st.lists - {g})
  }

  /** `finish` of the interaction: the grant's context. */
  function SetContext(st: Store, sid: Sid, g: GrantId): Store
  {
    st.(contexts := st.contexts[g := sid])
  }

  /** ... and the grant in the session's set, with its expiry. */
  function AddGrant(st: Store, sid: Sid, g: GrantId, ttl: nat, now: int): Store
  {
    st.(sidGrants := st.sidGrants[sid := GrantSet(GrantsOf(st, sid, now) + {g}, Until(now + ttl))])
  }

  function GrantsOf(st: Store, sid: Sid, now: int): set<GrantId>
  {
    if sid in st.sidGrants && st.sidGrants[sid].life.Alive(now) then st.sidGrants[sid].grants else {}
  }

  // ---- what is found -----------------------------------------------------------------------------------

  /** A stored artifact, of whatever model, is found with its payload until its TTL ends; every other key is as before. */
  lemma StoredIsFound(st: Store, k: Key, p: Payload, expiresIn: nat, readTtl: int, now: int, j: Key, later: int)
    ensures Find(Upsert(st, k, p, expiresIn, readTtl, now), j, later) ==
              if j != k then Find(st, j, later) else if expiresIn == 0 || later < now + expiresIn then Some(p) else None
    ensures Upsert(st, k, p, expiresIn, readTtl, now).artifacts[k].consumed == None
  {
  }

  /** A token with a grant goes to the end of the grant's list; a Grant or any other model to no list. */
  lemma StoredIsListed(st: Store, k: Key, p: Payload, expiresIn: nat, readTtl: int, now: int, g: GrantId)
    requires expiresIn > 0
    ensures Listed(Upsert(st, k, p, expiresIn, readTtl, now), g, now) ==
              if k.model in {AccessToken, AuthorizationCode, RefreshToken, DeviceCode, BackchannelRequest} && p.grantId == Some(g)
              then Listed(st, g, now) + [k] else Listed(st, g, now)
  {
  }

  /** The MULTI of a revocation takes away exactly the keys it was given, and the list. */
  lemma RevokedIsGone(st: Store, g: GrantId, keys: seq<Key>, j: Key, now: int)
    ensures Find(DeleteListed(st, g, keys), j, now) == if j in keys then None else Find(st, j, now)
    ensures Listed(DeleteListed(st, g, keys), g, now) == []
    ensures forall h | h != g :: Listed(DeleteListed(st, g, keys), h, now) == Listed(st, h, now)
  {
  }

  /** destroy and consume: gone for good, and marked without a change of payload. */
  lemma DestroyedAndConsumed(st: Store, k: Key, j: Key, now: int, later: int)
    ensures Find(Destroy(st, k), j, later) == if j == k then None else Find(st, j, later)
    ensures now <= later ==> Find(Consume(st, k, now), j, later) == Find(st, j, later)
    ensures k in Consume(st, k, now).artifacts && Consume(st, k, now).artifacts[k].consumed == Some(now)
  {
  }

  /** A finished grant is in its session's set until the set's expiry, which starts anew. */
  lemma FinishedIsJoined(st: Store, sid: Sid, g: GrantId, ttl: nat, now: int, later: int)
    ensures GrantsOf(AddGrant(st, sid, g, ttl, now), sid, later) == if later < now + ttl then GrantsOf(st, sid, now) + {g} else {}
    ensures forall other | other != sid :: GrantsOf(AddGrant(st, sid, g, ttl, now), other, later) == GrantsOf(st, other, later)
    ensures g in SetContext(st, sid, g).contexts && SetContext(st, sid, g).contexts[g] == sid
  {
  }

  /** Every artifact reachable from the session's grants: listed tokens and the Grant itself. */
  predicate Doomed(st: Store, grants: set<GrantId>, now: int, k: Key)
  {
    (exists g | g in grants :: k in Listed(st, g, now)) || (k.model.Grant? && k.id in grants)
  }

  function Survivors(st: Store, grants: set<GrantId>, now: int): map<Key, Artifact>
  {
    map k | k in st.artifacts && !Doomed(st, grants, now, k) :: st.artifacts[k]
  }

  lemma OneGrantMore(st: Store, grants: set<GrantId>, now: int, g: GrantId)
    ensures Survivors(st, grants + {g}, now) == Survivors(st, grants, now) - Elems(Listed(st, g, now)) - {Key(Grant, g)}
  {
  }

  /** The store after these grants were revoked, one by one. */
  ghost predicate AreRevoked(st: Store, st': Store, grants: set<GrantId>, now: int)
  {
    && st'.artifacts == Survivors(st, grants, now) && st'.sidGrants == st.sidGrants
    && st'.lists == st.lists - grants && st'.contexts == st.contexts - grants
  }

  lemma RevokedOneMore(st: Store, st1: Store, st2: Store, done: set<GrantId>, g: GrantId, now: int)
    requires AreRevoked(st, st1, done, now) && g !in done
    requires st2.artifacts == st1.artifacts - Elems(Listed(st1, g, now)) - {Key(Grant, g)}
    requires st2.lists == st1.lists - {g} && st2.contexts == st1.contexts - {g} && st2.sidGrants == st1.sidGrants
    ensures AreRevoked(st, st2, done + {g}, now)
  {
    assert Listed(st1, g, now) == Listed(st, g, now);
    OneGrantMore(st, done, now, g);
  }

  function RevokeAll(st: Store, sid: Sid, grants: set<GrantId>, now: int): Store
  {
    Store(Survivors(st, grants, now),
          st.lists - grants, st.sidGrants - {sid}, st.contexts - grants)
  }

  /**
   * After the grants of a session were revoked: their listed tokens and the Grants themselves are not
   * found, their lists, contexts and the session's set are gone, and everything else is as it was.
   */
  lemma AllRevoked(st: Store, sid: Sid, grants: set<GrantId>, now: int, k: Key)
    ensures var st' := RevokeAll(st, sid, grants, now);
      && Find(st', k, now) == (if (exists g | g in grants :: HasList(st, g, now) && k in st.lists[g].keys) || (k.model == Grant && k.id in grants)
                               then None else Find(st, k, now))
      && st'.lists == st.lists - grants && st'.contexts == st.contexts - grants && GrantsOf(st', sid, now) == {}
      && forall other | other != sid :: GrantsOf(st', other, now) == GrantsOf(st, other, now)
  {
    if g :| g in grants && k in Listed(st, g, now) { assert HasList(st, g, now) && k in st.lists[g].keys; }
    if g :| g in grants && HasList(st, g, now) && k in st.lists[g].keys { assert k in Listed(st, g, now); }
  }

  class OidcRedis {
    var artifacts: map<Key, Artifact>
    var lists: map<GrantId, GrantList>
    var sidGrants: map<Sid, GrantSet>
    var contexts: map<GrantId, Sid>

    ghost function Now(): Store
      reads this
    {
      Store(artifacts, lists, sidGrants, contexts)
    }

    method TtlOfList(g: GrantId, now: int) returns (ttl: int)
      ensures ttl == Ttl(Now(), g, now)
    {
      if g !in lists || !lists[g].life.Alive(now) { return -2; }
      match lists[g].life
      case Forever => return -1;
      case Until(t) => return t - now;
    }

    method UpsertArtifact(k: Key, p: Payload, expiresIn: nat, now: int)
      modifies this
      ensures Now() == if k.model.Grantable() && p.grantId.Some?
                       then Upsert(old(Now()), k, p, expiresIn, Ttl(old(Now()), p.grantId.value, now), now)
                       else Upsert(old(Now()), k, p, expiresIn, 0, now)
    {
      if k.model.Consumable() {
        artifacts := artifacts - {k};
      }
      artifacts := artifacts[k := Artifact(Some(p), None, LifeFor(expiresIn, now))];
      assert artifacts == old(artifacts)[k := Artifact(Some(p), None, LifeFor(expiresIn, now))];
      if k.model.Grantable() && p.grantId.Some? {
        var ttl := TtlOfList(p.grantId.value, now);
        PushToList(p.grantId.value, k, expiresIn, ttl, now);
      }
    }

    /** rpush to the grant's list, then expire it when the new artifact lives longer than `ttl`. */
    method PushToList(g: GrantId, k: Key, expiresIn: nat, ttl: int, now: int)
      modifies this`lists
      ensures var life := if HasList(old(Now()), g, now) then old(lists)[g].life else Forever;
              lists == if expiresIn <= ttl then old(lists)[g := GrantList(Listed(old(Now()), g, now) + [k], life)]
                       else if expiresIn == 0 then old(lists) - {g}
                       else old(lists)[g := GrantList(Listed(old(Now()), g, now) + [k], Until(now + expiresIn))]
    {
      if g in lists && lists[g].life.Alive(now) {
        lists := lists[g := GrantList(lists[g].keys + [k], lists[g].life)];
      } else {
        lists := lists[g := GrantList([k], Forever)];
      }
      assert lists[g].keys == Listed(old(Now()), g, now) + [k];
      if expiresIn > ttl {
        if expiresIn == 0 {
          lists := lists - {g};
          assert lists == old(lists) - {g};
        } else {
          lists := lists[g := GrantList(lists[g].keys, Until(now + expiresIn))];
        }
      }
    }

    method FindArtifact(k: Key, now: int) returns (p: Option<Payload>)
      ensures p == Find(Now(), k, now)
    {
      if k in artifacts && artifacts[k].life.Alive(now) { return artifacts[k].payload; }
      return None;
    }

    /** LRANGE of the whole list. */
    method ReadList(g: GrantId, now: int) returns (tokens: seq<Key>)
      ensures tokens == Listed(Now(), g, now)
    {
      return if g in lists && lists[g].life.Alive(now) then lists[g].keys else [];
    }

    /** The MULTI: every key that was read, and the list as it is now. */
    method DeleteTokens(g: GrantId, tokens: seq<Key>)
      modifies this
      ensures Now() == DeleteListed(old(Now()), g, tokens)
    {
      var i := 0;
      while i < |tokens|
        invariant 0 <= i <= |tokens|
        invariant artifacts == old(artifacts) - Elems(tokens[..i])
        invariant lists == old(lists) && sidGrants == old(sidGrants) && contexts == old(contexts)
      {
        assert Elems(tokens[..i + 1]) == Elems(tokens[..i]) + {tokens[i]};
        artifacts := artifacts - {tokens[i]};
        i := i + 1;
      }
      assert tokens[..i] == tokens;
      lists := lists - {g};
    }

    /** Both commands, when nothing else touches the store between them. */
    method RevokeByGrantId(g: GrantId, now: int)
      modifies this
      ensures Now() == DeleteListed(old(Now()), g, Listed(old(Now()), g, now))
    {
      var tokens := ReadList(g, now);
      DeleteTokens(g, tokens);
    }

    method RevokeOne(g: GrantId, now: int)
      modifies this
      ensures artifacts == old(artifacts) - Elems(Listed(old(Now()), g, now)) - {Key(Grant, g)}
      ensures lists == old(lists) - {g} && contexts == old(contexts) - {g} && sidGrants == old(sidGrants)
    {
      RevokeByGrantId(g, now);   // AccessToken.revokeByGrantId
      RevokeByGrantId(g, now);   // AuthorizationCode.revokeByGrantId: the list is already gone
      artifacts := artifacts - {Key(Grant, g)};
      contexts := contexts - {g};
    }

    /** revokeGrants of the logout service, when nothing else touches the store meanwhile. */
    method RevokeGrants(sid: Sid, now: int) returns (count: nat)
      modifies this
      ensures Now() == RevokeAll(old(Now()), sid, GrantsOf(old(Now()), sid, now), now)
      ensures count == |GrantsOf(old(Now()), sid, now)|
    {
      var grants := if sid in sidGrants && sidGrants[sid].life.Alive(now) then sidGrants[sid].grants else {};
      var left, done := grants, {};
      while left != {}
        invariant left + done == grants && left !! done
        invariant AreRevoked(old(Now()), Now(), done, now)
        decreases left
      {
        var g :| g in left;
        ghost var before := Now();
        RevokeOne(g, now);
        RevokedOneMore(old(Now()), before, Now(), done, g, now);
        left, done := left - {g}, done + {g};
      }
      sidGrants := sidGrants - {sid};
      assert done == grants;
      return |grants|;
    }
  }
}
