/**
 * The index of a grant's tokens: every live token is on the grant's list, and the list expires no
 * earlier. Which MULTI keeps it, given what was read from Redis before the MULTI ran.
 */
module TokenIndex {
  import opened Common
  import opened OidcStore

  /** A token of grant `g` that its holder can still use. */
  predicate LiveToken(st: Store, k: Key, g: GrantId, now: int)
  {
    k.model.Grantable() && Find(st, k, now).Some? && Find(st, k, now).value.grantId == Some(g)
  }

  predicate Covered(st: Store, k: Key, g: GrantId, now: int)
  {
    HasList(st, g, now) && k in st.lists[g].keys && k in st.artifacts && st.lists[g].life.Covers(st.artifacts[k].life)
  }

  ghost predicate Indexed(st: Store, g: GrantId, now: int)
  {
    forall k :: LiveToken(st, k, g, now) ==> Covered(st, k, g, now)
  }

  // ---- the MULTI of upsert -----------------------------------------------------------------------------

  /**
   * When the MULTI sets no expiry, the list that is there outlives the new token; when it sets one, it
   * is positive and no other live token of the grant needs the list longer.
   */
  ghost predicate UpsertFits(st: Store, k: Key, g: GrantId, expiresIn: nat, readTtl: int, now: int)
  {
    if expiresIn <= readTtl then HasList(st, g, now) ==> st.lists[g].life.Covers(LifeFor(expiresIn, now))
    else expiresIn > 0 && forall j | j != k && LiveToken(st, j, g, now) :: Until(now + expiresIn).Covers(st.artifacts[j].life)
  }

  /** On an indexed grant, whatever TTL was read before: indexed afterwards if and only if the MULTI fits. */
  lemma UpsertKeepsIndexIff(st: Store, k: Key, p: Payload, g: GrantId, expiresIn: nat, readTtl: int, now: int)
    requires Indexed(st, g, now) && k.model.Grantable() && p.grantId == Some(g)
    ensures Indexed(Upsert(st, k, p, expiresIn, readTtl, now), g, now) <==> UpsertFits(st, k, g, expiresIn, readTtl, now)
  {
    var st' := Upsert(st, k, p, expiresIn, readTtl, now);
    assert LiveToken(st', k, g, now);
    forall j | j != k ensures LiveToken(st', j, g, now) <==> LiveToken(st, j, g, now) {}
    if Indexed(st', g, now) {
      assert Covered(st', k, g, now);
      if expiresIn > readTtl {
        forall j | j != k && LiveToken(st, j, g, now) ensures Until(now + expiresIn).Covers(st.artifacts[j].life) {
          assert LiveToken(st', j, g, now);
          assert Covered(st', j, g, now);
        }
      }
    }
    if UpsertFits(st, k, g, expiresIn, readTtl, now) {
      forall j | LiveToken(st', j, g, now) ensures Covered(st', j, g, now) {
        if j != k {
          assert LiveToken(st, j, g, now);
          assert Covered(st, j, g, now);
        }
      }
    }
  }

  /** Storing anything else leaves the grant's index alone. */
  lemma OtherUpsertKeepsIndex(st: Store, k: Key, p: Payload, g: GrantId, expiresIn: nat, readTtl: int, now: int)
    requires Indexed(st, g, now) && !(k.model.Grantable() && p.grantId == Some(g))
    ensures Indexed(Upsert(st, k, p, expiresIn, readTtl, now), g, now)
  {
    var st' := Upsert(st, k, p, expiresIn, readTtl, now);
    forall j | LiveToken(st', j, g, now) ensures Covered(st', j, g, now) {
      OtherUpsertKeepsToken(st, k, p, g, expiresIn, readTtl, now, j);
    }
  }

  lemma OtherUpsertKeepsToken(st: Store, k: Key, p: Payload, g: GrantId, expiresIn: nat, readTtl: int, now: int, j: Key)
    requires Indexed(st, g, now) && !(k.model.Grantable() && p.grantId == Some(g))
    requires LiveToken(Upsert(st, k, p, expiresIn, readTtl, now), j, g, now)
    ensures Covered(Upsert(st, k, p, expiresIn, readTtl, now), j, g, now)
  {
    assert j != k;
    assert LiveToken(st, j, g, now);
    assert Covered(st, j, g, now);
  }

  /** The MULTI fits when the TTL read before it is still the list's. */
  lemma FreshTtlFits(st: Store, k: Key, g: GrantId, expiresIn: nat, now: int)
    requires Indexed(st, g, now) && expiresIn > 0
    requires HasList(st, g, now) ==> st.lists[g].life.Until?
    ensures UpsertFits(st, k, g, expiresIn, Ttl(st, g, now), now)
  {
    if expiresIn > Ttl(st, g, now) {
      forall j | j != k && LiveToken(st, j, g, now) ensures Until(now + expiresIn).Covers(st.artifacts[j].life) {
        assert Covered(st, j, g, now);
      }
    }
  }

  /**
   * Two upserts of one grant that both read the TTL before either MULTI runs: the longer-lived
   * access token ends up on a list that expires first, and revoking the grant misses it.
   */
  lemma OverlappingUpserts(body: string)
    ensures var empty := Store(map[], map[], map[], map[]);
            var p := Payload(Some(7), body);
            var code, access := Key(AuthorizationCode, 1), Key(AccessToken, 2);
            var after := Upsert(Upsert(empty, access, p, 600, Ttl(empty, 7, 0), 0), code, p, 60, Ttl(empty, 7, 0), 0);
            && !Indexed(after, 7, 0)
            && Find(DeleteListed(after, 7, Listed(after, 7, 60)), access, 60) == Some(p)
  {
    var empty := Store(map[], map[], map[], map[]);
    var p := Payload(Some(7), body);
    var code, access := Key(AuthorizationCode, 1), Key(AccessToken, 2);
    var after := Upsert(Upsert(empty, access, p, 600, Ttl(empty, 7, 0), 0), code, p, 60, Ttl(empty, 7, 0), 0);
    assert LiveToken(after, access, 7, 0) && !Covered(after, access, 7, 0);
    assert Listed(after, 7, 60) == [];
  }

  /** One upsert, a second after the TTL was read: the new token outlives the list by that second. */
  lemma TtlReadASecondAgo(body: string)
    ensures var p := Payload(Some(7), body);
            var first, second := Key(AccessToken, 1), Key(AccessToken, 2);
            var st := Upsert(Store(map[], map[], map[], map[]), first, p, 600, -2, 0);
            Ttl(st, 7, 0) == 600 && Indexed(st, 7, 1) && !Indexed(Upsert(st, second, p, 600, 600, 1), 7, 1)
  {
    var p := Payload(Some(7), body);
    var first, second := Key(AccessToken, 1), Key(AccessToken, 2);
    var st := Upsert(Store(map[], map[], map[], map[]), first, p, 600, -2, 0);
    var st' := Upsert(st, second, p, 600, 600, 1);
    assert LiveToken(st', second, 7, 1) && !Covered(st', second, 7, 1);
  }

  // ---- the MULTI of revokeByGrantId --------------------------------------------------------------------

  /** Every token of the grant that is live when the MULTI runs was on the list when it was read. */
  ghost predicate RevokeFits(st: Store, g: GrantId, keys: seq<Key>, now: int)
  {
    forall k | LiveToken(st, k, g, now) :: k in keys
  }

  /** Indexed afterwards, which here means that no token of the grant is left, if and only if the MULTI fits. */
  lemma RevokeKeepsIndexIff(st: Store, g: GrantId, keys: seq<Key>, now: int)
    ensures Indexed(DeleteListed(st, g, keys), g, now) <==> RevokeFits(st, g, keys, now)
    ensures RevokeFits(st, g, keys, now) <==> forall k :: !LiveToken(DeleteListed(st, g, keys), k, g, now)
  {
    var st' := DeleteListed(st, g, keys);
    forall k ensures LiveToken(st', k, g, now) <==> LiveToken(st, k, g, now) && k !in keys {
      assert k in Elems(keys) <==> k in keys;
    }
    if !RevokeFits(st, g, keys, now) {
      var k :| LiveToken(st, k, g, now) && k !in keys;
      assert LiveToken(st', k, g, now) && !Covered(st', k, g, now);
    }
  }

  lemma OtherRevokeKeepsIndex(st: Store, g: GrantId, h: GrantId, keys: seq<Key>, now: int)
    requires Indexed(st, g, now) && h != g
    ensures Indexed(DeleteListed(st, h, keys), g, now)
  {
    var st' := DeleteListed(st, h, keys);
    forall k | LiveToken(st', k, g, now) ensures Covered(st', k, g, now) {
      assert LiveToken(st, k, g, now);
      assert Covered(st, k, g, now);
    }
  }

  /** The MULTI fits when the list read before it is still the grant's. */
  lemma FreshListFits(st: Store, g: GrantId, now: int)
    requires Indexed(st, g, now)
    ensures RevokeFits(st, g, Listed(st, g, now), now)
  {
    forall k | LiveToken(st, k, g, now) ensures k in Listed(st, g, now) {
      assert Covered(st, k, g, now);
    }
  }

  /**
   * A client exchanges its code while the member signs out: LRANGE returns the code, the access token
   * is stored, then the MULTI runs. The access token lives on without a list, and revoking again
   * does not find it.
   */
  lemma ExchangeDuringRevoke(body: string)
    ensures var p := Payload(Some(7), body);
            var code, access := Key(AuthorizationCode, 1), Key(AccessToken, 2);
            var before := Upsert(Store(map[], map[], map[], map[]), code, p, 60, -2, 0);
            var keys := Listed(before, 7, 0);
            var exchanged := Upsert(before, access, p, 600, Ttl(before, 7, 0), 0);
            var after := DeleteListed(exchanged, 7, keys);
            && Indexed(exchanged, 7, 0)
            && LiveToken(after, access, 7, 0) && !Covered(after, access, 7, 0)
            && Find(DeleteListed(after, 7, Listed(after, 7, 0)), access, 0) == Some(p)
  {
    var p := Payload(Some(7), body);
    var code, access := Key(AuthorizationCode, 1), Key(AccessToken, 2);
    var before := Upsert(Store(map[], map[], map[], map[]), code, p, 60, -2, 0);
    var exchanged := Upsert(before, access, p, 600, Ttl(before, 7, 0), 0);
    assert Listed(before, 7, 0) == [code];
    assert Listed(exchanged, 7, 0) == [code, access];
    assert Listed(DeleteListed(exchanged, 7, [code]), 7, 0) == [];
  }

  // ---- everything else ---------------------------------------------------------------------------------

  /** No new live token, the same artifacts and list wherever a live token needs them, at the same time or later. */
  lemma IndexSurvives(st: Store, st': Store, g: GrantId, now: int, now': int)
    requires Indexed(st, g, now) && now <= now' && st'.lists == st.lists
    requires forall k | LiveToken(st', k, g, now') :: LiveToken(st, k, g, now) && st'.artifacts[k].life == st.artifacts[k].life
    ensures Indexed(st', g, now')
  {
    forall k | LiveToken(st', k, g, now') ensures Covered(st', k, g, now') {
      assert LiveToken(st, k, g, now);
      assert Covered(st, k, g, now);
    }
  }
}
