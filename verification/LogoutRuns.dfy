/**
 * Logging out while everything else goes on: tokens stored, grants revoked and finished, clients
 * joining and sessions ending in any number of requests, interleaved at their Redis commands and SQL
 * statements. Times are whole seconds.
 */
module LogoutRuns {
  import opened Common
  import opened LogoutQueue
  import opened OidcStore
  import opened TokenIndex

  /** endSession of the logout service: the tokens of the session, then one delivery per participant. */
  class LogoutService {
    const redis: OidcRedis
    const logouts: LogoutRepository

    constructor (redis: OidcRedis, logouts: LogoutRepository)
      ensures this.redis == redis && this.logouts == logouts
    {
      this.redis, this.logouts := redis, logouts;
    }

    /**
     * When nothing else happens meanwhile. `clientIds` is the participant query's result, in the order
     * the database returns it.
     */
    method EndSession(sid: LogoutQueue.Sid, clientIds: seq<ClientId>, id: JobId, jti: map<ClientId, nat>, now: int)
      requires forall i, j | 0 <= i < j < |clientIds| :: clientIds[i] != clientIds[j]
      requires Elems(clientIds) == ClientsOf(logouts.Now(), sid)
      requires forall c | c in clientIds :: c in jti
      modifies redis, logouts
      ensures redis.Now() == RevokeAll(old(redis.Now()), sid, GrantsOf(old(redis.Now()), sid, now), now)
      ensures logouts.Now() == InsertJob(old(logouts.Now()), id, sid, ClientsOf(old(logouts.Now()), sid), jti, now)
    {
      var grants := redis.RevokeGrants(sid, now);
      logouts.CreateJob(sid, clientIds, id, jti, now);
    }
  }

  // ---- requests in flight ------------------------------------------------------------------------------

  /** The command of `finish` that is next. */
  datatype FinishStage = ToSetContext | ToAddGrant | ToJoin

  /**
   * The command of `endSession` that is next; `again` tells the second revokeByGrantId, the one through
   * AuthorizationCode, from the first.
   */
  datatype EndStage =
    | ToReadSet
    | Between
    | ToReadList(g: GrantId, again: bool)
    | ToDelete(g: GrantId, keys: seq<OidcStore.Key>, again: bool)
    | ToLookUp(g: GrantId)
    | ToDestroy(g: GrantId)
    | ToForget(g: GrantId)
    | ToReadClients
    | ToInsert

  /**
   * What a request holds between two commands: an upsert that read the list's TTL, a revokeByGrantId
   * that read the list, a `finish`, or an `endSession` with the session's grants as it read them, those
   * still to do, those whose tokens and whose Grant it deleted, those it failed on, and the clients read.
   */
  datatype Flight =
    | Storing(k: OidcStore.Key, p: Payload, expiresIn: nat, readTtl: int)
    | Revoking(of: GrantId, read: seq<OidcStore.Key>)
    | Finishing(session: LogoutQueue.Sid, grant: GrantId, client: ClientId, next: FinishStage)
    | Ending(sid: LogoutQueue.Sid, stage: EndStage, grants: set<GrantId>, left: set<GrantId>,
             revoked: set<GrantId>, gone: set<GrantId>, failed: set<GrantId>, clients: set<ClientId>)

  /** `finished` are the grants added to a session's set, `cleared` the sessions whose set was deleted. */
  datatype State = State(
    now: int, store: Store, tables: Tables, flights: map<nat, Flight>,
    started: map<LogoutQueue.Sid, int>, ended: set<LogoutQueue.Sid>, cleared: set<LogoutQueue.Sid>,
    finished: set<(LogoutQueue.Sid, GrantId)>)

  datatype Step =
    | Wait(to: int)
    | Login(sid: LogoutQueue.Sid)
    | Use(k: OidcStore.Key)
    | Drop(k: OidcStore.Key)
    | ReadTtl(f: nat, k: OidcStore.Key, p: Payload, expiresIn: nat)
    | PushMulti(f: nat)
    | ReadKeys(f: nat, g: GrantId)
    | RevokeMulti(f: nat)
    | Finish(f: nat, sid: LogoutQueue.Sid, g: GrantId, client: ClientId)
    | GoOnFinish(f: nat)
    | HandOff(sid: LogoutQueue.Sid, client: ClientId)
    | Logout(f: nat, sid: LogoutQueue.Sid)
    | PickGrant(f: nat, g: GrantId)
    | GoOnLogout(f: nat)
    | Fail(f: nat)
    | Insert(f: nat, id: JobId, jti: map<ClientId, nat>)
    | Abandon(f: nat)

  predicate Running(s: State, sid: LogoutQueue.Sid, ttl: nat)
  {
    sid in s.started && sid !in s.ended && s.now < s.started[sid] + ttl
  }

  predicate EndingAt(s: State, f: nat)
  {
    f in s.flights && s.flights[f].Ending?
  }

  predicate Enabled(s: State, st: Step, ttl: nat)
  {
    match st
    case Wait(to) => s.now <= to
    case Login(sid) => sid !in s.started
    case ReadTtl(f, k, _, expiresIn) => f !in s.flights && (expiresIn > 0 || !k.model.Grantable())   // token lifetimes are at least 10 s
    case PushMulti(f) => f in s.flights && s.flights[f].Storing?
    case ReadKeys(f, _) => f !in s.flights
    case RevokeMulti(f) => f in s.flights && s.flights[f].Revoking?
    case Finish(f, sid, _, _) => f !in s.flights && Running(s, sid, ttl)
    case GoOnFinish(f) => f in s.flights && s.flights[f].Finishing?
    case HandOff(sid, _) => sid in s.started
    case Logout(f, sid) => f !in s.flights && Running(s, sid, ttl)
    case PickGrant(f, g) => EndingAt(s, f) && s.flights[f].stage.Between? && g in s.flights[f].left
    case GoOnLogout(f) => EndingAt(s, f) && !s.flights[f].stage.ToInsert? && (s.flights[f].stage.Between? ==> s.flights[f].left == {})
    case Fail(f) => EndingAt(s, f) && InGrant(s.flights[f].stage)
    case Insert(f, id, jti) =>
      && EndingAt(s, f) && s.flights[f].stage.ToInsert? && s.flights[f].clients <= jti.Keys
      && forall k | k in s.tables.deliveries :: k.job != id
    case Abandon(f) => f in s.flights
    case _ => true
  }

  /** The commands inside the try of one grant. */
  predicate InGrant(stage: EndStage)
  {
    stage.ToReadList? || stage.ToDelete? || stage.ToLookUp? || stage.ToDestroy?
  }

  function JoinClient(t: Tables, p: Participant): Tables
  {
    if p in t.participants then t else t.(participants := t.participants[p := None])
  }

  function WithStage(s: State, f: nat, stage: EndStage): State
    requires EndingAt(s, f)
  {
    s.(flights := s.flights[f := s.flights[f].(stage := stage)])
  }

  /** The next command of `endSession`. */
  function EndOn(s: State, f: nat): State
    requires EndingAt(s, f)
  {
    var e := s.flights[f];
    match e.stage
    case ToReadSet =>
      var grants := GrantsOf(s.store, e.sid, s.now);
      s.(flights := s.flights[f := e.(stage := Between, grants := grants, left := grants)])
    case Between =>
      WithStage(s, f, ToReadClients).(store := s.store.(sidGrants := s.store.sidGrants - {e.sid}), cleared := s.cleared + {e.sid})
    case ToReadList(g, again) => WithStage(s, f, ToDelete(g, Listed(s.store, g, s.now), again))
    case ToDelete(g, keys, again) =>
      s.(store := DeleteListed(s.store, g, keys),
         flights := s.flights[f := e.(stage := if again then ToLookUp(g) else ToReadList(g, true), revoked := e.revoked + {g})])
    case ToLookUp(g) =>
      if Find(s.store, OidcStore.Key(Grant, g), s.now).Some? then WithStage(s, f, ToDestroy(g))
      else s.(flights := s.flights[f := e.(stage := ToForget(g), gone := e.gone + {g})])
    case ToDestroy(g) =>
      s.(store := Destroy(s.store, OidcStore.Key(Grant, g)),
         flights := s.flights[f := e.(stage := ToForget(g), gone := e.gone + {g})])
    case ToForget(g) => WithStage(s, f, Between).(store := s.store.(contexts := s.store.contexts - {g}))
    case ToReadClients => s.(flights := s.flights[f := e.(stage := ToInsert, clients := ClientsOf(s.tables, e.sid))])
    case ToInsert => s
  }

  /** The next statement of `finish`. */
  function FinishOn(s: State, f: nat, ttl: nat): State
    requires f in s.flights && s.flights[f].Finishing?
  {
    var x := s.flights[f];
    match x.next
    case ToSetContext => s.(store := SetContext(s.store, x.session, x.grant), flights := s.flights[f := x.(next := ToAddGrant)])
    case ToAddGrant =>
      s.(store := AddGrant(s.store, x.session, x.grant, ttl, s.now), finished := s.finished + {(x.session, x.grant)},
         flights := s.flights[f := x.(next := ToJoin)])
    case ToJoin => s.(tables := JoinClient(s.tables, Participant(x.session, x.client)), flights := s.flights - {f})
  }

  function Apply(s: State, st: Step, ttl: nat): State
    requires Enabled(s, st, ttl)
  {
    match st
    case Wait(to) => s.(now := to)
    case Login(sid) => s.(started := s.started[sid := s.now])
    case Use(k) => s.(store := Consume(s.store, k, s.now))
    case Drop(k) => s.(store := Destroy(s.store, k))
    case ReadTtl(f, k, p, expiresIn) =>
      s.(flights := s.flights[f := Storing(k, p, expiresIn, if p.grantId.Some? then Ttl(s.store, p.grantId.value, s.now) else 0)])
    case PushMulti(f) =>
      var x := s.flights[f];
      s.(store := Upsert(s.store, x.k, x.p, x.expiresIn, x.readTtl, s.now), flights := s.flights - {f})
    case ReadKeys(f, g) => s.(flights := s.flights[f := Revoking(g, Listed(s.store, g, s.now))])
    case RevokeMulti(f) =>
      s.(store := DeleteListed(s.store, s.flights[f].of, s.flights[f].read), flights := s.flights - {f})
    case Finish(f, sid, g, client) => s.(flights := s.flights[f := Finishing(sid, g, client, ToSetContext)])
    case GoOnFinish(f) => FinishOn(s, f, ttl)
    case HandOff(sid, client) => s.(tables := JoinClient(s.tables, Participant(sid, client)))
    case Logout(f, sid) =>
      s.(ended := s.ended + {sid}, flights := s.flights[f := Ending(sid, ToReadSet, {}, {}, {}, {}, {}, {})])
    case PickGrant(f, g) =>
      s.(flights := s.flights[f := s.flights[f].(stage := ToReadList(g, false), left := s.flights[f].left - {g})])
    case GoOnLogout(f) => EndOn(s, f)
    case Fail(f) =>
      s.(flights := s.flights[f := s.flights[f].(stage := ToForget(s.flights[f].stage.g), failed := s.flights[f].failed + {s.flights[f].stage.g})])
    case Insert(f, id, jti) =>
      s.(tables := InsertJob(s.tables, id, s.flights[f].sid, s.flights[f].clients, jti, s.now), flights := s.flights - {f})
    case Abandon(f) => s.(flights := s.flights - {f})
  }

  ghost predicate IsRun(tr: seq<State>, steps: seq<Step>, ttl: nat)
  {
    && |tr| == |steps| + 1
    && tr[0].store == Store(map[], map[], map[], map[])
    && tr[0].tables == Tables(map[], map[], map[]) && tr[0].flights == map[]
    && tr[0].started == map[] && tr[0].ended == {} && tr[0].cleared == {} && tr[0].finished == {}
    && forall i | 0 <= i < |steps| :: Enabled(tr[i], steps[i], ttl) && tr[i + 1] == Apply(tr[i], steps[i], ttl)
  }

  // ---- the index over a run ----------------------------------------------------------------------------

  /** The step is the MULTI of an upsert, of an artifact with this key and payload. */
  predicate Pushes(s: State, st: Step, k: OidcStore.Key, p: Payload)
  {
    st.PushMulti? && st.f in s.flights && s.flights[st.f].Storing? && s.flights[st.f].k == k && s.flights[st.f].p == p
  }

  /** The keys that the step, the MULTI of a revokeByGrantId of `g`, deletes. */
  function Revoked(s: State, st: Step, g: GrantId): Option<seq<OidcStore.Key>>
  {
    if st.RevokeMulti? && st.f in s.flights && s.flights[st.f].Revoking? && s.flights[st.f].of == g then Some(s.flights[st.f].read)
    else if st.GoOnLogout? && EndingAt(s, st.f) && s.flights[st.f].stage.ToDelete? && s.flights[st.f].stage.g == g
    then Some(s.flights[st.f].stage.keys)
    else None
  }

  predicate PushesFor(s: State, st: Step, g: GrantId)
  {
    && st.PushMulti? && st.f in s.flights && s.flights[st.f].Storing?
    && s.flights[st.f].k.model.Grantable() && s.flights[st.f].p.grantId == Some(g)
  }

  /** If the step is a MULTI on the tokens of `g`, what it read before fits the store. */
  ghost predicate StepFits(s: State, st: Step, g: GrantId)
  {
    && (PushesFor(s, st, g) ==>
          UpsertFits(s.store, s.flights[st.f].k, g, s.flights[st.f].expiresIn, s.flights[st.f].readTtl, s.now))
    && (Revoked(s, st, g).Some? ==> RevokeFits(s.store, g, Revoked(s, st, g).value, s.now))
  }

  lemma StepIndexIff(s: State, st: Step, ttl: nat, g: GrantId)
    requires Enabled(s, st, ttl) && Indexed(s.store, g, s.now)
    ensures Indexed(Apply(s, st, ttl).store, g, Apply(s, st, ttl).now) <==> StepFits(s, st, g)
  {
    if st.PushMulti? {
      PushIndexIff(s, st, ttl, g);
    } else if st.RevokeMulti? || (st.GoOnLogout? && s.flights[st.f].stage.ToDelete?) {
      RevokeIndexIff(s, st, ttl, g);
    } else {
      OtherKeepsIndex(s, st, ttl, g);
    }
  }

  lemma PushIndexIff(s: State, st: Step, ttl: nat, g: GrantId)
    requires st.PushMulti? && Enabled(s, st, ttl) && Indexed(s.store, g, s.now)
    ensures Indexed(Apply(s, st, ttl).store, g, s.now) <==> StepFits(s, st, g)
  {
    var x := s.flights[st.f];
    if PushesFor(s, st, g) {
      UpsertKeepsIndexIff(s.store, x.k, x.p, g, x.expiresIn, x.readTtl, s.now);
    } else {
      OtherUpsertKeepsIndex(s.store, x.k, x.p, g, x.expiresIn, x.readTtl, s.now);
    }
  }

  lemma RevokeIndexIff(s: State, st: Step, ttl: nat, g: GrantId)
    requires Enabled(s, st, ttl) && Indexed(s.store, g, s.now)
    requires st.RevokeMulti? || (st.GoOnLogout? && s.flights[st.f].stage.ToDelete?)
    ensures Indexed(Apply(s, st, ttl).store, g, s.now) <==> StepFits(s, st, g)
  {
    var h := if st.RevokeMulti? then s.flights[st.f].of else s.flights[st.f].stage.g;
    var keys := if st.RevokeMulti? then s.flights[st.f].read else s.flights[st.f].stage.keys;
    if h == g { RevokeKeepsIndexIff(s.store, g, keys, s.now); } else { OtherRevokeKeepsIndex(s.store, g, h, keys, s.now); }
  }

  lemma OtherKeepsIndex(s: State, st: Step, ttl: nat, g: GrantId)
    requires Enabled(s, st, ttl) && Indexed(s.store, g, s.now)
    requires !st.PushMulti? && !st.RevokeMulti? && !(st.GoOnLogout? && s.flights[st.f].stage.ToDelete?)
    ensures Indexed(Apply(s, st, ttl).store, g, Apply(s, st, ttl).now)
  {
    IndexSurvives(s.store, Apply(s, st, ttl).store, g, s.now, Apply(s, st, ttl).now);
  }

  /** Every MULTI on the tokens of `g` before state `i` fitted what it found. */
  ghost predicate AllFit(tr: seq<State>, steps: seq<Step>, ttl: nat, g: GrantId, i: nat)
    requires IsRun(tr, steps, ttl) && i < |tr|
  {
    forall n | 0 <= n < i :: StepFits(tr[n], steps[n], g)
  }

  lemma {:induction false} FittingIndexes(tr: seq<State>, steps: seq<Step>, ttl: nat, g: GrantId, i: nat)
    requires IsRun(tr, steps, ttl) && i < |tr| && AllFit(tr, steps, ttl, g, i)
    ensures Indexed(tr[i].store, g, tr[i].now)
  {
    if i > 0 {
      FittingIndexes(tr, steps, ttl, g, i - 1);
      assert tr[i - 1 + 1] == Apply(tr[i - 1], steps[i - 1], ttl);
      StepIndexIff(tr[i - 1], steps[i - 1], ttl, g);
    }
  }

  /**
   * In every run: each live token of a grant is on the grant's list, which expires no earlier, in
   * every state up to this one if and only if every MULTI on that grant's tokens fitted.
   */
  lemma TokensIndexedIff(tr: seq<State>, steps: seq<Step>, ttl: nat, g: GrantId, i: nat)
    requires IsRun(tr, steps, ttl) && i < |tr|
    ensures (forall n | 0 <= n <= i :: Indexed(tr[n].store, g, tr[n].now)) <==> AllFit(tr, steps, ttl, g, i)
  {
    if AllFit(tr, steps, ttl, g, i) {
      forall n | 0 <= n <= i ensures Indexed(tr[n].store, g, tr[n].now) { FittingIndexes(tr, steps, ttl, g, n); }
    }
    if forall n | 0 <= n <= i :: Indexed(tr[n].store, g, tr[n].now) {
      forall n | 0 <= n < i ensures StepFits(tr[n], steps[n], g) {
        assert Indexed(tr[n].store, g, tr[n].now) && Indexed(tr[n + 1].store, g, tr[n + 1].now);
        StepIndexIff(tr[n], steps[n], ttl, g);
      }
    }
  }

  /** The TTL and the list that a MULTI on the tokens of `g` read are still what the store says. */
  predicate ReadsAreFresh(s: State, st: Step, g: GrantId)
  {
    && (PushesFor(s, st, g) ==> s.flights[st.f].readTtl == Ttl(s.store, g, s.now))
    && (Revoked(s, st, g).Some? ==> Revoked(s, st, g).value == Listed(s.store, g, s.now))
  }

  /** Lists always get an expiry, and upserts of tokens have a lifetime. */
  ghost predicate Timed(s: State, g: GrantId)
  {
    && (g in s.store.lists ==> s.store.lists[g].life.Until?)
    && forall f | f in s.flights && s.flights[f].Storing? && s.flights[f].k.model.Grantable() :: s.flights[f].expiresIn > 0
  }

  lemma StepTimed(s: State, st: Step, ttl: nat, g: GrantId)
    requires Enabled(s, st, ttl) && Timed(s, g) && ReadsAreFresh(s, st, g)
    ensures Timed(Apply(s, st, ttl), g)
  {
  }

  /** Operations on one grant that do not overlap, nor straddle a tick of the clock, always fit. */
  lemma {:induction false} FreshReadsFit(tr: seq<State>, steps: seq<Step>, ttl: nat, g: GrantId, i: nat)
    requires IsRun(tr, steps, ttl) && i < |tr| && forall n | 0 <= n < i :: ReadsAreFresh(tr[n], steps[n], g)
    ensures Timed(tr[i], g) && AllFit(tr, steps, ttl, g, i)
  {
    if i > 0 {
      FreshReadsFit(tr, steps, ttl, g, i - 1);
      FittingIndexes(tr, steps, ttl, g, i - 1);
      var s, st := tr[i - 1], steps[i - 1];
      assert tr[i - 1 + 1] == Apply(s, st, ttl);
      StepTimed(s, st, ttl, g);
      if PushesFor(s, st, g) { FreshTtlFits(s.store, s.flights[st.f].k, g, s.flights[st.f].expiresIn, s.now); }
      FreshListFits(s.store, g, s.now);
    }
  }

  // ---- what is found later was stored later ------------------------------------------------------------

  /** No other statement makes an artifact findable. */
  lemma OthersStoreNothing(s: State, st: Step, ttl: nat, k: OidcStore.Key, p: Payload)
    requires Enabled(s, st, ttl) && !st.PushMulti?
    requires Find(Apply(s, st, ttl).store, k, Apply(s, st, ttl).now) == Some(p)
    ensures Find(s.store, k, s.now) == Some(p)
  {
  }

  lemma StepStores(s: State, st: Step, ttl: nat, k: OidcStore.Key, p: Payload)
    requires Enabled(s, st, ttl) && Find(s.store, k, s.now) != Some(p)
    requires Find(Apply(s, st, ttl).store, k, Apply(s, st, ttl).now) == Some(p)
    ensures Pushes(s, st, k, p)
  {
    if !st.PushMulti? { OthersStoreNothing(s, st, ttl, k, p); }
  }

  /** An artifact that is found now and was not then was stored in between. */
  lemma {:induction false} StoredBetween(tr: seq<State>, steps: seq<Step>, ttl: nat, i: nat, j: nat, k: OidcStore.Key, p: Payload)
    returns (n: nat)
    requires IsRun(tr, steps, ttl) && i <= j < |tr|
    requires Find(tr[i].store, k, tr[i].now) != Some(p) && Find(tr[j].store, k, tr[j].now) == Some(p)
    ensures i <= n < j && Pushes(tr[n], steps[n], k, p)
    decreases j
  {
    assert tr[j - 1 + 1] == Apply(tr[j - 1], steps[j - 1], ttl);
    if Find(tr[j - 1].store, k, tr[j - 1].now) == Some(p) {
      n := StoredBetween(tr, steps, ttl, i, j - 1, k, p);
    } else {
      StepStores(tr[j - 1], steps[j - 1], ttl, k, p);
      n := j - 1;
    }
  }

  // ---- the session's grants are all read ---------------------------------------------------------------

  /** The session's set still names every grant added to it, until the session can live no longer. */
  ghost predicate GrantsKept(s: State, ttl: nat)
  {
    forall sid, g: GrantId | (sid, g) in s.finished && sid !in s.cleared :: Kept(s, sid, g, ttl)
  }

  predicate BeforeClear(stage: EndStage)
  {
    !stage.ToReadClients? && !stage.ToInsert?
  }

  /** One `endSession` per session, which has not deleted the set before it is done with the grants. */
  ghost predicate EndingsOk(s: State)
  {
    && s.cleared <= s.ended
    && (forall sid | sid in s.started :: s.started[sid] <= s.now)
    && (forall f | f in s.flights && s.flights[f].Finishing? :: s.flights[f].session in s.started)
    && (forall f | EndingAt(s, f) :: s.flights[f].sid in s.ended && (BeforeClear(s.flights[f].stage) ==> s.flights[f].sid !in s.cleared))
    && (forall e, f | EndingAt(s, e) && EndingAt(s, f) && e != f :: s.flights[e].sid != s.flights[f].sid)
  }

  /** Where an `endSession` stands with a grant that it read. */
  predicate Handled(e: Flight, g: GrantId)
    requires e.Ending?
  {
    || g in e.left || g in e.failed || (g in e.revoked && g in e.gone)
    || (e.stage.ToReadList? && e.stage.g == g && (e.stage.again ==> g in e.revoked))
    || (e.stage.ToDelete? && e.stage.g == g && (e.stage.again ==> g in e.revoked))
    || ((e.stage.ToLookUp? || e.stage.ToDestroy?) && e.stage.g == g && g in e.revoked)
  }

  ghost predicate AllHandled(s: State)
  {
    forall f | EndingAt(s, f) :: FlightHandled(s.flights[f])
  }

  ghost predicate Inv(s: State, ttl: nat)
  {
    GrantsKept(s, ttl) && EndingsOk(s) && AllHandled(s)
  }

  /** The set of a session names this grant for as long as the session can live. */
  predicate Kept(s: State, sid: LogoutQueue.Sid, g: GrantId, ttl: nat)
  {
    && sid in s.started && s.started[sid] <= s.now
    && (s.now < s.started[sid] + ttl ==>
          sid in s.store.sidGrants && g in s.store.sidGrants[sid].grants
          && s.store.sidGrants[sid].life.Covers(Until(s.started[sid] + ttl)))
  }

  /** The MULTI of `finish`: the new grant and those that were there. */
  lemma AddedGrantKept(s: State, f: nat, ttl: nat, sid: LogoutQueue.Sid, g: GrantId)
    requires EndingsOk(s) && f in s.flights && s.flights[f].Finishing? && s.flights[f].next.ToAddGrant?
    requires (sid, g) == (s.flights[f].session, s.flights[f].grant) || Kept(s, sid, g, ttl)
    ensures Kept(FinishOn(s, f, ttl), sid, g, ttl)
  {
    assert s.flights[f].session in s.started;
  }

  lemma OtherGrantKept(s: State, st: Step, ttl: nat, sid: LogoutQueue.Sid, g: GrantId)
    requires Enabled(s, st, ttl) && sid !in Apply(s, st, ttl).cleared && Kept(s, sid, g, ttl)
    requires !(st.GoOnFinish? && s.flights[st.f].next.ToAddGrant?)
    ensures Kept(Apply(s, st, ttl), sid, g, ttl)
  {
  }

  lemma FinishedMoves(s: State, st: Step, ttl: nat, sid: LogoutQueue.Sid, g: GrantId)
    requires Enabled(s, st, ttl) && (sid, g) in Apply(s, st, ttl).finished
    ensures s.cleared <= Apply(s, st, ttl).cleared
    ensures || (sid, g) in s.finished
            || (st.GoOnFinish? && s.flights[st.f].next.ToAddGrant? && (sid, g) == (s.flights[st.f].session, s.flights[st.f].grant))
  {
  }

  lemma GrantKept(s: State, st: Step, ttl: nat, sid: LogoutQueue.Sid, g: GrantId)
    requires EndingsOk(s) && Enabled(s, st, ttl) && sid !in Apply(s, st, ttl).cleared && (sid, g) in Apply(s, st, ttl).finished
    requires (sid, g) in s.finished && sid !in s.cleared ==> Kept(s, sid, g, ttl)
    ensures Kept(Apply(s, st, ttl), sid, g, ttl)
  {
    FinishedMoves(s, st, ttl, sid, g);
    if st.GoOnFinish? && s.flights[st.f].next.ToAddGrant? {
      AddedGrantKept(s, st.f, ttl, sid, g);
    } else {
      OtherGrantKept(s, st, ttl, sid, g);
    }
  }

  lemma StepKeepsGrants(s: State, st: Step, ttl: nat)
    requires GrantsKept(s, ttl) && EndingsOk(s) && Enabled(s, st, ttl)
    ensures GrantsKept(Apply(s, st, ttl), ttl)
  {
    var s' := Apply(s, st, ttl);
    forall sid, g: GrantId | (sid, g) in s'.finished && sid !in s'.cleared ensures Kept(s', sid, g, ttl) {
      GrantKept(s, st, ttl, sid, g);
    }
  }

  /** An `endSession` in flight was started by this step, or is the same one, no earlier in its course. */
  lemma EndingMoves(s: State, st: Step, ttl: nat, f: nat)
    requires Enabled(s, st, ttl) && EndingAt(Apply(s, st, ttl), f)
    ensures var e' := Apply(s, st, ttl).flights[f];
            || (st.Logout? && st.f == f && e'.sid == st.sid && e'.stage.ToReadSet?)
            || (EndingAt(s, f) && s.flights[f].sid == e'.sid && (BeforeClear(e'.stage) ==> BeforeClear(s.flights[f].stage)))
  {
  }

  /** Only an `endSession` that is done with its grants clears its own session's set. */
  lemma ClearedMoves(s: State, st: Step, ttl: nat)
    requires Enabled(s, st, ttl)
    ensures var s' := Apply(s, st, ttl);
            || s'.cleared == s.cleared
            || (st.GoOnLogout? && EndingAt(s, st.f) && EndingAt(s', st.f) && s'.cleared == s.cleared + {s.flights[st.f].sid}
                && !BeforeClear(s'.flights[st.f].stage) && s.flights[st.f].stage.Between?)
    ensures s.ended <= Apply(s, st, ttl).ended && (st.Logout? || Apply(s, st, ttl).ended == s.ended)
  {
  }

  lemma EndingKept(s: State, st: Step, ttl: nat, f: nat)
    requires EndingsOk(s) && Enabled(s, st, ttl) && EndingAt(Apply(s, st, ttl), f)
    ensures var s' := Apply(s, st, ttl);
            s'.flights[f].sid in s'.ended && (BeforeClear(s'.flights[f].stage) ==> s'.flights[f].sid !in s'.cleared)
  {
    EndingMoves(s, st, ttl, f);
    ClearedMoves(s, st, ttl);
  }

  lemma EndingsApart(s: State, st: Step, ttl: nat, e: nat, f: nat)
    requires EndingsOk(s) && Enabled(s, st, ttl) && EndingAt(Apply(s, st, ttl), e) && EndingAt(Apply(s, st, ttl), f) && e != f
    ensures Apply(s, st, ttl).flights[e].sid != Apply(s, st, ttl).flights[f].sid
  {
    EndingMoves(s, st, ttl, e);
    EndingMoves(s, st, ttl, f);
  }

  lemma SessionsKept(s: State, st: Step, ttl: nat)
    requires EndingsOk(s) && Enabled(s, st, ttl)
    ensures var s' := Apply(s, st, ttl);
            && s'.cleared <= s'.ended
            && (forall sid | sid in s'.started :: s'.started[sid] <= s'.now)
            && (forall f | f in s'.flights && s'.flights[f].Finishing? :: s'.flights[f].session in s'.started)
  {
    ClearedMoves(s, st, ttl);
  }

  lemma StepKeepsEndings(s: State, st: Step, ttl: nat)
    requires EndingsOk(s) && Enabled(s, st, ttl)
    ensures EndingsOk(Apply(s, st, ttl))
  {
    var s' := Apply(s, st, ttl);
    SessionsKept(s, st, ttl);
    forall f | EndingAt(s', f)
      ensures s'.flights[f].sid in s'.ended && (BeforeClear(s'.flights[f].stage) ==> s'.flights[f].sid !in s'.cleared)
    {
      EndingKept(s, st, ttl, f);
    }
    forall e, f | EndingAt(s', e) && EndingAt(s', f) && e != f ensures s'.flights[e].sid != s'.flights[f].sid {
      EndingsApart(s, st, ttl, e, f);
    }
  }

  ghost predicate FlightHandled(e: Flight)
    requires e.Ending?
  {
    && (e.stage.ToReadSet? ==> e.revoked == {} && e.gone == {})
    && (!BeforeClear(e.stage) ==> e.left == {})
    && forall g | g in e.grants :: Handled(e, g)
  }

  lemma HandledKept(s: State, st: Step, ttl: nat, f: nat)
    requires Enabled(s, st, ttl) && EndingAt(Apply(s, st, ttl), f)
    requires EndingAt(s, f) ==> FlightHandled(s.flights[f])
    ensures FlightHandled(Apply(s, st, ttl).flights[f])
  {
  }

  lemma StepKeepsHandled(s: State, st: Step, ttl: nat)
    requires AllHandled(s) && Enabled(s, st, ttl)
    ensures AllHandled(Apply(s, st, ttl))
  {
    forall f | EndingAt(Apply(s, st, ttl), f) ensures FlightHandled(Apply(s, st, ttl).flights[f]) {
      HandledKept(s, st, ttl, f);
    }
  }

  lemma StepKeeps(s: State, st: Step, ttl: nat)
    requires Inv(s, ttl) && Enabled(s, st, ttl)
    ensures Inv(Apply(s, st, ttl), ttl)
  {
    StepKeepsGrants(s, st, ttl);
    StepKeepsEndings(s, st, ttl);
    StepKeepsHandled(s, st, ttl);
  }

  lemma {:induction false} Reachable(tr: seq<State>, steps: seq<Step>, ttl: nat, i: nat)
    requires IsRun(tr, steps, ttl) && i < |tr|
    ensures Inv(tr[i], ttl)
  {
    if i > 0 {
      Reachable(tr, steps, ttl, i - 1);
      assert tr[i - 1 + 1] == Apply(tr[i - 1], steps[i - 1], ttl);
      StepKeeps(tr[i - 1], steps[i - 1], ttl);
    }
  }

  // ---- what a logout leaves ----------------------------------------------------------------------------

  lemma StepAt(tr: seq<State>, steps: seq<Step>, ttl: nat, i: nat)
    requires IsRun(tr, steps, ttl) && i < |steps|
    ensures Enabled(tr[i], steps[i], ttl) && tr[i + 1] == Apply(tr[i], steps[i], ttl)
  {
  }

  lemma {:induction false} ReadAt(tr: seq<State>, steps: seq<Step>, ttl: nat, i: nat, f: nat) returns (r: nat)
    requires IsRun(tr, steps, ttl) && i < |tr| && EndingAt(tr[i], f) && !tr[i].flights[f].stage.ToReadSet?
    ensures r < i && steps[r] == GoOnLogout(f)
    ensures EndingAt(tr[r], f) && tr[r].flights[f].stage.ToReadSet? && tr[r].flights[f].sid == tr[i].flights[f].sid
    ensures tr[i].flights[f].grants == GrantsOf(tr[r].store, tr[i].flights[f].sid, tr[r].now)
  {
    var s, st := tr[i - 1], steps[i - 1];
    StepAt(tr, steps, ttl, i - 1);
    if st == GoOnLogout(f) && s.flights[f].stage.ToReadSet? {
      r := i - 1;
    } else {
      ReadBefore(s, st, ttl, f);
      r := ReadAt(tr, steps, ttl, i - 1, f);
    }
  }

  lemma ReadBefore(s: State, st: Step, ttl: nat, f: nat)
    requires Enabled(s, st, ttl) && EndingAt(Apply(s, st, ttl), f) && !Apply(s, st, ttl).flights[f].stage.ToReadSet?
    requires !(st == GoOnLogout(f) && s.flights[f].stage.ToReadSet?)
    ensures EndingAt(s, f) && !s.flights[f].stage.ToReadSet?
    ensures s.flights[f].sid == Apply(s, st, ttl).flights[f].sid && s.flights[f].grants == Apply(s, st, ttl).flights[f].grants
  {
  }

  /** The state before this one, and the step that led here. */
  lemma Back(tr: seq<State>, steps: seq<Step>, ttl: nat, i: nat)
    requires IsRun(tr, steps, ttl) && 0 < i < |tr|
    ensures Enabled(tr[i - 1], steps[i - 1], ttl) && tr[i] == Apply(tr[i - 1], steps[i - 1], ttl) && AllHandled(tr[i - 1])
  {
    Reachable(tr, steps, ttl, i - 1);
    assert tr[i - 1 + 1] == Apply(tr[i - 1], steps[i - 1], ttl);
  }

  lemma RevokedBefore(s: State, st: Step, ttl: nat, f: nat, g: GrantId)
    requires AllHandled(s) && Enabled(s, st, ttl) && EndingAt(Apply(s, st, ttl), f) && g in Apply(s, st, ttl).flights[f].revoked
    ensures EndingAt(s, f)
    ensures (st == GoOnLogout(f) && Revoked(s, st, g).Some?) || g in s.flights[f].revoked
  {
  }

  /** How the step from `s` to `s'` can have put the grant among the revoked ones. */
  ghost predicate RevokedStep(s: State, st: Step, s': State, f: nat, g: GrantId)
  {
    EndingAt(s', f) && g in s'.flights[f].revoked ==>
      EndingAt(s, f) && ((st == GoOnLogout(f) && Revoked(s, st, g).Some?) || g in s.flights[f].revoked)
  }

  lemma {:induction false} RevokedIndex(tr: seq<State>, steps: seq<Step>, i: nat, f: nat, g: GrantId) returns (m: nat)
    requires |tr| == |steps| + 1 && i < |tr| && tr[0].flights == map[]
    requires EndingAt(tr[i], f) && g in tr[i].flights[f].revoked
    requires forall n | 0 <= n < i :: RevokedStep(tr[n], steps[n], tr[n + 1], f, g)
    ensures m < i && steps[m] == GoOnLogout(f) && EndingAt(tr[m], f) && Revoked(tr[m], steps[m], g).Some?
    ensures forall n | m < n <= i :: EndingAt(tr[n], f) && g in tr[n].flights[f].revoked
  {
    m := i - 1;
    assert RevokedStep(tr[m], steps[m], tr[m + 1], f, g);
    if !(steps[m] == GoOnLogout(f) && Revoked(tr[m], steps[m], g).Some?) { m := RevokedIndex(tr, steps, i - 1, f, g); }
  }

  /** The step at which an `endSession` last deleted the tokens of a grant. */
  lemma RevokedAt(tr: seq<State>, steps: seq<Step>, ttl: nat, i: nat, f: nat, g: GrantId) returns (m: nat)
    requires IsRun(tr, steps, ttl) && i < |tr| && EndingAt(tr[i], f) && g in tr[i].flights[f].revoked
    ensures m < i && steps[m] == GoOnLogout(f) && EndingAt(tr[m], f) && Revoked(tr[m], steps[m], g).Some?
    ensures forall n | m < n <= i :: EndingAt(tr[n], f) && g in tr[n].flights[f].revoked
  {
    forall n | 0 <= n < i ensures RevokedStep(tr[n], steps[n], tr[n + 1], f, g) {
      Back(tr, steps, ttl, n + 1);
      if EndingAt(tr[n + 1], f) && g in tr[n + 1].flights[f].revoked { RevokedBefore(tr[n], steps[n], ttl, f, g); }
    }
    m := RevokedIndex(tr, steps, i, f, g);
  }

  lemma GoneBefore(s: State, st: Step, ttl: nat, f: nat, g: GrantId)
    requires AllHandled(s) && Enabled(s, st, ttl) && EndingAt(Apply(s, st, ttl), f) && g in Apply(s, st, ttl).flights[f].gone
    ensures EndingAt(s, f)
    ensures g in s.flights[f].gone
         || (st == GoOnLogout(f) && !s.flights[f].stage.ToReadSet?
             && Find(Apply(s, st, ttl).store, OidcStore.Key(Grant, g), Apply(s, st, ttl).now) == None)
  {
  }

  /** How the step from `s` to `s'` can have put the grant among those that are gone. */
  ghost predicate GoneStep(s: State, st: Step, s': State, f: nat, g: GrantId)
  {
    EndingAt(s', f) && g in s'.flights[f].gone ==>
      EndingAt(s, f)
      && (g in s.flights[f].gone
          || (st == GoOnLogout(f) && !s.flights[f].stage.ToReadSet? && Find(s'.store, OidcStore.Key(Grant, g), s'.now) == None))
  }

  lemma {:induction false} GoneIndex(tr: seq<State>, steps: seq<Step>, i: nat, f: nat, g: GrantId) returns (d: nat)
    requires |tr| == |steps| + 1 && i < |tr| && tr[0].flights == map[]
    requires EndingAt(tr[i], f) && g in tr[i].flights[f].gone
    requires forall n | 0 <= n < i :: GoneStep(tr[n], steps[n], tr[n + 1], f, g)
    ensures d < i && steps[d] == GoOnLogout(f) && EndingAt(tr[d], f) && !tr[d].flights[f].stage.ToReadSet?
    ensures forall n | d < n <= i :: EndingAt(tr[n], f) && g in tr[n].flights[f].gone
    ensures Find(tr[d + 1].store, OidcStore.Key(Grant, g), tr[d + 1].now) == None
  {
    d := i - 1;
    assert GoneStep(tr[d], steps[d], tr[d + 1], f, g);
    if g in tr[d].flights[f].gone { d := GoneIndex(tr, steps, i - 1, f, g); }
  }

  /** The step after which the Grant itself was not to be found. */
  lemma GoneAt(tr: seq<State>, steps: seq<Step>, ttl: nat, i: nat, f: nat, g: GrantId) returns (d: nat)
    requires IsRun(tr, steps, ttl) && i < |tr| && EndingAt(tr[i], f) && g in tr[i].flights[f].gone
    ensures d < i && steps[d] == GoOnLogout(f) && EndingAt(tr[d], f) && !tr[d].flights[f].stage.ToReadSet?
    ensures forall n | d < n <= i :: EndingAt(tr[n], f) && g in tr[n].flights[f].gone
    ensures Find(tr[d + 1].store, OidcStore.Key(Grant, g), tr[d + 1].now) == None
  {
    forall n | 0 <= n < i ensures GoneStep(tr[n], steps[n], tr[n + 1], f, g) {
      Back(tr, steps, ttl, n + 1);
      if EndingAt(tr[n + 1], f) && g in tr[n + 1].flights[f].gone { GoneBefore(tr[n], steps[n], ttl, f, g); }
    }
    d := GoneIndex(tr, steps, i, f, g);
  }

  /** The `endSession` is done with the session's grants. */
  predicate GrantsDone(s: State, f: nat)
  {
    EndingAt(s, f) && !BeforeClear(s.flights[f].stage)
  }

  /** The grant was finished in the session, in time, when the `endSession` read the session's set at step `r`. */
  predicate FinishedAt(tr: seq<State>, r: nat, sid: LogoutQueue.Sid, g: GrantId, ttl: nat)
    requires r < |tr|
  {
    (sid, g) in tr[r].finished && sid in tr[r].started && tr[r].now < tr[r].started[sid] + ttl
  }

  /**
   * Logging out leaves no live token. Every grant that was finished in the session when its grants
   * were read is dealt with, unless the code caught an error on it: at step `m` its tokens are deleted.
   * If every MULTI on the grant's tokens fitted, any token of the grant that can be found afterwards
   * was stored after that; and if the Grant itself can be found, it was stored again after the read.
   */
  lemma LogoutIsComplete(tr: seq<State>, steps: seq<Step>, ttl: nat, i: nat, f: nat, g: GrantId) returns (r: nat, m: nat)
    requires IsRun(tr, steps, ttl) && i < |tr| && GrantsDone(tr[i], f)
    ensures r < i && steps[r] == GoOnLogout(f) && EndingAt(tr[r], f) && tr[r].flights[f].stage.ToReadSet?
    ensures tr[r].flights[f].sid == tr[i].flights[f].sid
    ensures FinishedAt(tr, r, tr[i].flights[f].sid, g, ttl) && g !in tr[i].flights[f].failed ==>
      && r < m < i && steps[m] == GoOnLogout(f) && Revoked(tr[m], steps[m], g).Some?
      && (AllFit(tr, steps, ttl, g, i) ==>
            forall k, p | LiveToken(tr[i].store, k, g, tr[i].now) && Find(tr[i].store, k, tr[i].now) == Some(p) ::
              exists n :: m < n < i && Pushes(tr[n], steps[n], k, p))
      && (forall p | Find(tr[i].store, OidcStore.Key(Grant, g), tr[i].now) == Some(p) ::
            exists n :: r < n < i && Pushes(tr[n], steps[n], OidcStore.Key(Grant, g), p))
  {
    var e := tr[i].flights[f];
    r := ReadAt(tr, steps, ttl, i, f);
    m := 0;
    if FinishedAt(tr, r, e.sid, g, ttl) && g !in e.failed {
      Reachable(tr, steps, ttl, r);
      Reachable(tr, steps, ttl, i);
      assert g in e.grants && Handled(e, g);
      m := RevokedAt(tr, steps, ttl, i, f, g);
      if AllFit(tr, steps, ttl, g, i) { OnlyLaterTokens(tr, steps, ttl, m, i, g); }
      OnlyLaterGrant(tr, steps, ttl, r, i, f, g);
    }
  }

  /** After a fitting deletion of a grant's tokens, its tokens are those stored since. */
  lemma OnlyLaterTokens(tr: seq<State>, steps: seq<Step>, ttl: nat, m: nat, i: nat, g: GrantId)
    requires IsRun(tr, steps, ttl) && m < i < |tr| && AllFit(tr, steps, ttl, g, i) && Revoked(tr[m], steps[m], g).Some?
    ensures forall k, p | LiveToken(tr[i].store, k, g, tr[i].now) && Find(tr[i].store, k, tr[i].now) == Some(p) ::
              exists n :: m < n < i && Pushes(tr[n], steps[n], k, p)
  {
    assert StepFits(tr[m], steps[m], g);
    assert tr[m + 1] == Apply(tr[m], steps[m], ttl);
    RevokeKeepsIndexIff(tr[m].store, g, Revoked(tr[m], steps[m], g).value, tr[m].now);
    forall k, p | LiveToken(tr[i].store, k, g, tr[i].now) && Find(tr[i].store, k, tr[i].now) == Some(p)
      ensures exists n :: m < n < i && Pushes(tr[n], steps[n], k, p)
    {
      assert !LiveToken(tr[m + 1].store, k, g, tr[m + 1].now);
      var n := StoredBetween(tr, steps, ttl, m + 1, i, k, p);
    }
  }

  lemma OnlyLaterGrant(tr: seq<State>, steps: seq<Step>, ttl: nat, r: nat, i: nat, f: nat, g: GrantId)
    requires IsRun(tr, steps, ttl) && r < i < |tr| && EndingAt(tr[i], f) && g in tr[i].flights[f].gone
    requires EndingAt(tr[r], f) && tr[r].flights[f].stage.ToReadSet?
    ensures forall p | Find(tr[i].store, OidcStore.Key(Grant, g), tr[i].now) == Some(p) ::
              exists n :: r < n < i && Pushes(tr[n], steps[n], OidcStore.Key(Grant, g), p)
  {
    var d := GoneAt(tr, steps, ttl, i, f, g);
    Reachable(tr, steps, ttl, r);
    forall p | Find(tr[i].store, OidcStore.Key(Grant, g), tr[i].now) == Some(p)
      ensures exists n :: r < n < i && Pushes(tr[n], steps[n], OidcStore.Key(Grant, g), p)
    {
      var n := StoredBetween(tr, steps, ttl, d + 1, i, OidcStore.Key(Grant, g), p);
    }
  }

  // ---- who is told -------------------------------------------------------------------------------------

  /** The job gets one delivery for every client that was read before, and no other. */
  lemma InsertAddsClients(s: State, st: Step, ttl: nat)
    requires st.Insert? && Enabled(s, st, ttl)
    ensures forall d :: d in Apply(s, st, ttl).tables.deliveries && d !in s.tables.deliveries <==>
              d.job == st.id && d.client in s.flights[st.f].clients
  {
    assert forall d: LogoutQueue.Key :: d in KeysOf(st.id, s.flights[st.f].clients) <==> d.job == st.id && d.client in s.flights[st.f].clients;
  }

  /** The step at which an `endSession` read the clients. */
  lemma {:induction false} ClientsAt(tr: seq<State>, steps: seq<Step>, ttl: nat, i: nat, f: nat) returns (q: nat)
    requires IsRun(tr, steps, ttl) && i < |tr| && EndingAt(tr[i], f) && tr[i].flights[f].stage.ToInsert?
    ensures q < i && steps[q] == GoOnLogout(f) && EndingAt(tr[q], f) && tr[q].flights[f].stage.ToReadClients?
    ensures tr[i].flights[f].clients == ClientsOf(tr[q].tables, tr[i].flights[f].sid)
  {
    var s, st := tr[i - 1], steps[i - 1];
    StepAt(tr, steps, ttl, i - 1);
    if st == GoOnLogout(f) {
      q := i - 1;
    } else {
      ClientsBefore(s, st, ttl, f);
      q := ClientsAt(tr, steps, ttl, i - 1, f);
    }
  }

  lemma ClientsBefore(s: State, st: Step, ttl: nat, f: nat)
    requires Enabled(s, st, ttl) && EndingAt(Apply(s, st, ttl), f) && Apply(s, st, ttl).flights[f].stage.ToInsert?
    requires st != GoOnLogout(f)
    ensures EndingAt(s, f) && s.flights[f] == Apply(s, st, ttl).flights[f]
  {
  }

  lemma StepJoins(s: State, st: Step, ttl: nat)
    requires Enabled(s, st, ttl)
    ensures s.tables.participants.Keys <= Apply(s, st, ttl).tables.participants.Keys
  {
  }

  lemma JoinsAt(tr: seq<State>, steps: seq<Step>, ttl: nat, n: nat)
    requires IsRun(tr, steps, ttl) && n < |steps|
    ensures tr[n].tables.participants.Keys <= tr[n + 1].tables.participants.Keys
  {
    StepJoins(tr[n], steps[n], ttl);
  }

  lemma {:induction false} ClientsGrow(tr: seq<State>, steps: seq<Step>, ttl: nat, i: nat, j: nat)
    requires IsRun(tr, steps, ttl) && i <= j < |tr|
    ensures tr[i].tables.participants.Keys <= tr[j].tables.participants.Keys
    decreases j
  {
    if i < j {
      ClientsGrow(tr, steps, ttl, i, j - 1);
      JoinsAt(tr, steps, ttl, j - 1);
    }
  }

  /**
   * The job tells exactly the clients that had joined when they were read at step `q`. It tells every
   * client that has joined by the time it is created if and only if none joined in between.
   */
  lemma DeliveriesAreClients(tr: seq<State>, steps: seq<Step>, ttl: nat, i: nat) returns (q: nat)
    requires IsRun(tr, steps, ttl) && i < |steps| && steps[i].Insert?
    ensures q < i && EndingAt(tr[i], steps[i].f) && EndingAt(tr[q], steps[i].f) && tr[q].flights[steps[i].f].stage.ToReadClients?
    ensures var sid, old', new' := tr[i].flights[steps[i].f].sid, tr[i].tables.deliveries, tr[i + 1].tables.deliveries;
      && (forall d :: d in new' && d !in old' <==> d.job == steps[i].id && d.client in ClientsOf(tr[q].tables, sid))
      && ((forall c | c in ClientsOf(tr[i].tables, sid) :: LogoutQueue.Key(steps[i].id, c) in new')
          <==> ClientsOf(tr[i].tables, sid) == ClientsOf(tr[q].tables, sid))
  {
    var f := steps[i].f;
    var sid, id := tr[i].flights[f].sid, steps[i].id;
    assert tr[i + 1] == Apply(tr[i], steps[i], ttl);
    q := ClientsAt(tr, steps, ttl, i, f);
    InsertAddsClients(tr[i], steps[i], ttl);
    ClientsGrow(tr, steps, ttl, q, i);
    var later, told := ClientsOf(tr[i].tables, sid), ClientsOf(tr[q].tables, sid);
    assert told <= later;
    assert forall c :: LogoutQueue.Key(id, c) !in tr[i].tables.deliveries;
    assert forall c :: LogoutQueue.Key(id, c) in tr[i + 1].tables.deliveries <==> c in told;
  }

  /** A client that joins between the read and the job: marked PENDING, and never told. */
  lemma LateClientIsMissed(now: int)
    ensures var t := Tables(map[], map[], map[Participant(1, 10) := None]);
            var clients := ClientsOf(t, 1);
            var joined := JoinClient(t, Participant(1, 20));
            var after := InsertJob(joined, 5, 1, {10}, map[10 := 0], now);
            && clients == {10} && 20 in ClientsOf(joined, 1)
            && after.participants[Participant(1, 20)] == Some(LogoutPending) && LogoutQueue.Key(5, 20) !in after.deliveries
  {
    var t := Tables(map[], map[], map[Participant(1, 10) := None]);
    assert Participant(1, 10) in t.participants;
    assert Participant(1, 20) in JoinClient(t, Participant(1, 20)).participants;
  }
}
