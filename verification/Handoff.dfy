/**
 * Trusted handoff requests: the request rows, the checks that create one, and the delivery of the
 * signed assertion to the target application.
 */
module Handoff {
  import opened Common
  import Assurance
  import HandoffPath

  /** Identifiers are opaque values; they are modelled as numbers. */
  type Id = nat
  type ClientId = nat
  type Sid = nat
  type Jti = nat

  datatype Status = Pending | Completed | Expired | Cancelled

  /** its_id, sid, jti and completed_at, written together by `complete`. */
  datatype Binding = Binding(itsId: string, sid: Sid, jti: Jti, at: int)

  datatype Request = Request(
    source: ClientId, target: ClientId, realm: Realm, path: string,
    status: Status, expiresAt: int, binding: Option<Binding>)

  type Table = map<Id, Request>

  /** The claims of the signed assertion; times in seconds. */
  datatype Assertion = Assertion(
    source: ClientId, target: ClientId, realm: Realm, path: string,
    itsId: string, sid: Sid, aal2: bool, iat: int, exp: int, jti: Jti)

  // ---- statements on the request rows ---------------------------------------------------------------

  predicate IsPending(t: Table, id: Id)
  {
    id in t && t[id].status.Pending?
  }

  predicate IsOpen(t: Table, id: Id, now: int)
  {
    IsPending(t, id) && now < t[id].expiresAt
  }

  /** A conditional update: only a PENDING row changes its status. */
  function Close(t: Table, id: Id, status: Status): Table
  {
    if IsPending(t, id) then t[id := t[id].(status := status)] else t
  }

  function CompleteRow(t: Table, id: Id, b: Binding): Table
  {
    if IsOpen(t, id, b.at) then t[id := t[id].(status := Completed, binding := Some(b))] else t
  }

  // ---- createRequest --------------------------------------------------------------------------------

  /** A registered client; `realm` is None when its realm is not one of the two, `defaultAcr` when none is set. */
  datatype Client = Client(
    active: bool, realm: Option<Realm>, environment: nat, outbound: bool, inbound: bool, hasCallback: bool,
    patterns: seq<string>, defaultAcr: Option<Assurance.Acr>)

  datatype Rejection =
    | SourceClientInvalid(status: nat)
    | RateLimited
    | TargetClientNotFound
    | TargetClientDisabled
    | EnvironmentMismatch
    | RealmMismatch
    | HandoffPathInvalid

  /** What the caller sent: the authenticated client, whether the rate limit let it through, and the body. */
  datatype Call = Call(source: Option<ClientId>, allowed: bool, targetId: Option<ClientId>, requestedPath: Option<string>)

  predicate MayStart(clients: map<ClientId, Client>, c: Call)
  {
    && c.source.Some? && c.source.value in clients
    && var src := clients[c.source.value];
      src.active && src.realm.Some? && src.outbound
  }

  predicate TargetKnown(clients: map<ClientId, Client>, c: Call)
  {
    c.targetId.Some? && c.targetId.value in clients && c.targetId != c.source
  }

  predicate TargetAccepts(clients: map<ClientId, Client>, target: ClientId)
  {
    target in clients && clients[target].active && clients[target].inbound && clients[target].hasCallback
  }

  predicate PathAllowed(clients: map<ClientId, Client>, c: Call)
    requires TargetKnown(clients, c)
  {
    && HandoffPath.Normalize(c.requestedPath).Some?
    && HandoffPath.IsAllowedPath(HandoffPath.Normalize(c.requestedPath).value, clients[c.targetId.value].patterns)
  }

  /** Every check of `createRequest` passes. */
  predicate Acceptable(clients: map<ClientId, Client>, c: Call)
  {
    && MayStart(clients, c) && c.allowed
    && TargetKnown(clients, c) && TargetAccepts(clients, c.targetId.value)
    && var src, target := clients[c.source.value], clients[c.targetId.value];
      src.environment == target.environment && src.realm == target.realm && PathAllowed(clients, c)
  }

  function NewRequest(clients: map<ClientId, Client>, c: Call, ttl: nat, now: int): Request
    requires Acceptable(clients, c)
  {
    Request(c.source.value, c.targetId.value, clients[c.source.value].realm.value,
            HandoffPath.Normalize(c.requestedPath).value, Pending, now + ttl * 1000, None)
  }

  /** What a stored request guarantees about its two clients and its path. */
  ghost predicate Sound(clients: map<ClientId, Client>, r: Request)
  {
    && r.source in clients && r.target in clients && r.source != r.target
    && clients[r.source].active && clients[r.source].outbound
    && clients[r.target].active && clients[r.target].inbound && clients[r.target].hasCallback
    && clients[r.source].realm == clients[r.target].realm == Some(r.realm)
    && clients[r.source].environment == clients[r.target].environment
    && HandoffPath.Normalize(Some(r.path)) == Some(r.path)
    && HandoffPath.IsAllowedPath(r.path, clients[r.target].patterns)
  }

  lemma {:induction false} NewRequestIsSound(clients: map<ClientId, Client>, c: Call, ttl: nat, now: int)
    requires Acceptable(clients, c)
    ensures Sound(clients, NewRequest(clients, c, ttl, now))
    ensures var r := NewRequest(clients, c, ttl, now);
      && c.source == Some(r.source) && c.targetId == Some(r.target) && HandoffPath.Normalize(c.requestedPath) == Some(r.path)
      && r.status == Pending && r.expiresAt == now + 1000 * ttl && r.binding == None
  {
    HandoffPath.NormalizeIsIdempotent(c.requestedPath);
  }

  // ---- the repository and the service ---------------------------------------------------------------

  class HandoffRepository {
    var requests: Table

    constructor ()
      ensures requests == map[]
    {
      requests := map[];
    }

    /** `id` is the identifier the database assigns. */
    method Create(id: Id, r: Request)
      requires id !in requests
      modifies this
      ensures requests == old(requests)[id := r]
    {
      requests := requests[id := r];
    }

    method FindPending(id: Id, now: int) returns (r: Option<Request>)
      modifies this
      ensures r == if IsOpen(old(requests), id, now) then Some(old(requests)[id]) else None
      ensures requests == if IsOpen(old(requests), id, now) then old(requests) else Close(old(requests), id, Expired)
      ensures r.Some? <==> id in old(requests) && old(requests)[id].status == Pending && now < old(requests)[id].expiresAt
      ensures requests == if id in old(requests) && old(requests)[id].status == Pending && old(requests)[id].expiresAt <= now
                          then old(requests)[id := old(requests)[id].(status := Expired)] else old(requests)
    {
      if id !in requests || requests[id].status != Pending { return None; }
      if requests[id].expiresAt <= now {
        requests := requests[id := requests[id].(status := Expired)];
        return None;
      }
      return Some(requests[id]);
    }

    method Complete(id: Id, itsId: string, sid: Sid, jti: Jti, now: int) returns (won: bool)
      modifies this
      ensures won <==> id in old(requests) && old(requests)[id].status == Pending && now < old(requests)[id].expiresAt
      ensures requests == CompleteRow(old(requests), id, Binding(itsId, sid, jti, now))
      ensures requests == if won then old(requests)[id := old(requests)[id].(status := Completed, binding := Some(Binding(itsId, sid, jti, now)))]
                          else old(requests)
    {
      won := id in requests && requests[id].status == Pending && requests[id].expiresAt > now;
      if won {
        requests := requests[id := requests[id].(status := Completed, binding := Some(Binding(itsId, sid, jti, now)))];
      }
    }

    method Cancel(id: Id)
      modifies this
      ensures requests == Close(old(requests), id, Cancelled)
      ensures requests == if id in old(requests) && old(requests)[id].status == Pending
                          then old(requests)[id := old(requests)[id].(status := Cancelled)] else old(requests)
    {
      if id in requests && requests[id].status == Pending {
        requests := requests[id := requests[id].(status := Cancelled)];
      }
    }
  }

  class HandoffService {
    const repo: HandoffRepository
    const clients: map<ClientId, Client>
    var participants: set<(Sid, ClientId)>

    constructor (repo: HandoffRepository, clients: map<ClientId, Client>)
      ensures this.repo == repo && this.clients == clients && participants == {}
    {
      this.repo, this.clients, participants := repo, clients, {};
    }

    /** The rejection is the one of the first check that fails; only an accepted call leaves a row. */
    method CreateRequest(c: Call, id: Id, ttl: nat, now: int) returns (r: Result<Id, Rejection>)
      requires id !in repo.requests
      modifies repo
      ensures r.Ok? <==> Acceptable(clients, c)
      ensures r.Ok? <==>
                && c.source.Some? && c.allowed && c.source.value in clients && c.targetId.Some? && c.targetId.value in clients
                && c.source != c.targetId
                && var src, target := clients[c.source.value], clients[c.targetId.value];
                  && src.active && src.outbound && src.realm.Some? && target.active && target.inbound && target.hasCallback
                  && src.environment == target.environment && src.realm == target.realm
                  && var path := HandoffPath.Normalize(c.requestedPath);
                    path.Some? && HandoffPath.IsAllowedPath(path.value, target.patterns)
      ensures r.Ok? ==> r.value == id && repo.requests == old(repo.requests)[id := NewRequest(clients, c, ttl, now)]
      ensures r.Err? ==> repo.requests == old(repo.requests)
      ensures r == Err(SourceClientInvalid(401)) <==> c.source.None?
      ensures r == Err(RateLimited) <==> c.source.Some? && !c.allowed
      ensures r == Err(SourceClientInvalid(403)) <==> c.source.Some? && c.allowed && !MayStart(clients, c)
      ensures r == Err(TargetClientNotFound) <==> MayStart(clients, c) && c.allowed && !TargetKnown(clients, c)
      ensures (r.Err? && r.error in {TargetClientDisabled, EnvironmentMismatch, RealmMismatch, HandoffPathInvalid}) <==>
                (MayStart(clients, c) && c.allowed && TargetKnown(clients, c) && !Acceptable(clients, c))
      ensures r == Err(TargetClientDisabled) ==> !TargetAccepts(clients, c.targetId.value)
      ensures r.Err? && r.error in {EnvironmentMismatch, RealmMismatch, HandoffPathInvalid} ==> TargetAccepts(clients, c.targetId.value)
      ensures r == Err(HandoffPathInvalid) ==> !PathAllowed(clients, c) && clients[c.targetId.value].realm == clients[c.source.value].realm
      ensures r == Err(RealmMismatch) ==>
                && clients[c.targetId.value].realm != clients[c.source.value].realm
                && clients[c.targetId.value].environment == clients[c.source.value].environment
      ensures r == Err(EnvironmentMismatch) ==> clients[c.targetId.value].environment != clients[c.source.value].environment
    {
      if c.source.None? { return Err(SourceClientInvalid(401)); }
      if !c.allowed { return Err(RateLimited); }
      if c.source.value !in clients { return Err(SourceClientInvalid(403)); }
      var src := clients[c.source.value];
      if !src.active || src.realm.None? || !src.outbound { return Err(SourceClientInvalid(403)); }
      if c.targetId.None? || c.targetId.value !in clients || c.targetId.value == c.source.value { return Err(TargetClientNotFound); }
      var target := clients[c.targetId.value];
      if !target.active || !target.inbound || !target.hasCallback { return Err(TargetClientDisabled); }
      if target.environment != src.environment { return Err(EnvironmentMismatch); }
      if target.realm != src.realm { return Err(RealmMismatch); }
      var path := HandoffPath.Normalize(c.requestedPath);
      if path.None? || !HandoffPath.IsAllowedPath(path.value, target.patterns) { return Err(HandoffPathInvalid); }
      repo.Create(id, Request(c.source.value, c.targetId.value, src.realm.value, path.value, Pending, now + ttl * 1000, None));
      return Ok(id);
    }

    /**
     * Sign, complete, join, hand out. `signed` is None when the key service failed. The assertion
     * leaves only when this call completed the request, and then the target is a participant.
     */
    method Deliver(id: Id, signed: Option<Assertion>, now: int) returns (out: Option<Assertion>)
      modifies this, repo
      ensures out == if signed.Some? && IsOpen(old(repo.requests), id, now) then signed else None
      ensures signed.None? ==> repo.requests == old(repo.requests)
      ensures signed.Some? ==>
                repo.requests == CompleteRow(old(repo.requests), id, Binding(signed.value.itsId, signed.value.sid, signed.value.jti, now))
      ensures participants == if out.Some? then old(participants) + {(out.value.sid, out.value.target)} else old(participants)
    {
      if signed.None? { return None; }
      var a := signed.value;
      var won := repo.Complete(id, a.itsId, a.sid, a.jti, now);
      if !won { return None; }
      participants := participants + {(a.sid, a.target)};
      return Some(a);
    }
  }
}
