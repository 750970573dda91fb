/**
 * The durable back-channel logout queue: logout_jobs, logout_deliveries and the logout columns of
 * auth_session_clients. Every SQL statement is one function from tables to tables; createJob is one
 * transaction and `record` is three statements that other workers may interleave with.
 * Times are in milliseconds.
 */
module LogoutQueue {
  import opened Common

  type JobId = nat
  type ClientId = nat
  type Sid = nat

  const LEASE: nat := 60_000
  const BATCH: nat := 20

  datatype DeliveryStatus = Pending | Retry | Succeeded | Failed | NoEndpoint | Dead {
    predicate Terminal() { !Pending? && !Retry? }

    predicate Failure() { Failed? || Dead? }

    /** The logout_status shown on auth_session_clients for a finished delivery. */
    function Shown(): LogoutStatus
    {
      match this
      case Succeeded => LogoutSucceeded
      case NoEndpoint => LogoutNoEndpoint
      case _ => LogoutFailed
    }
  }

  datatype LogoutStatus = LogoutPending | LogoutSucceeded | LogoutFailed | LogoutNoEndpoint
  datatype JobStatus = JobPending | Completed | CompletedWithFailures

  datatype Job = Job(sid: Sid, status: JobStatus, completedAt: Option<int>)
  datatype Delivery = Delivery(jti: nat, status: DeliveryStatus, attempts: nat, nextAt: int, completedAt: Option<int>)
  datatype Key = Key(job: JobId, client: ClientId)
  datatype Participant = Participant(sid: Sid, client: ClientId)

  datatype Tables = Tables(
    jobs: map<JobId, Job>,
    deliveries: map<Key, Delivery>,
    participants: map<Participant, Option<LogoutStatus>>)

  /** The clients that joined the session. */
  function ClientsOf(t: Tables, sid: Sid): set<ClientId>
  {
    set p | p in t.participants && p.sid == sid :: p.client
  }

  // ---- the statements ----------------------------------------------------------------------------

  function KeysOf(id: JobId, clients: set<ClientId>): set<Key>
  {
    set c | c in clients :: Key(id, c)
  }

  function NewRows(id: JobId, clients: set<ClientId>, jti: map<ClientId, nat>, now: int): map<Key, Delivery>
    requires clients <= jti.Keys
  {
    map k | k in KeysOf(id, clients) :: Delivery(jti[k.client], Pending, 0, now, None)
  }

  /** createJob: the job row, one delivery per client, and the PENDING marks of the participants. */
  function InsertJob(t: Tables, id: JobId, sid: Sid, clients: set<ClientId>, jti: map<ClientId, nat>, now: int): Tables
    requires clients <= jti.Keys
  {
    Tables(
      t.jobs[id := if clients == {} then Job(sid, Completed, Some(now)) else Job(sid, JobPending, None)],
      t.deliveries + NewRows(id, clients, jti, now),
      if clients == {} then t.participants
      else map p | p in t.participants :: if p.sid == sid then Some(LogoutPending) else t.participants[p])
  }

  predicate Due(d: Delivery, now: int)
  {
    !d.status.Terminal() && d.nextAt <= now
  }

  function DueKeys(t: Tables, now: int): set<Key>
  {
    set k | k in t.deliveries && Due(t.deliveries[k], now)
  }

  /**
   * `picked` is a possible result of the claim query: at most `limit` due rows, skipping the rows
   * other claims hold locked, earliest first, and fewer than `limit` only when nothing is left over.
   */
  predicate IsBatch(t: Tables, now: int, limit: nat, locked: set<Key>, picked: set<Key>)
  {
    && picked <= DueKeys(t, now) - locked
    && |picked| <= limit
    && (|picked| < limit ==> picked == DueKeys(t, now) - locked)
    && forall p, q | p in picked && q in DueKeys(t, now) - locked - picked ::
         t.deliveries[p].nextAt <= t.deliveries[q].nextAt
  }

  function Claim(t: Tables, picked: set<Key>, now: int): Tables
  {
    t.(deliveries := map k | k in t.deliveries ::
      if k in picked
      then t.deliveries[k].(attempts := t.deliveries[k].attempts + 1, nextAt := now + LEASE)
      else t.deliveries[k])
  }

  /** First statement of `record`. */
  function SetOutcome(t: Tables, k: Key, status: DeliveryStatus, retryIn: nat, now: int): Tables
  {
    if k !in t.deliveries then t
    else t.(deliveries := t.deliveries[k := t.deliveries[k].(
      status := status,
      nextAt := if status.Retry? then now + 1000 * retryIn else t.deliveries[k].nextAt,
      completedAt := if status.Retry? then None else Some(now))])
  }

  /** Second statement of `record`. */
  function ShowOutcome(t: Tables, p: Participant, status: DeliveryStatus): Tables
  {
    if p !in t.participants then t else t.(participants := t.participants[p := Some(status.Shown())])
  }

  predicate AllTerminal(t: Tables, job: JobId)
  {
    forall k | k in t.deliveries && k.job == job :: t.deliveries[k].status.Terminal()
  }

  predicate SomeFailure(t: Tables, job: JobId)
  {
    exists k | k in t.deliveries && k.job == job :: t.deliveries[k].status.Failure()
  }

  /** Third statement of `record`. */
  function CloseJob(t: Tables, job: JobId, now: int): Tables
  {
    if job !in t.jobs || !t.jobs[job].status.JobPending? || !AllTerminal(t, job) then t
    else t.(jobs := t.jobs[job := t.jobs[job].(
      status := if SomeFailure(t, job) then CompletedWithFailures else Completed,
      completedAt := Some(now))])
  }

  // ---- what the worker makes of an answer ----------------------------------------------------------

  datatype Answer =
    | NoUri
    | InsecureUri
    | Http(code: nat)
    | TimedOut
    | NetworkError

  /** Answers after which trying the same message again makes sense. */
  predicate Retryable(a: Answer)
  {
    match a
    case NoUri | InsecureUri => false
    case Http(code) => !(200 <= code < 300) && !(400 <= code < 500 && code != 408 && code != 429)
    case _ => true
  }

  datatype Outcome = Outcome(status: DeliveryStatus, retryIn: nat)

  function Classify(a: Answer, attempt: nat, schedule: seq<nat>): (o: Outcome)
    ensures o.status.Retry? <==> Retryable(a) && attempt < |schedule|
    ensures o.status.Dead? <==> Retryable(a) && attempt >= |schedule|
    ensures !o.status.Pending?
  {
    if a.NoUri? then Outcome(NoEndpoint, 0)
    else if a.InsecureUri? then Outcome(Failed, 0)
    else if a.Http? && 200 <= a.code < 300 then Outcome(Succeeded, 0)
    else if a.Http? && 400 <= a.code < 500 && a.code != 408 && a.code != 429 then Outcome(Failed, 0)
    else if attempt < |schedule| then Outcome(Retry, schedule[attempt])
    else Outcome(Dead, 0)
  }

  /** A batch always exists: the query never gets stuck, whatever rows others hold. */
  lemma {:induction false} BatchExists(t: Tables, now: int, limit: nat, locked: set<Key>)
    ensures exists picked :: IsBatch(t, now, limit, locked, picked)
  {
    if limit == 0 {
      assert IsBatch(t, now, 0, locked, {});
    } else {
      BatchExists(t, now, limit - 1, locked);
      var picked :| IsBatch(t, now, limit - 1, locked, picked);
      var rest := DueKeys(t, now) - locked - picked;
      if rest == {} {
        assert IsBatch(t, now, limit, locked, picked);
      } else {
        var q := Earliest(t, rest);
        assert |picked| == limit - 1;
        assert IsBatch(t, now, limit, locked, picked + {q});
      }
    }
  }

  lemma {:induction false} Earliest(t: Tables, keys: set<Key>) returns (k: Key)
    requires keys != {} && keys <= t.deliveries.Keys
    ensures k in keys && forall q | q in keys :: t.deliveries[k].nextAt <= t.deliveries[q].nextAt
  {
    k :| k in keys;
    if keys != {k} {
      var m := Earliest(t, keys - {k});
      if t.deliveries[m].nextAt < t.deliveries[k].nextAt { k := m; }
    }
  }

  lemma AddClient(base: map<Key, Delivery>, id: JobId, clientIds: seq<ClientId>, i: nat, jti: map<ClientId, nat>, now: int)
    requires i < |clientIds| && forall c | c in clientIds :: c in jti
    ensures Elems(clientIds[..i]) <= jti.Keys && Elems(clientIds[..i + 1]) <= jti.Keys
    ensures base + NewRows(id, Elems(clientIds[..i + 1]), jti, now)
         == (base + NewRows(id, Elems(clientIds[..i]), jti, now))[Key(id, clientIds[i]) := Delivery(jti[clientIds[i]], Pending, 0, now, None)]
  {
  }

  lemma AllClients(clientIds: seq<ClientId>)
    ensures Elems(clientIds) == {} <==> clientIds == []
  {
    if clientIds != [] { assert clientIds[0] in Elems(clientIds); }
  }

  lemma InsertedKeys(id: JobId, clientIds: seq<ClientId>, jti: map<ClientId, nat>, now: int)
    requires forall c | c in clientIds :: c in jti
    ensures Elems(clientIds) <= jti.Keys
    ensures var rows := NewRows(id, Elems(clientIds), jti, now);
      && (forall k :: k in rows <==> k.job == id && k.client in clientIds)
      && (forall c | c in clientIds :: rows[Key(id, c)] == Delivery(jti[c], Pending, 0, now, None))
  {
    forall c | c in clientIds ensures Key(id, c) in KeysOf(id, Elems(clientIds)) { }
  }

  /** The rows of a batch exist. */
  lemma PickedRows(t: Tables, now: int, limit: nat, locked: set<Key>, picked: seq<Key>)
    requires IsBatch(t, now, limit, locked, Elems(picked))
    ensures forall i | 0 <= i < |picked| :: picked[i] in t.deliveries
    ensures forall k | k in picked :: k in t.deliveries && t.deliveries[k].status in {Pending, Retry} && t.deliveries[k].nextAt <= now
  {
    forall k | k in picked ensures k in t.deliveries && t.deliveries[k].status in {Pending, Retry} && t.deliveries[k].nextAt <= now {
      assert k in Elems(picked);
      assert k in DueKeys(t, now);
    }
  }

  /** The rows of a batch while it is delivered: one more attempt, and a minute's lease. */
  ghost predicate Leased(before: map<Key, Delivery>, after: map<Key, Delivery>, picked: seq<Key>, now: int)
  {
    forall k | k in picked ::
      && k in before && before[k].status in {Pending, Retry} && before[k].nextAt <= now
      && k in after && after[k] == before[k].(attempts := before[k].attempts + 1, nextAt := now + 60_000)
  }

  lemma ClaimLeases(t: Tables, now: int, limit: nat, locked: set<Key>, picked: seq<Key>)
    requires IsBatch(t, now, limit, locked, Elems(picked))
    ensures Leased(t.deliveries, Claim(t, Elems(picked), now).deliveries, picked, now)
  {
    PickedRows(t, now, limit, locked, picked);
  }

  /** Updating the rows that a list names is claiming the set of its elements. */
  lemma ClaimedRows(t: Tables, t': Tables, picked: seq<Key>, now: int)
    requires t'.jobs == t.jobs && t'.participants == t.participants
    requires t'.deliveries == map k | k in t.deliveries ::
      if k in picked then t.deliveries[k].(attempts := t.deliveries[k].attempts + 1, nextAt := now + LEASE) else t.deliveries[k]
    ensures t' == Claim(t, Elems(picked), now) && t'.deliveries.Keys == t.deliveries.Keys
  {
  }

  // ---- the repository ------------------------------------------------------------------------------

  datatype DueDelivery = DueDelivery(jobId: JobId, clientId: ClientId, jti: nat, attemptCount: nat, sid: Sid)

  /** A row as the claim statement returns it. */
  function Returned(t: Tables, k: Key): DueDelivery
    requires k in t.deliveries && k.job in t.jobs
  {
    DueDelivery(k.job, k.client, t.deliveries[k].jti, t.deliveries[k].attempts, t.jobs[k.job].sid)
  }

  /** The returned row names the delivery, its message, the attempt just counted and the session. */
  predicate Reports(t: Tables, k: Key, d: DueDelivery)
  {
    && k in t.deliveries && k.job in t.jobs && d.jobId == k.job && d.clientId == k.client
    && d.jti == t.deliveries[k].jti && d.attemptCount == t.deliveries[k].attempts && d.sid == t.jobs[k.job].sid
  }

  class LogoutRepository {
    var jobs: map<JobId, Job>
    var deliveries: map<Key, Delivery>
    var participants: map<Participant, Option<LogoutStatus>>

    ghost function Now(): Tables
      reads this
    {
      Tables(jobs, deliveries, participants)
    }

    /** The loop over the clients, one INSERT each. */
    method InsertDeliveries(clientIds: seq<ClientId>, id: JobId, jti: map<ClientId, nat>, now: int)
      requires forall c | c in clientIds :: c in jti
      modifies this`deliveries
      ensures deliveries == old(deliveries) + NewRows(id, Elems(clientIds), jti, now)
    {
      var i := 0;
      while i < |clientIds|
        invariant 0 <= i <= |clientIds|
        invariant deliveries == old(deliveries) + NewRows(id, Elems(clientIds[..i]), jti, now)
      {
        AddClient(old(deliveries), id, clientIds, i, jti, now);
        deliveries := deliveries[Key(id, clientIds[i]) := Delivery(jti[clientIds[i]], Pending, 0, now, None)];
        i := i + 1;
      }
      assert clientIds[..i] == clientIds;
    }

    /** `id` and `jti` are the random uuids the database draws. */
    method CreateJob(sid: Sid, clientIds: seq<ClientId>, id: JobId, jti: map<ClientId, nat>, now: int)
      requires forall i, j | 0 <= i < j < |clientIds| :: clientIds[i] != clientIds[j]
      requires forall c | c in clientIds :: c in jti
      modifies this
      ensures Now() == InsertJob(old(Now()), id, sid, Elems(clientIds), jti, now)
      ensures forall k :: k in deliveries <==> k in old(deliveries) || (k.job == id && k.client in clientIds)
      ensures forall c | c in clientIds :: deliveries[Key(id, c)] == Delivery(jti[c], Pending, 0, now, None)
      ensures jobs == old(jobs)[id := if clientIds == [] then Job(sid, Completed, Some(now)) else Job(sid, JobPending, None)]
      ensures participants.Keys == old(participants.Keys)
      ensures forall p | p in participants ::
                participants[p] == if clientIds != [] && p.sid == sid then Some(LogoutPending) else old(participants)[p]
    {
      jobs := jobs[id := if |clientIds| > 0 then Job(sid, JobPending, None) else Job(sid, Completed, Some(now))];
      InsertDeliveries(clientIds, id, jti, now);
      AllClients(clientIds);
      InsertedKeys(id, clientIds, jti, now);
      if |clientIds| > 0 {
        participants := map p | p in participants :: if p.sid == sid then Some(LogoutPending) else participants[p];
      }
    }

    /** `picked` is the database's choice among the due rows. */
    method ClaimDue(limit: nat, locked: set<Key>, picked: seq<Key>, now: int) returns (list: seq<DueDelivery>)
      requires forall i, j | 0 <= i < j < |picked| :: picked[i] != picked[j]
      requires IsBatch(Now(), now, limit, locked, Elems(picked))
      requires forall k | k in deliveries :: k.job in jobs
      modifies this
      ensures Now() == Claim(old(Now()), Elems(picked), now)
      ensures Leased(old(deliveries), deliveries, picked, now)
      ensures |list| == |picked|
      ensures forall i | 0 <= i < |list| :: picked[i] in deliveries && list[i] == Returned(Now(), picked[i])
      ensures forall i | 0 <= i < |list| :: Reports(Now(), picked[i], list[i])
    {
      PickedRows(Now(), now, limit, locked, picked);
      ClaimLeases(Now(), now, limit, locked, picked);
      ghost var before := Now();
      deliveries := map k | k in deliveries ::
        if k in picked then deliveries[k].(attempts := deliveries[k].attempts + 1, nextAt := now + LEASE)
        else deliveries[k];
      ClaimedRows(before, Now(), picked, now);
      var after := Tables(jobs, deliveries, participants);
      list := seq(|picked|, i requires 0 <= i < |picked| => Returned(after, picked[i]));
    }

    method Record(d: DueDelivery, o: Outcome, now: int)
      modifies this
      ensures var k := Key(d.jobId, d.clientId);
              var t1 := SetOutcome(old(Now()), k, o.status, o.retryIn, now);
              Now() == if o.status.Retry? then t1
                       else CloseJob(ShowOutcome(t1, Participant(d.sid, d.clientId), o.status), d.jobId, now)
    {
      var k := Key(d.jobId, d.clientId);
      if k in deliveries {
        deliveries := deliveries[k := deliveries[k].(
          status := o.status,
          nextAt := if o.status.Retry? then now + 1000 * o.retryIn else deliveries[k].nextAt,
          completedAt := if o.status.Retry? then None else Some(now))];
      }
      if o.status.Retry? { return; }
      var p := Participant(d.sid, d.clientId);
      if p in participants {
        participants := participants[p := Some(o.status.Shown())];
      }
      if d.jobId in jobs && jobs[d.jobId].status.JobPending?
         && !(exists x | x in deliveries && x.job == d.jobId :: !deliveries[x].status.Terminal()) {
        var failed := exists x | x in deliveries && x.job == d.jobId :: deliveries[x].status.Failure();
        jobs := jobs[d.jobId := jobs[d.jobId].(
          status := if failed then CompletedWithFailures else Completed, completedAt := Some(now))];
      }
    }

    /** `deliver` of the worker: classify the client's answer, then record it. */
    method Deliver(d: DueDelivery, answer: Answer, schedule: seq<nat>, now: int)
      modifies this
      ensures var o := Classify(answer, d.attemptCount, schedule);
              var t1 := SetOutcome(old(Now()), Key(d.jobId, d.clientId), o.status, o.retryIn, now);
              Now() == if o.status.Retry? then t1
                       else CloseJob(ShowOutcome(t1, Participant(d.sid, d.clientId), o.status), d.jobId, now)
      ensures var k := Key(d.jobId, d.clientId);
              k in old(deliveries) ==>
                && k in deliveries
                && (deliveries[k].status == Succeeded <==> answer.Http? && 200 <= answer.code <= 299)
                && (deliveries[k].status == Failed <==>
                      answer.InsecureUri? || (answer.Http? && 400 <= answer.code <= 499 && answer.code != 408 && answer.code != 429))
                && (deliveries[k].status == NoEndpoint <==> answer.NoUri?)
                && deliveries[k].status != Pending
                && (deliveries[k].status == Dead ==> d.attemptCount >= |schedule|)
                && (deliveries[k].status == Retry ==>
                      d.attemptCount < |schedule| && deliveries[k].nextAt == now + 1000 * schedule[d.attemptCount])
      ensures var k, p := Key(d.jobId, d.clientId), Participant(d.sid, d.clientId);
              k in old(deliveries) && p in old(participants) ==>
                && p in participants
                && (deliveries[k].status == Retry ==> participants[p] == old(participants)[p])
                && (deliveries[k].status == Succeeded ==> participants[p] == Some(LogoutSucceeded))
                && (deliveries[k].status == NoEndpoint ==> participants[p] == Some(LogoutNoEndpoint))
                && (deliveries[k].status in {Failed, Dead} ==> participants[p] == Some(LogoutFailed))
    {
      if answer.NoUri? { Record(d, Outcome(NoEndpoint, 0), now); return; }
      if answer.InsecureUri? { Record(d, Outcome(Failed, 0), now); return; }
      if answer.Http? {
        if 200 <= answer.code < 300 { Record(d, Outcome(Succeeded, 0), now); return; }
        if 400 <= answer.code < 500 && answer.code != 408 && answer.code != 429 { Record(d, Outcome(Failed, 0), now); return; }
      }
      if d.attemptCount < |schedule| {
        Record(d, Outcome(Retry, schedule[d.attemptCount]), now);
      } else {
        Record(d, Outcome(Dead, 0), now);
      }
    }
  }
}
