/**
 * The logout queue drained by any number of workers: claims, the three separate statements of
 * `record`, crashes and the clock, in any interleaving.
 *
 * A flight is one claimed delivery on its way through `deliver` and `record` in some worker.
 * Nothing fences `record`; what keeps two flights of one delivery apart is the lease, and the step
 * Advance states the assumption behind LEASE: a worker records before its lease ends, or it crashed.
 */
module LogoutProtocol {
  import opened Common
  import opened LogoutQueue

  /** Claimed, then after each of the three statements of `record`. A RETRY outcome is done at once. */
  datatype Phase = Claimed | Recorded | Shown | Done
  datatype Flight = Flight(claimedAt: int, phase: Phase, crashed: bool)
  datatype FlightId = FlightId(key: Key, attempt: nat)

  /** What happened to a delivery so far: outcomes recorded as RETRY, and claims that crashed unrecorded. */
  datatype Past = Past(retries: nat, crashes: nat)

  datatype State = State(now: int, tables: Tables, flights: map<FlightId, Flight>, past: map<Key, Past>)

  datatype Step =
    | Advance(to: int)
    | Join(p: Participant)
    | NewJob(id: JobId, sid: Sid, clients: set<ClientId>, jti: map<ClientId, nat>)
    | ClaimBatch(limit: nat, locked: set<Key>, picked: set<Key>)
    | Deliver(f: FlightId, answer: Answer)
    | Show(f: FlightId)
    | Close(f: FlightId)
    | Crash(f: FlightId)

  predicate At(s: State, f: FlightId, phase: Phase)
  {
    f in s.flights && s.flights[f].phase == phase && !s.flights[f].crashed
  }

  predicate Live(s: State, f: FlightId)
  {
    At(s, f, Claimed)
  }

  function Current(s: State, k: Key): FlightId
    requires k in s.tables.deliveries
  {
    FlightId(k, s.tables.deliveries[k].attempts)
  }

  predicate Enabled(s: State, st: Step)
  {
    match st
    case Advance(to) =>
      s.now <= to && forall f | f in s.flights && Live(s, f) :: to < s.flights[f].claimedAt + LEASE
    case Join(p) => true
    case NewJob(id, sid, clients, jti) =>
      // One logout per revoked session. The clients were read before, and a client may have joined since.
      && id !in s.tables.jobs
      && (forall j | j in s.tables.jobs :: s.tables.jobs[j].sid != sid)
      && clients <= ClientsOf(s.tables, sid)
      && clients <= jti.Keys
    case ClaimBatch(limit, locked, picked) => IsBatch(s.tables, s.now, limit, locked, picked)
    case Deliver(f, answer) => Live(s, f)
    case Show(f) => At(s, f, Recorded) && f.key in s.tables.deliveries && f.key.job in s.tables.jobs
    case Close(f) => At(s, f, Shown)
    case Crash(f) => f in s.flights && !s.flights[f].crashed && !s.flights[f].phase.Done?
  }

  function Apply(s: State, st: Step, schedule: seq<nat>): State
    requires Enabled(s, st)
  {
    match st
    case Advance(to) => s.(now := to)
    case Join(p) =>
      if p in s.tables.participants then s
      else s.(tables := s.tables.(participants := s.tables.participants[p := None]))
    case NewJob(id, sid, clients, jti) =>
      s.(tables := InsertJob(s.tables, id, sid, clients, jti, s.now),
         past := s.past + map k | k in KeysOf(id, clients) :: Past(0, 0))
    case ClaimBatch(limit, locked, picked) =>
      s.(tables := LogoutQueue.Claim(s.tables, picked, s.now),
         flights := s.flights + map f | f in ClaimIds(s, picked) :: Flight(s.now, Claimed, false))
    case Deliver(f, answer) =>
      var o := Classify(answer, f.attempt, schedule);
      var old' := if f.key in s.past then s.past[f.key] else Past(0, 0);
      s.(tables := SetOutcome(s.tables, f.key, o.status, o.retryIn, s.now),
         flights := s.flights[f := s.flights[f].(phase := if o.status.Retry? then Done else Recorded)],
         past := if o.status.Retry? then s.past[f.key := old'.(retries := old'.retries + 1)] else s.past)
    case Show(f) =>
      s.(tables := ShowOutcome(s.tables, Participant(s.tables.jobs[f.key.job].sid, f.key.client), s.tables.deliveries[f.key].status),
         flights := s.flights[f := s.flights[f].(phase := Shown)])
    case Close(f) =>
      s.(tables := CloseJob(s.tables, f.key.job, s.now),
         flights := s.flights[f := s.flights[f].(phase := Done)])
    case Crash(f) =>
      var old' := if f.key in s.past then s.past[f.key] else Past(0, 0);
      s.(flights := s.flights[f := s.flights[f].(crashed := true)],
         past := if s.flights[f].phase.Claimed? then s.past[f.key := old'.(crashes := old'.crashes + 1)] else s.past)
  }

  function ClaimIds(s: State, picked: set<Key>): set<FlightId>
  {
    set k | k in picked && k in s.tables.deliveries :: FlightId(k, s.tables.deliveries[k].attempts + 1)
  }

  // ---- the invariant --------------------------------------------------------------------------------

  predicate ShownRight(t: Tables, k: Key)
    requires k in t.deliveries
  {
    && k.job in t.jobs
    && var p := Participant(t.jobs[k.job].sid, k.client);
    && p in t.participants && t.participants[p] == Some(t.deliveries[k].status.Shown())
  }

  predicate KeyOk(s: State, k: Key, schedule: seq<nat>)
    requires k in s.tables.deliveries
  {
    var d := s.tables.deliveries[k];
    var f := Current(s, k);
    && k in s.past
    && k.job in s.tables.jobs
    && Participant(s.tables.jobs[k.job].sid, k.client) in s.tables.participants
    && d.attempts == s.past[k].retries + s.past[k].crashes + (if d.status.Terminal() then 1 else 0) + (if Live(s, f) then 1 else 0)
    && s.past[k].retries < |schedule|
    && (d.status.Dead? ==> d.attempts >= |schedule|)
    && (d.status.Terminal() ==>
          && f in s.flights && !s.flights[f].phase.Claimed?
          && (!s.flights[f].phase.Recorded? ==> ShownRight(s.tables, k)))
  }

  predicate FlightOk(s: State, f: FlightId)
    requires f in s.flights
  {
    && f.key in s.tables.deliveries
    && var d := s.tables.deliveries[f.key];
    && f.attempt <= d.attempts
    && (Live(s, f) ==>
          f.attempt == d.attempts && !d.status.Terminal() && s.now < d.nextAt == s.flights[f].claimedAt + LEASE)
    && (s.flights[f].phase.Recorded? || s.flights[f].phase.Shown? ==> f.attempt == d.attempts && d.status.Terminal())
  }

  /** The recorder that made `k` terminal has not run its job-update statement, or crashed before it. */
  predicate Owes(s: State, k: Key)
    requires k in s.tables.deliveries
  {
    && Current(s, k) in s.flights
    && var f := s.flights[Current(s, k)];
    && (f.phase.Recorded? || f.phase.Shown?)
  }

  predicate JobOk(s: State, j: JobId)
    requires j in s.tables.jobs
  {
    if s.tables.jobs[j].status.JobPending? then
      exists k :: k in s.tables.deliveries && k.job == j && (AllTerminal(s.tables, j) ==> Owes(s, k))
    else
      AllTerminal(s.tables, j) && (s.tables.jobs[j].status.CompletedWithFailures? <==> SomeFailure(s.tables, j))
  }

  predicate OneJobPerSession(t: Tables)
  {
    forall i, j | i in t.jobs && j in t.jobs && i != j :: t.jobs[i].sid != t.jobs[j].sid
  }

  predicate Inv(s: State, schedule: seq<nat>)
  {
    && OneJobPerSession(s.tables)
    && (forall k | k in s.tables.deliveries :: KeyOk(s, k, schedule))
    && (forall f | f in s.flights :: FlightOk(s, f))
    && (forall j | j in s.tables.jobs :: JobOk(s, j))
  }

  lemma JoinKeeps(s: State, st: Step, schedule: seq<nat>)
    requires Inv(s, schedule) && (st.Join? || st.Advance?) && Enabled(s, st)
    ensures Inv(Apply(s, st, schedule), schedule)
  {
    var s' := Apply(s, st, schedule);
    forall k | k in s'.tables.deliveries ensures KeyOk(s', k, schedule) {
      assert KeyOk(s, k, schedule);
    }
    forall f | f in s'.flights ensures FlightOk(s', f) {
      assert FlightOk(s, f);
    }
    forall j | j in s'.tables.jobs ensures JobOk(s', j) {
      assert JobOk(s, j);
      JobCarries(s, s', j);
    }
  }

  /** A job row is still right when its deliveries and the flights that owe it kept their state. */
  lemma JobCarries(s: State, s': State, j: JobId)
    requires j in s.tables.jobs && JobOk(s, j)
    requires j in s'.tables.jobs && s'.tables.jobs[j] == s.tables.jobs[j]
    requires forall k: Key | k.job == j :: k in s'.tables.deliveries <==> k in s.tables.deliveries
    requires forall k: Key | k.job == j && k in s.tables.deliveries :: s'.tables.deliveries[k].status == s.tables.deliveries[k].status
    requires forall k: Key | k.job == j && k in s.tables.deliveries && Owes(s, k) :: Owes(s', k)
    ensures JobOk(s', j)
  {
  }

  lemma NewJobKey(s: State, st: Step, schedule: seq<nat>, k: Key)
    requires |schedule| > 0
    requires Inv(s, schedule) && st.NewJob? && Enabled(s, st)
    requires k in Apply(s, st, schedule).tables.deliveries
    ensures k.job == st.id <==> k in KeysOf(st.id, st.clients)
    ensures k.job != st.id ==> k in s.tables.deliveries
    ensures k.job != st.id ==> s.tables.deliveries[k] == Apply(s, st, schedule).tables.deliveries[k]
    ensures KeyOk(Apply(s, st, schedule), k, schedule)
  {
  }

  lemma NewJobKeeps(s: State, st: Step, schedule: seq<nat>)
    requires |schedule| > 0
    requires Inv(s, schedule) && st.NewJob? && Enabled(s, st)
    ensures Inv(Apply(s, st, schedule), schedule)
  {
    var s' := Apply(s, st, schedule);
    forall k | k in s'.tables.deliveries ensures KeyOk(s', k, schedule) {
      NewJobKey(s, st, schedule, k);
    }
    forall f | f in s'.flights ensures FlightOk(s', f) {
      NewJobFlight(s, st, schedule, f);
    }
    forall j | j in s'.tables.jobs ensures JobOk(s', j) {
      NewJobJob(s, st, schedule, j);
    }
    NewJobSessions(s, st, schedule);
  }

  lemma NewJobSessions(s: State, st: Step, schedule: seq<nat>)
    requires OneJobPerSession(s.tables) && st.NewJob? && Enabled(s, st)
    ensures OneJobPerSession(Apply(s, st, schedule).tables)
  {
  }

  lemma NewJobFlight(s: State, st: Step, schedule: seq<nat>, f: FlightId)
    requires Inv(s, schedule) && st.NewJob? && Enabled(s, st) && f in s.flights
    ensures FlightOk(Apply(s, st, schedule), f)
  {
  }

  lemma NewJobJob(s: State, st: Step, schedule: seq<nat>, j: JobId)
    requires |schedule| > 0
    requires Inv(s, schedule) && st.NewJob? && Enabled(s, st)
    requires j in Apply(s, st, schedule).tables.jobs
    ensures JobOk(Apply(s, st, schedule), j)
  {
    var s' := Apply(s, st, schedule);
    forall k | k in s'.tables.deliveries
      ensures k.job == st.id <==> k in KeysOf(st.id, st.clients)
      ensures k.job != st.id ==> k in s.tables.deliveries && s.tables.deliveries[k] == s'.tables.deliveries[k]
    {
      NewJobKey(s, st, schedule, k);
    }
    if j == st.id {
      NewJobOk(s', st.clients, j);
    } else {
      assert JobOk(s, j);
      JobCarries(s, s', j);
    }
  }

  lemma NewJobOk(s: State, clients: set<ClientId>, j: JobId)
    requires j in s.tables.jobs
    requires clients == {} ==> s.tables.jobs[j].status.Completed?
    requires clients != {} ==> s.tables.jobs[j].status.JobPending?
    requires forall k | k in s.tables.deliveries && k.job == j :: k in KeysOf(j, clients)
    requires forall k | k in KeysOf(j, clients) :: k in s.tables.deliveries && s.tables.deliveries[k].status.Pending?
    ensures JobOk(s, j)
  {
    if clients != {} {
      var c :| c in clients;
      assert Key(j, c) in KeysOf(j, clients);
      assert !AllTerminal(s.tables, j);
    }
  }

  lemma ClaimKeeps(s: State, st: Step, schedule: seq<nat>)
    requires Inv(s, schedule) && st.ClaimBatch? && Enabled(s, st)
    ensures Inv(Apply(s, st, schedule), schedule)
  {
    var s' := Apply(s, st, schedule);
    forall k | k in s'.tables.deliveries ensures KeyOk(s', k, schedule) {
      assert KeyOk(s, k, schedule);
      if k in st.picked {
        assert k in DueKeys(s.tables, s.now);
        NotLiveWhenDue(s, k);
      }
      ClaimKey(s, st, schedule, k);
    }
    forall f | f in s'.flights ensures FlightOk(s', f) {
      ClaimFlight(s, st, schedule, f);
    }
    forall j | j in s'.tables.jobs ensures JobOk(s', j) {
      assert JobOk(s, j);
      forall k: Key | k.job == j && k in s.tables.deliveries && Owes(s, k) ensures Owes(s', k) {
        assert FlightOk(s, Current(s, k));
        assert k !in DueKeys(s.tables, s.now);
        assert Current(s, k) !in ClaimIds(s, st.picked);
      }
      JobCarries(s, s', j);
    }
  }

  lemma ClaimKey(s: State, st: Step, schedule: seq<nat>, k: Key)
    requires st.ClaimBatch? && Enabled(s, st)
    requires k in s.tables.deliveries && KeyOk(s, k, schedule)
    requires k in st.picked ==> k in DueKeys(s.tables, s.now) && !Live(s, Current(s, k))
    ensures KeyOk(Apply(s, st, schedule), k, schedule)
  {
  }

  lemma ClaimFlight(s: State, st: Step, schedule: seq<nat>, f: FlightId)
    requires Inv(s, schedule) && st.ClaimBatch? && Enabled(s, st)
    requires f in Apply(s, st, schedule).flights
    ensures FlightOk(Apply(s, st, schedule), f)
  {
  }

  /** The lease at work: a due row has no live flight. */
  lemma NotLiveWhenDue(s: State, k: Key)
    requires k in s.tables.deliveries && Due(s.tables.deliveries[k], s.now)
    requires forall f | f in s.flights :: FlightOk(s, f)
    ensures forall f | f in s.flights && f.key == k :: !Live(s, f)
  {
  }

  lemma DeliverKey(s: State, st: Step, schedule: seq<nat>, x: Key)
    requires st.Deliver? && Enabled(s, st) && st.f in s.flights && FlightOk(s, st.f)
    requires x in s.tables.deliveries && KeyOk(s, x, schedule) && KeyOk(s, st.f.key, schedule)
    ensures x in Apply(s, st, schedule).tables.deliveries && KeyOk(Apply(s, st, schedule), x, schedule)
  {
  }

  lemma DeliverFlight(s: State, st: Step, schedule: seq<nat>, g: FlightId)
    requires st.Deliver? && Enabled(s, st) && st.f in s.flights && FlightOk(s, st.f)
    requires g in s.flights && FlightOk(s, g)
    ensures FlightOk(Apply(s, st, schedule), g)
  {
  }

  lemma DeliverKeeps(s: State, st: Step, schedule: seq<nat>)
    requires Inv(s, schedule) && st.Deliver? && Enabled(s, st)
    ensures Inv(Apply(s, st, schedule), schedule)
  {
    var s' := Apply(s, st, schedule);
    var k := st.f.key;
    assert FlightOk(s, st.f);
    assert KeyOk(s, k, schedule);
    forall x | x in s'.tables.deliveries ensures KeyOk(s', x, schedule) { DeliverKey(s, st, schedule, x); }
    forall g | g in s'.flights ensures FlightOk(s', g) { DeliverFlight(s, st, schedule, g); }
    forall j | j in s'.tables.jobs ensures JobOk(s', j) {
      assert JobOk(s, j);
      if j == k.job {
        assert s.tables.jobs[j].status.JobPending?;
        assert AllTerminal(s'.tables, j) ==> Owes(s', k);
      } else {
        JobCarries(s, s', j);
      }
    }
  }

  lemma ShowKeeps(s: State, st: Step, schedule: seq<nat>)
    requires Inv(s, schedule) && st.Show? && Enabled(s, st)
    ensures Inv(Apply(s, st, schedule), schedule)
  {
    var s' := Apply(s, st, schedule);
    assert FlightOk(s, st.f);
    assert KeyOk(s, st.f.key, schedule);
    forall k | k in s'.tables.deliveries ensures KeyOk(s', k, schedule) {
      assert KeyOk(s, k, schedule);
    }
    forall g | g in s'.flights ensures FlightOk(s', g) {
      assert FlightOk(s, g);
    }
    forall j | j in s'.tables.jobs ensures JobOk(s', j) {
      assert JobOk(s, j);
      JobCarries(s, s', j);
    }
  }

  lemma CloseKey(s: State, st: Step, schedule: seq<nat>, k: Key)
    requires st.Close? && Enabled(s, st) && st.f.key in s.tables.deliveries && KeyOk(s, st.f.key, schedule)
    requires k in s.tables.deliveries && KeyOk(s, k, schedule)
    ensures KeyOk(Apply(s, st, schedule), k, schedule)
  {
  }

  lemma CloseFlight(s: State, st: Step, schedule: seq<nat>, g: FlightId)
    requires st.Close? && Enabled(s, st) && g in s.flights && FlightOk(s, g)
    ensures FlightOk(Apply(s, st, schedule), g)
  {
  }

  lemma CloseOwnJob(s: State, st: Step, schedule: seq<nat>, j: JobId)
    requires st.Close? && Enabled(s, st) && FlightOk(s, st.f)
    requires j == st.f.key.job && j in s.tables.jobs && JobOk(s, j)
    ensures j in Apply(s, st, schedule).tables.jobs && JobOk(Apply(s, st, schedule), j)
  {
  }

  lemma CloseKeeps(s: State, st: Step, schedule: seq<nat>)
    requires Inv(s, schedule) && st.Close? && Enabled(s, st)
    ensures Inv(Apply(s, st, schedule), schedule)
  {
    var s' := Apply(s, st, schedule);
    var job := st.f.key.job;
    assert FlightOk(s, st.f);
    assert KeyOk(s, st.f.key, schedule);
    forall k | k in s'.tables.deliveries ensures KeyOk(s', k, schedule) { CloseKey(s, st, schedule, k); }
    forall g | g in s'.flights ensures FlightOk(s', g) { CloseFlight(s, st, schedule, g); }
    forall j | j in s'.tables.jobs ensures JobOk(s', j) {
      assert JobOk(s, j);
      if j == job && s.tables.jobs[j].status.JobPending? {
        CloseOwnJob(s, st, schedule, j);
      } else {
        CloseOtherJob(s, st, schedule, j);
      }
    }
  }

  lemma CloseOtherJob(s: State, st: Step, schedule: seq<nat>, j: JobId)
    requires st.Close? && Enabled(s, st) && j in s.tables.jobs && JobOk(s, j)
    requires j == st.f.key.job ==> !s.tables.jobs[j].status.JobPending?
    ensures j in Apply(s, st, schedule).tables.jobs && JobOk(Apply(s, st, schedule), j)
  {
    JobStays(s, Apply(s, st, schedule), j, st.f.key.job);
  }

  lemma JobStays(s: State, s': State, j: JobId, closed: JobId)
    requires j in s.tables.jobs && JobOk(s, j)
    requires j in s'.tables.jobs && s'.tables.jobs[j] == s.tables.jobs[j]
    requires j == closed ==> !s.tables.jobs[j].status.JobPending?
    requires s'.tables.deliveries == s.tables.deliveries
    requires forall f | f in s.flights && f.key.job != closed :: f in s'.flights && s'.flights[f] == s.flights[f]
    ensures JobOk(s', j)
  {
  }

  lemma CrashKeeps(s: State, st: Step, schedule: seq<nat>)
    requires Inv(s, schedule) && st.Crash? && Enabled(s, st)
    ensures Inv(Apply(s, st, schedule), schedule)
  {
    var s' := Apply(s, st, schedule);
    assert FlightOk(s, st.f);
    assert KeyOk(s, st.f.key, schedule);
    forall k | k in s'.tables.deliveries ensures KeyOk(s', k, schedule) { CrashKey(s, st, schedule, k); }
    forall g | g in s'.flights ensures FlightOk(s', g) { CrashFlight(s, st, schedule, g); }
    forall j | j in s'.tables.jobs ensures JobOk(s', j) {
      assert JobOk(s, j);
      JobCarries(s, s', j);
    }
  }

  lemma CrashKey(s: State, st: Step, schedule: seq<nat>, k: Key)
    requires st.Crash? && Enabled(s, st) && FlightOk(s, st.f) && KeyOk(s, st.f.key, schedule)
    requires k in s.tables.deliveries && KeyOk(s, k, schedule)
    ensures KeyOk(Apply(s, st, schedule), k, schedule)
  {
  }

  lemma CrashFlight(s: State, st: Step, schedule: seq<nat>, g: FlightId)
    requires st.Crash? && Enabled(s, st) && g in s.flights && FlightOk(s, g)
    ensures FlightOk(Apply(s, st, schedule), g)
  {
  }

  lemma StepKeeps(s: State, st: Step, schedule: seq<nat>)
    requires |schedule| > 0
    requires Inv(s, schedule) && Enabled(s, st)
    ensures Inv(Apply(s, st, schedule), schedule)
  {
    match st
    case Advance(_) => JoinKeeps(s, st, schedule);
    case Join(_) => JoinKeeps(s, st, schedule);
    case NewJob(_, _, _, _) => NewJobKeeps(s, st, schedule);
    case ClaimBatch(_, _, _) => ClaimKeeps(s, st, schedule);
    case Deliver(_, _) => DeliverKeeps(s, st, schedule);
    case Show(_) => ShowKeeps(s, st, schedule);
    case Close(_) => CloseKeeps(s, st, schedule);
    case Crash(_) => CrashKeeps(s, st, schedule);
  }

  // ---- whole runs ------------------------------------------------------------------------------------

  ghost predicate IsRun(tr: seq<State>, steps: seq<Step>, schedule: seq<nat>)
  {
    && |schedule| > 0
    && |tr| == |steps| + 1
    && tr[0].tables.jobs == map[] && tr[0].tables.deliveries == map[] && tr[0].flights == map[] && tr[0].past == map[]
    && forall i {:trigger Enabled(tr[i], steps[i])} | 0 <= i < |steps| :: Enabled(tr[i], steps[i]) && tr[i + 1] == Apply(tr[i], steps[i], schedule)
  }

  lemma StepAt(tr: seq<State>, steps: seq<Step>, schedule: seq<nat>, i: nat)
    requires IsRun(tr, steps, schedule) && i < |steps|
    ensures Enabled(tr[i], steps[i]) && tr[i + 1] == Apply(tr[i], steps[i], schedule)
  {
  }

  lemma {:induction false} Reachable(tr: seq<State>, steps: seq<Step>, schedule: seq<nat>, i: nat)
    requires IsRun(tr, steps, schedule) && i < |tr|
    ensures Inv(tr[i], schedule)
  {
    if i > 0 {
      Reachable(tr, steps, schedule, i - 1);
      StepAt(tr, steps, schedule, i - 1);
      StepKeeps(tr[i - 1], steps[i - 1], schedule);
    }
  }

  /** One step never loses a delivery, renames its message, or moves a finished delivery or job. */
  lemma StepFixes(s: State, st: Step, schedule: seq<nat>, k: Key)
    requires Inv(s, schedule) && Enabled(s, st) && k in s.tables.deliveries
    ensures var s' := Apply(s, st, schedule);
            && k in s'.tables.deliveries && s'.tables.deliveries[k].jti == s.tables.deliveries[k].jti
            && (s.tables.deliveries[k].status.Terminal() ==> s'.tables.deliveries[k] == s.tables.deliveries[k])
            && k.job in s.tables.jobs && k.job in s'.tables.jobs
            && (!s.tables.jobs[k.job].status.JobPending? ==> s'.tables.jobs[k.job] == s.tables.jobs[k.job])
  {
    assert KeyOk(s, k, schedule);
    if st.Deliver? { assert FlightOk(s, st.f); }
    if st.ClaimBatch? && k in st.picked { assert k in DueKeys(s.tables, s.now); }
  }

  /** Terminal statuses, the message id and a closed job row are for ever. */
  lemma {:induction false} FinishedForever(tr: seq<State>, steps: seq<Step>, schedule: seq<nat>, i: nat, j: nat, k: Key)
    requires IsRun(tr, steps, schedule) && i <= j < |tr| && k in tr[i].tables.deliveries
    ensures k in tr[j].tables.deliveries
    ensures tr[j].tables.deliveries[k].jti == tr[i].tables.deliveries[k].jti
    ensures tr[i].tables.deliveries[k].status.Terminal() ==> tr[j].tables.deliveries[k] == tr[i].tables.deliveries[k]
    ensures k.job in tr[i].tables.jobs && k.job in tr[j].tables.jobs
    ensures !tr[i].tables.jobs[k.job].status.JobPending? ==> tr[j].tables.jobs[k.job] == tr[i].tables.jobs[k.job]
    decreases j - i
  {
    Reachable(tr, steps, schedule, i);
    if i == j {
      assert KeyOk(tr[i], k, schedule);
    } else {
      StepAt(tr, steps, schedule, i);
      StepFixes(tr[i], steps[i], schedule, k);
      FinishedForever(tr, steps, schedule, i + 1, j, k);
    }
  }

  /** A job that left PENDING is finished for every client, and its status tells whether one failed. */
  lemma JobOutcome(tr: seq<State>, steps: seq<Step>, schedule: seq<nat>, i: nat, j: JobId)
    requires IsRun(tr, steps, schedule) && i < |tr|
    requires j in tr[i].tables.jobs && !tr[i].tables.jobs[j].status.JobPending?
    ensures forall k | k in tr[i].tables.deliveries && k.job == j ::
              tr[i].tables.deliveries[k].status in {Succeeded, Failed, NoEndpoint, Dead}
    ensures tr[i].tables.jobs[j].status ==
              if exists k :: k in tr[i].tables.deliveries && k.job == j && tr[i].tables.deliveries[k].status in {Failed, Dead}
              then CompletedWithFailures else Completed
  {
    Reachable(tr, steps, schedule, i);
    assert JobOk(tr[i], j);
  }

  /** Every client is served and the job is still PENDING: some recorder owes its job update. */
  lemma JobOwed(tr: seq<State>, steps: seq<Step>, schedule: seq<nat>, i: nat, j: JobId) returns (k: Key)
    requires IsRun(tr, steps, schedule) && i < |tr|
    requires j in tr[i].tables.jobs && tr[i].tables.jobs[j].status.JobPending? && AllTerminal(tr[i].tables, j)
    ensures k in tr[i].tables.deliveries && k.job == j && Owes(tr[i], k)
  {
    Reachable(tr, steps, schedule, i);
    assert JobOk(tr[i], j);
    k :| k in tr[i].tables.deliveries && k.job == j && (AllTerminal(tr[i].tables, j) ==> Owes(tr[i], k));
  }

  /** When no recorder is left half way, the job row and the participant rows tell the outcome. */
  lemma QuietMeansClosed(tr: seq<State>, steps: seq<Step>, schedule: seq<nat>, i: nat, j: JobId)
    requires IsRun(tr, steps, schedule) && i < |tr| && j in tr[i].tables.jobs
    requires AllTerminal(tr[i].tables, j)
    requires forall f | f in tr[i].flights :: !tr[i].flights[f].phase.Recorded? && !tr[i].flights[f].phase.Shown?
    ensures !tr[i].tables.jobs[j].status.JobPending?
    ensures forall k | k in tr[i].tables.deliveries && k.job == j :: ShownRight(tr[i].tables, k)
  {
    if tr[i].tables.jobs[j].status.JobPending? {
      var k := JobOwed(tr, steps, schedule, i, j);
      assert false;
    }
    Reachable(tr, steps, schedule, i);
    forall k | k in tr[i].tables.deliveries && k.job == j ensures ShownRight(tr[i].tables, k) {
      assert KeyOk(tr[i], k, schedule);
    }
  }

  /** Claims of a delivery: at most the schedule's length, plus the claims that crashed. */
  lemma ClaimsBounded(tr: seq<State>, steps: seq<Step>, schedule: seq<nat>, i: nat, k: Key)
    requires IsRun(tr, steps, schedule) && i < |tr| && k in tr[i].tables.deliveries
    ensures k in tr[i].past
    ensures tr[i].tables.deliveries[k].attempts <= |schedule| + tr[i].past[k].crashes
    ensures tr[i].tables.deliveries[k].status.Dead? ==>
              |schedule| <= tr[i].tables.deliveries[k].attempts == tr[i].past[k].retries + 1 + tr[i].past[k].crashes
  {
    Reachable(tr, steps, schedule, i);
    assert KeyOk(tr[i], k, schedule);
  }

  /** An endpoint that always fails retryably, with no crash, is DEAD after exactly |schedule| recorded attempts. */
  lemma {:induction false} AlwaysRetryable(tr: seq<State>, steps: seq<Step>, schedule: seq<nat>, i: nat, k: Key)
    requires IsRun(tr, steps, schedule) && i < |tr| && k in tr[i].tables.deliveries
    requires forall n | 0 <= n < i && steps[n].Deliver? && steps[n].f.key == k :: Retryable(steps[n].answer)
    ensures tr[i].tables.deliveries[k].status.Terminal() ==> tr[i].tables.deliveries[k].status.Dead?
    ensures k in tr[i].past
    ensures tr[i].past[k].crashes == 0 && tr[i].tables.deliveries[k].status.Terminal() ==>
              tr[i].past[k].retries + 1 == tr[i].tables.deliveries[k].attempts == |schedule|
  {
    ClaimsBounded(tr, steps, schedule, i, k);
    if i > 0 {
      Reachable(tr, steps, schedule, i - 1);
      StepAt(tr, steps, schedule, i - 1);
      StepRetryable(tr[i - 1], steps[i - 1], schedule, k);
      if k in tr[i - 1].tables.deliveries {
        AlwaysRetryable(tr, steps, schedule, i - 1, k);
      }
    }
  }

  lemma StepRetryable(s: State, st: Step, schedule: seq<nat>, k: Key)
    requires Inv(s, schedule) && Enabled(s, st) && k in Apply(s, st, schedule).tables.deliveries
    requires st.Deliver? && st.f.key == k ==> Retryable(st.answer)
    ensures var after := Apply(s, st, schedule).tables.deliveries[k].status;
            after.Terminal() && !after.Dead? ==>
              k in s.tables.deliveries && s.tables.deliveries[k].status == after
  {
    if k !in s.tables.deliveries && st.NewJob? {
      assert k in KeysOf(st.id, st.clients);
    }
  }
}
